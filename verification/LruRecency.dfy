/** Why the handler cache is a cache of the least recently used: in every run its list is
    ordered by last use, so what a full cache drops is the key unused for longest, and what it
    answers is what was last put. */
module LruRecency {
  import opened Basics
  import opened Lru
  import opened LruInclusion

  /** The operation uses the key: it puts it, or gets it with a hit. */
  predicate Uses<K(==), V>(before: Recency<K, V>, op: Op<K, V>, k: K) {
    op.key == k && (op.Put? || (op.Get? && Lookup(before, k).Some?))
  }

  /** The number, counted from 1, of the last operation of a run that uses the key; 0 if none does. */
  function LastUse<K(==), V>(c: nat, ops: seq<Op<K, V>>, k: K): (n: nat)
    ensures n <= |ops|
  {
    if ops == [] then 0
    else
      var before := ops[..|ops| - 1];
      if Uses(Run(c, before), ops[|ops| - 1], k) then |ops| else LastUse(c, before, k)
  }

  /** What the last operation on the key left: the value it put, unless it was deleted since. */
  function LastPut<K(==), V>(ops: seq<Op<K, V>>, k: K): Option<V> {
    if ops == [] then None
    else
      var op := ops[|ops| - 1];
      if op.Put? && op.key == k then Some(op.value)
      else if op.Delete? && op.key == k then None
      else LastPut(ops[..|ops| - 1], k)
  }

  // ----- order

  ghost predicate Ordered<K(!new), V(!new)>(l: Recency<K, V>, use: K -> nat) {
    forall i, j :: 0 <= i < j < |l| ==> use(l[i].0) > use(l[j].0)
  }

  ghost predicate Within<K(!new), V(!new)>(l: Recency<K, V>, use: K -> nat, n: nat) {
    forall i :: 0 <= i < |l| ==> use(l[i].0) <= n
  }

  lemma DroppedIsOrdered<K(!new), V(!new)>(l: Recency<K, V>, p: nat, use: K -> nat, n: nat)
    requires p < |l| && Ordered(l, use) && Within(l, use, n)
    ensures Ordered(Dropped(l, p), use) && Within(Dropped(l, p), use, n)
  {
  }

  lemma PrefixIsOrdered<K(!new), V(!new)>(l: Recency<K, V>, use: K -> nat, n: nat)
    requires l != [] && Ordered(l, use) && Within(l, use, n)
    ensures Ordered(l[..|l| - 1], use) && Within(l[..|l| - 1], use, n)
  {
  }

  // The uses after an operation that uses one key, or none.
  ghost function Later<K(!new), V(!new)>(l: Recency<K, V>, op: Op<K, V>, use: K -> nat, n: nat): K -> nat {
    (k: K) => if Uses(l, op, k) then n + 1 else use(k)
  }

  lemma FrontIsOrdered<K(!new), V(!new)>(
      l: Recency<K, V>, op: Op<K, V>, rest: Recency<K, V>, v: V, use: K -> nat, n: nat)
    requires Uses(l, op, op.key) && Ordered(rest, use) && Within(rest, use, n)
    requires forall i :: 0 <= i < |rest| ==> rest[i].0 != op.key
    ensures Ordered([(op.key, v)] + rest, Later(l, op, use, n))
  {
  }

  lemma SameUses<K(!new), V(!new)>(l: Recency<K, V>, op: Op<K, V>, rest: Recency<K, V>, use: K -> nat, n: nat)
    requires !Uses(l, op, op.key) && Ordered(rest, use)
    ensures Ordered(rest, Later(l, op, use, n))
  {
  }

  // What is left without a key is in order, and the key is not in it.
  lemma WithoutIsOrdered<K(!new), V(!new)>(l: Recency<K, V>, k: K, use: K -> nat, n: nat)
    requires Distinct(l) && Ordered(l, use) && Within(l, use, n)
    ensures Ordered(Without(l, k), use) && Within(Without(l, k), use, n)
    ensures forall i :: 0 <= i < |Without(l, k)| ==> Without(l, k)[i].0 != k
  {
    WithoutShrinks(l, k);
    if Lookup(l, k).None? {
      WithoutAbsent(l, k);
    } else {
      var p :| 0 <= p < |l| && l[p].0 == k;
      FoundAt(l, p);
      assert Without(l, k) == Dropped(l, p);
      DroppedIsOrdered(l, p, use, n);
    }
  }

  lemma StepKeepsOrder<K(!new), V(!new)>(c: nat, l: Recency<K, V>, op: Op<K, V>, use: K -> nat, n: nat)
    requires Distinct(l) && Ordered(l, use) && Within(l, use, n)
    ensures Ordered(Step(c, l, op), Later(l, op, use, n))
  {
    WithoutIsOrdered(l, op.key, use, n);
    var found := Lookup(l, op.key);
    if op.Delete? {
      SameUses(l, op, Without(l, op.key), use, n);
    } else if found.Some? {
      FrontIsOrdered(l, op, Without(l, op.key), if op.Put? then op.value else found.value, use, n);
    } else if op.Get? {
      SameUses(l, op, l, use, n);
    } else if |l| >= c && l != [] {
      PrefixIsOrdered(l, use, n);
      FrontIsOrdered(l, op, l[..|l| - 1], op.value, use, n);
    } else {
      FrontIsOrdered(l, op, l, op.value, use, n);
    }
  }

  ghost function UseIn<K(!new), V(!new)>(c: nat, ops: seq<Op<K, V>>): K -> nat {
    (k: K) => LastUse(c, ops, k)
  }

  /** In every run the list is ordered by last use, the latest first. */
  lemma {:induction false} OrderedByUse<K(!new), V(!new)>(c: nat, ops: seq<Op<K, V>>)
    requires 0 < c
    ensures Ordered(Run(c, ops), UseIn(c, ops))
    decreases |ops|
  {
    if ops != [] {
      var n := |ops| - 1;
      var before, use := Run(c, ops[..n]), UseIn(c, ops[..n]);
      OrderedByUse(c, ops[..n]);
      RunIsDistinct(c, ops[..n]);
      assert Within(before, use, n);
      StepKeepsOrder(c, before, ops[n], use, n);
      forall k
        ensures Later(before, ops[n], use, n)(k) == UseIn(c, ops)(k)
      {
      }
      SameOrder(Run(c, ops), Later(before, ops[n], use, n), UseIn(c, ops));
    }
  }

  lemma SameOrder<K(!new), V(!new)>(l: Recency<K, V>, use: K -> nat, other: K -> nat)
    requires Ordered(l, use) && forall k :: use(k) == other(k)
    ensures Ordered(l, other)
  {
  }

  // ----- what an operation does to a lookup

  lemma LookupWithout<K, V>(l: Recency<K, V>, k: K, x: K)
    requires Distinct(l)
    ensures Lookup(Without(l, k), x) == if x == k then None else Lookup(l, x)
  {
    WithoutShrinks(l, k);
    if x != k {
      LookupWithoutOther(l, k, x);
    }
  }

  lemma {:induction false} LookupWithoutOther<K, V>(l: Recency<K, V>, k: K, x: K)
    requires x != k
    ensures Lookup(Without(l, k), x) == Lookup(l, x)
  {
    if l != [] && l[0].0 != k {
      LookupWithoutOther(l[1..], k, x);
      assert ([l[0]] + Without(l[1..], k))[1..] == Without(l[1..], k);
    }
  }

  lemma LookupInFront<K, V>(e: (K, V), l: Recency<K, V>, x: K)
    ensures Lookup([e] + l, x) == if x == e.0 then Some(e.1) else Lookup(l, x)
  {
    assert ([e] + l)[1..] == l;
  }

  lemma LookupInPrefix<K, V>(l: Recency<K, V>, x: K)
    requires l != [] && Distinct(l)
    ensures Lookup(l[..|l| - 1], x) == if x == l[|l| - 1].0 then None else Lookup(l, x)
  {
    var front, last := l[..|l| - 1], l[|l| - 1];
    assert l == front + [last];
    LookupAppend(front, [last], x);
    LookupInFront(last, [], x);
    assert [last] + [] == [last];
    if x == last.0 {
      assert forall i :: 0 <= i < |front| ==> front[i].0 == l[i].0 != x;
    }
  }

  /** The key that has to go when a new one is put: the last of a full list. */
  ghost predicate Goes<K, V>(c: nat, l: Recency<K, V>, op: Op<K, V>, x: K) {
    op.Put? && Lookup(l, op.key).None? && |l| >= c && l != [] && l[|l| - 1].0 == x
  }

  /** What every operation makes of what the cache holds for every key. */
  lemma LookupAfter<K, V>(c: nat, l: Recency<K, V>, op: Op<K, V>, x: K)
    requires Distinct(l)
    ensures Lookup(Step(c, l, op), x) ==
            if op.Put? && x == op.key then Some(op.value)
            else if (op.Delete? && x == op.key) || Goes(c, l, op, x) then None
            else Lookup(l, x)
  {
    var k := op.key;
    LookupWithout(l, k, x);
    if op.Get? && Lookup(l, k).Some? {
      LookupInFront((k, Lookup(l, k).value), Without(l, k), x);
    } else if op.Put? {
      if Lookup(l, k).Some? {
        LookupInFront((k, op.value), Without(l, k), x);
      } else if |l| >= c && l != [] {
        LookupInPrefix(l, x);
        LookupInFront((k, op.value), l[..|l| - 1], x);
      } else {
        LookupInFront((k, op.value), l, x);
      }
    }
  }

  /** Whatever a run answers for a key is what was last put for it. */
  lemma {:induction false} HitIsLastPut<K, V>(c: nat, ops: seq<Op<K, V>>, k: K)
    requires 0 < c
    ensures Lookup(Run(c, ops), k).Some? ==> Lookup(Run(c, ops), k) == LastPut(ops, k)
    decreases |ops|
  {
    if ops != [] {
      var n := |ops| - 1;
      HitIsLastPut(c, ops[..n], k);
      RunIsDistinct(c, ops[..n]);
      LookupAfter(c, Run(c, ops[..n]), ops[n], k);
    }
  }

  /** A put of a new key on a full cache drops one key, the one whose last use is oldest, and
      keeps every other. */
  lemma PutDropsOldest<K(!new), V(!new)>(c: nat, ops: seq<Op<K, V>>, k: K, v: V) returns (z: K)
    requires 0 < c == |Run(c, ops)| && Lookup(Run(c, ops), k).None?
    ensures Lookup(Run(c, ops), z).Some?
    ensures forall x :: x != z && Lookup(Run(c, ops), x).Some? ==> LastUse(c, ops, z) < LastUse(c, ops, x)
    ensures forall x ::
              Lookup(Run(c, ops + [Put(k, v)]), x) ==
              if x == k then Some(v) else if x == z then None else Lookup(Run(c, ops), x)
  {
    var l, more := Run(c, ops), ops + [Put(k, v)];
    RunIsDistinct(c, ops);
    OrderedByUse(c, ops);
    z := l[c - 1].0;
    FoundAt(l, c - 1);
    assert more[..|more| - 1] == ops;
    forall x
      ensures x != z && Lookup(l, x).Some? ==> UseIn(c, ops)(z) < UseIn(c, ops)(x)
      ensures Lookup(Run(c, more), x) == if x == k then Some(v) else if x == z then None else Lookup(l, x)
    {
      LookupAfter(c, l, Put(k, v), x);
    }
  }
}
