/** The inclusion property of the handler cache: over one and the same run, a cache with
    room for one more entry holds everything the smaller one holds, in the same order. */
module LruInclusion {
  import opened Basics
  import opened Lru

  datatype Op<K, V> = Get(key: K) | Put(key: K, value: V) | Delete(key: K)

  function Step<K(==), V>(capacity: nat, l: Recency<K, V>, op: Op<K, V>): Recency<K, V> {
    match op
    case Get(k) => Touched(l, k)
    case Put(k, v) => Stored(capacity, l, k, v)
    case Delete(k) => Without(l, k)
  }

  /** The contents after a run from the empty cache. */
  function Run<K(==), V>(capacity: nat, ops: seq<Op<K, V>>): Recency<K, V> {
    if ops == [] then [] else Step(capacity, Run(capacity, ops[..|ops| - 1]), ops[|ops| - 1])
  }

  // ----- what a single cache keeps

  lemma DroppedIsDistinct<K, V>(l: Recency<K, V>, p: nat)
    requires Distinct(l) && p < |l|
    ensures Distinct(Dropped(l, p)) && forall i :: 0 <= i < |l| - 1 ==> Dropped(l, p)[i].0 != l[p].0
  {
  }

  lemma WithoutShrinks<K, V>(l: Recency<K, V>, k: K)
    requires Distinct(l)
    ensures Distinct(Without(l, k)) && Lookup(Without(l, k), k).None?
    ensures |Without(l, k)| == if Lookup(l, k).Some? then |l| - 1 else |l|
  {
    if Lookup(l, k).None? {
      WithoutAbsent(l, k);
    } else {
      var p :| 0 <= p < |l| && l[p].0 == k;
      FoundAt(l, p);
      DroppedIsDistinct(l, p);
      assert Without(l, k) == Dropped(l, p);
    }
  }

  lemma StepKeepsDistinct<K, V>(capacity: nat, l: Recency<K, V>, op: Op<K, V>)
    requires 0 < capacity && Distinct(l) && |l| <= capacity
    ensures Distinct(Step(capacity, l, op)) && |Step(capacity, l, op)| <= capacity
  {
    WithoutShrinks(l, op.key);
  }

  lemma {:induction false} RunIsDistinct<K, V>(capacity: nat, ops: seq<Op<K, V>>)
    requires 0 < capacity
    ensures Distinct(Run(capacity, ops)) && |Run(capacity, ops)| <= capacity
    decreases |ops|
  {
    if ops != [] {
      RunIsDistinct(capacity, ops[..|ops| - 1]);
      StepKeepsDistinct(capacity, Run(capacity, ops[..|ops| - 1]), ops[|ops| - 1]);
    }
  }

  // ----- two caches side by side

  /** The small list is the large one, or the large one less the entry at place j. */
  ghost predicate Gap<K, V>(small: Recency<K, V>, large: Recency<K, V>, j: nat) {
    j < |large| && small == large[..j] + large[j + 1..]
  }

  ghost predicate Embeds<K, V>(small: Recency<K, V>, large: Recency<K, V>) {
    small == large || exists j: nat :: Gap(small, large, j)
  }

  lemma ConsEmbeds<K, V>(e: (K, V), small: Recency<K, V>, large: Recency<K, V>)
    requires Embeds(small, large)
    ensures Embeds([e] + small, [e] + large)
  {
    if small != large {
      var j: nat :| Gap(small, large, j);
      assert ([e] + large)[..j + 1] == [e] + large[..j] && ([e] + large)[j + 2..] == large[j + 1..];
      assert Gap([e] + small, [e] + large, j + 1);
    }
  }

  lemma PrefixEmbeds<K, V>(l: Recency<K, V>)
    requires l != []
    ensures Embeds(l[..|l| - 1], l)
  {
    assert Gap(l[..|l| - 1], l, |l| - 1);
  }

  lemma FrontEmbeds<K, V>(e: (K, V), l: Recency<K, V>)
    ensures Embeds(l, [e] + l)
  {
    assert Gap(l, [e] + l, 0);
  }

  lemma LastDropped<K, V>(small: Recency<K, V>, large: Recency<K, V>)
    requires Embeds(small, large) && small != []
    ensures Embeds(small[..|small| - 1], large[..|large| - 1])
  {
    if small != large {
      var j: nat :| Gap(small, large, j);
      if j == |large| - 1 {
        assert small == large[..|large| - 1];
        PrefixEmbeds(small);
      } else {
        var s, l := small[..|small| - 1], large[..|large| - 1];
        assert s == l[..j] + l[j + 1..];
        assert Gap(s, l, j);
      }
    }
  }

  lemma {:induction false} WithoutAppend<K, V>(a: Recency<K, V>, b: Recency<K, V>, k: K)
    ensures Without(a + b, k) == if Lookup(a, k).Some? then Without(a, k) + b else a + Without(b, k)
  {
    if a == [] {
      assert a + b == b && a + Without(b, k) == Without(b, k);
    } else {
      var x, rest := a[0], a[1..];
      assert (a + b)[0] == x && (a + b)[1..] == rest + b;
      if x.0 != k {
        WithoutAppend(rest, b, k);
        if Lookup(rest, k).Some? {
          assert [x] + (Without(rest, k) + b) == ([x] + Without(rest, k)) + b;
        } else {
          assert [x] + (rest + Without(b, k)) == a + Without(b, k);
        }
      }
    }
  }

  lemma {:induction false} LookupAppend<K, V>(a: Recency<K, V>, b: Recency<K, V>, k: K)
    ensures Lookup(a + b, k) == if Lookup(a, k).Some? then Lookup(a, k) else Lookup(b, k)
  {
    if a == [] {
      assert a + b == b;
    } else if a[0].0 != k {
      assert (a + b)[1..] == a[1..] + b;
      LookupAppend(a[1..], b, k);
    }
  }

  // The parts of a gap: what is before it, the extra entry and what is after it.
  lemma Parts<K, V>(small: Recency<K, V>, large: Recency<K, V>, j: nat)
      returns (a: Recency<K, V>, x: (K, V), b: Recency<K, V>)
    requires Gap(small, large, j)
    ensures small == a + b && large == a + ([x] + b) && |a| == j
    ensures x == large[j]
  {
    a, x, b := large[..j], large[j], large[j + 1..];
  }

  lemma PartsEmbed<K, V>(a: Recency<K, V>, x: (K, V), b: Recency<K, V>)
    ensures Embeds(a + b, a + ([x] + b))
  {
    var large := a + ([x] + b);
    assert large[..|a|] == a && large[|a| + 1..] == b;
    assert Gap(a + b, large, |a|);
  }

  // In a list of distinct keys the extra key is neither before nor after the gap.
  lemma ExtraIsAlone<K, V>(a: Recency<K, V>, x: (K, V), b: Recency<K, V>)
    requires Distinct(a + ([x] + b))
    ensures Lookup(a, x.0).None? && Lookup(b, x.0).None?
  {
    var large := a + ([x] + b);
    assert large[|a|] == x;
    assert forall i :: 0 <= i < |a| ==> large[i] == a[i];
    assert forall i :: 0 <= i < |b| ==> large[|a| + 1 + i] == b[i];
  }

  lemma LookupParts<K, V>(a: Recency<K, V>, x: (K, V), b: Recency<K, V>, k: K)
    requires Distinct(a + ([x] + b))
    ensures Lookup(a + ([x] + b), k) == if k == x.0 then Some(x.1) else Lookup(a + b, k)
    ensures Lookup(a + b, x.0).None?
  {
    ExtraIsAlone(a, x, b);
    LookupAppend(a, b, k);
    LookupAppend(a, b, x.0);
    LookupAppend(a, [x] + b, k);
    LookupAppend([x], b, k);
  }

  lemma WithoutParts<K, V>(a: Recency<K, V>, x: (K, V), b: Recency<K, V>, k: K)
    requires Distinct(a + ([x] + b))
    ensures k == x.0 ==> Without(a + ([x] + b), k) == a + b == Without(a + b, k)
    ensures k != x.0 ==> Embeds(Without(a + b, k), Without(a + ([x] + b), k))
  {
    ExtraIsAlone(a, x, b);
    WithoutAppend(a, b, k);
    WithoutAppend(a, [x] + b, k);
    WithoutAppend([x], b, k);
    if k == x.0 {
      WithoutAbsent(b, k);
      assert Without([x] + b, k) == b;
    } else if Lookup(a, k).Some? {
      PartsEmbed(Without(a, k), x, b);
    } else {
      PartsEmbed(a, x, Without(b, k));
    }
  }

  lemma LookupEmbeds<K, V>(small: Recency<K, V>, large: Recency<K, V>, k: K)
    requires Embeds(small, large) && Distinct(large)
    ensures Lookup(small, k).Some? ==> Lookup(large, k) == Lookup(small, k)
    ensures Lookup(small, k).None? && Lookup(large, k).Some? ==> Without(large, k) == small
  {
    if small != large {
      var j: nat :| Gap(small, large, j);
      var a, x, b := Parts(small, large, j);
      LookupParts(a, x, b, k);
      WithoutParts(a, x, b, k);
    }
  }

  lemma WithoutEmbeds<K, V>(small: Recency<K, V>, large: Recency<K, V>, k: K)
    requires Embeds(small, large) && Distinct(large)
    ensures Embeds(Without(small, k), Without(large, k))
  {
    if small != large {
      var j: nat :| Gap(small, large, j);
      var a, x, b := Parts(small, large, j);
      WithoutParts(a, x, b, k);
    }
  }

  lemma PutEmbeds<K, V>(c: nat, small: Recency<K, V>, large: Recency<K, V>, k: K, v: V)
    requires 0 < c && Embeds(small, large) && Distinct(large) && |small| <= c && |large| <= c + 1
    ensures Embeds(Stored(c, small, k, v), Stored(c + 1, large, k, v))
  {
    var e := (k, v);
    LookupEmbeds(small, large, k);
    if Lookup(small, k).Some? {
      WithoutEmbeds(small, large, k);
      ConsEmbeds(e, Without(small, k), Without(large, k));
    } else if Lookup(large, k).Some? || |large| <= c {
      if |small| == c {
        if Lookup(large, k).None? {
          assert small == large;
        }
        PrefixEmbeds(small);
        ConsEmbeds(e, small[..c - 1], small);
      } else {
        ConsEmbeds(e, small, if Lookup(large, k).Some? then small else large);
      }
    } else {
      LastDropped(small, large);
      ConsEmbeds(e, small[..c - 1], large[..c]);
    }
  }

  lemma StepEmbeds<K, V>(c: nat, small: Recency<K, V>, large: Recency<K, V>, op: Op<K, V>)
    requires 0 < c && Embeds(small, large) && Distinct(large) && |small| <= c && |large| <= c + 1
    ensures Embeds(Step(c, small, op), Step(c + 1, large, op))
  {
    match op
    case Put(k, v) =>
      PutEmbeds(c, small, large, k, v);
    case Delete(k) =>
      WithoutEmbeds(small, large, k);
    case Get(k) =>
      LookupEmbeds(small, large, k);
      if Lookup(small, k).Some? {
        WithoutEmbeds(small, large, k);
        ConsEmbeds((k, Lookup(small, k).value), Without(small, k), Without(large, k));
      } else if Lookup(large, k).Some? {
        FrontEmbeds((k, Lookup(large, k).value), small);
      }
  }

  /** One more place of capacity: the same list with at most one entry more. */
  lemma {:induction false} OneMorePlace<K, V>(c: nat, ops: seq<Op<K, V>>)
    requires 0 < c
    ensures Embeds(Run(c, ops), Run(c + 1, ops))
    decreases |ops|
  {
    if ops != [] {
      var before := ops[..|ops| - 1];
      OneMorePlace(c, before);
      RunIsDistinct(c, before);
      RunIsDistinct(c + 1, before);
      StepEmbeds(c, Run(c, before), Run(c + 1, before), ops[|ops| - 1]);
    }
  }

  /** A larger cache never loses a hit, and answers the same value. */
  lemma {:induction false} LargerCacheKeepsHits<K, V>(c: nat, d: nat, ops: seq<Op<K, V>>, k: K)
    requires 0 < c <= d
    ensures Lookup(Run(c, ops), k).Some? ==> Lookup(Run(d, ops), k) == Lookup(Run(c, ops), k)
    decreases d - c
  {
    if c < d {
      OneMorePlace(c, ops);
      RunIsDistinct(c + 1, ops);
      LookupEmbeds(Run(c, ops), Run(c + 1, ops), k);
      LargerCacheKeepsHits(c + 1, d, ops, k);
    }
  }
}
