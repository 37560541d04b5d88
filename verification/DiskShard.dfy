/** One shard of the disk cache's index: entries by key, keys by recency, and their total size. */
module DiskShard {
  import opened Basics

  type Key = string

  /** A tracked entry: its size, and when it expires (0 is never). */
  datatype Entry = Entry(size: int, expires: int)

  /** The most recent key comes first. */
  datatype Shard = Shard(lru: map<Key, Entry>, order: seq<Key>, size: int)

  const EMPTY_SHARD := Shard(map[], [], 0)

  // ----- recency lists

  /** The first n keys of a list without some. */
  function Minus(order: seq<Key>, n: nat, gone: set<Key>): seq<Key>
    requires n <= |order|
  {
    if n == 0 then [] else Minus(order, n - 1, gone) + if order[n - 1] in gone then [] else [order[n - 1]]
  }

  function SizeOf(lru: map<Key, Entry>, k: Key): int {
    if k in lru then lru[k].size else 0
  }

  /** The total size of the first n keys. */
  function Sum(order: seq<Key>, n: nat, lru: map<Key, Entry>): int
    requires n <= |order|
  {
    if n == 0 then 0 else Sum(order, n - 1, lru) + SizeOf(lru, order[n - 1])
  }

  /** The total size of those of the first n keys that are in a set. */
  function SumIn(order: seq<Key>, n: nat, lru: map<Key, Entry>, some: set<Key>): int
    requires n <= |order|
  {
    if n == 0 then 0 else SumIn(order, n - 1, lru, some) + if order[n - 1] in some then SizeOf(lru, order[n - 1]) else 0
  }

  ghost predicate Distinct(order: seq<Key>) {
    forall i, j :: 0 <= i < j < |order| ==> order[i] != order[j]
  }

  /** The list and the map hold the same keys, every entry takes up space and the size is
      their total. */
  ghost predicate Sound(s: Shard) {
    && Distinct(s.order)
    && (forall k :: k in s.lru <==> k in s.order)
    && (forall k :: k in s.lru ==> s.lru[k].size >= 1)
    && s.size == Sum(s.order, |s.order|, s.lru)
  }

  // ----- operations

  /** The shard without some keys. */
  function Without(s: Shard, gone: set<Key>): Shard {
    Shard(s.lru - gone, Minus(s.order, |s.order|, gone), s.size - SumIn(s.order, |s.order|, s.lru, gone))
  }

  /** The shard with a new or renewed entry, which is now the most recent. */
  function With(s: Shard, k: Key, e: Entry): Shard {
    var rest := Without(s, {k});
    Shard(rest.lru[k := e], [k] + rest.order, rest.size + e.size)
  }

  lemma {:induction false} MinusHas(order: seq<Key>, n: nat, gone: set<Key>, k: Key)
    requires n <= |order|
    ensures k in Minus(order, n, gone) <==> k !in gone && exists i :: 0 <= i < n && order[i] == k
  {
    if n > 0 {
      MinusHas(order, n - 1, gone, k);
    }
  }

  lemma {:induction false} MinusIsDistinct(order: seq<Key>, n: nat, gone: set<Key>)
    requires n <= |order| && Distinct(order)
    ensures Distinct(Minus(order, n, gone))
  {
    if n > 0 {
      MinusIsDistinct(order, n - 1, gone);
      MinusHas(order, n - 1, gone, order[n - 1]);
    }
  }

  lemma {:induction false} SumOfConcat(a: seq<Key>, b: seq<Key>, j: nat, lru: map<Key, Entry>)
    requires j <= |b|
    ensures Sum(a + b, |a| + j, lru) == Sum(a, |a|, lru) + Sum(b, j, lru)
  {
    if j > 0 {
      SumOfConcat(a, b, j - 1, lru);
    } else {
      SumOfPrefix(a, b, |a|, lru);
    }
  }

  lemma {:induction false} SumOfPrefix(a: seq<Key>, b: seq<Key>, n: nat, lru: map<Key, Entry>)
    requires n <= |a|
    ensures Sum(a + b, n, lru) == Sum(a, n, lru)
  {
    if n > 0 {
      SumOfPrefix(a, b, n - 1, lru);
    }
  }

  lemma {:induction false} SumAgrees(order: seq<Key>, n: nat, lru: map<Key, Entry>, lru': map<Key, Entry>)
    requires n <= |order| && forall i :: 0 <= i < n ==> SizeOf(lru, order[i]) == SizeOf(lru', order[i])
    ensures Sum(order, n, lru) == Sum(order, n, lru')
  {
    if n > 0 {
      SumAgrees(order, n - 1, lru, lru');
    }
  }

  lemma {:induction false} SumOfMinus(order: seq<Key>, n: nat, lru: map<Key, Entry>, gone: set<Key>)
    requires n <= |order|
    ensures var rest := Minus(order, n, gone);
            Sum(rest, |rest|, lru) == Sum(order, n, lru) - SumIn(order, n, lru, gone)
  {
    if n > 0 {
      SumOfMinus(order, n - 1, lru, gone);
      if order[n - 1] !in gone {
        SumOfPrefix(Minus(order, n - 1, gone), [order[n - 1]], |Minus(order, n - 1, gone)|, lru);
      } else {
        assert Minus(order, n, gone) == Minus(order, n - 1, gone);
      }
    }
  }

  lemma WithoutIsSound(s: Shard, gone: set<Key>)
    requires Sound(s)
    ensures Sound(Without(s, gone)) && forall k :: k in Without(s, gone).lru ==> k in s.lru && k !in gone
  {
    var r := Without(s, gone);
    MinusIsDistinct(s.order, |s.order|, gone);
    forall k
      ensures k in r.lru <==> k in r.order
    {
      MinusHas(s.order, |s.order|, gone, k);
    }
    SumOfMinus(s.order, |s.order|, s.lru, gone);
    forall i | 0 <= i < |r.order|
      ensures SizeOf(r.lru, r.order[i]) == SizeOf(s.lru, r.order[i])
    {
      assert r.order[i] in r.order;
    }
    SumAgrees(r.order, |r.order|, r.lru, s.lru);
  }

  // A key put in front adds its size, whatever it was before.
  lemma SumInFront(rest: Shard, k: Key, e: Entry)
    requires k !in rest.order
    ensures Sum([k] + rest.order, |rest.order| + 1, rest.lru[k := e]) ==
            e.size + Sum(rest.order, |rest.order|, rest.lru)
  {
    var lru := rest.lru[k := e];
    forall i | 0 <= i < |rest.order|
      ensures SizeOf(lru, rest.order[i]) == SizeOf(rest.lru, rest.order[i])
    {
      assert rest.order[i] in rest.order;
    }
    SumAgrees(rest.order, |rest.order|, lru, rest.lru);
    SumOfConcat([k], rest.order, |rest.order|, lru);
    assert Sum([k], 1, lru) == e.size;
  }

  lemma FrontIsSound(rest: Shard, k: Key, e: Entry)
    requires Sound(rest) && k !in rest.order && e.size >= 1
    ensures Sound(Shard(rest.lru[k := e], [k] + rest.order, rest.size + e.size))
  {
    SumInFront(rest, k, e);
  }

  lemma WithIsSound(s: Shard, k: Key, e: Entry)
    requires Sound(s) && e.size >= 1
    ensures Sound(With(s, k, e))
  {
    var rest := Without(s, {k});
    WithoutIsSound(s, {k});
    assert k !in rest.lru;
    FrontIsSound(rest, k, e);
  }

  lemma {:induction false} SumInOne(order: seq<Key>, n: nat, lru: map<Key, Entry>, k: Key)
    requires n <= |order| && Distinct(order)
    ensures SumIn(order, n, lru, {k}) == if exists i :: 0 <= i < n && order[i] == k then SizeOf(lru, k) else 0
  {
    if n > 0 {
      SumInOne(order, n - 1, lru, k);
    }
  }

  // The bytes an entry takes up are those its removal frees.
  lemma RemovalFrees(s: Shard, k: Key)
    requires Sound(s)
    ensures Without(s, {k}).size == s.size - SizeOf(s.lru, k)
    ensures k !in s.lru ==> Without(s, {k}) == s
  {
    SumInOne(s.order, |s.order|, s.lru, k);
    assert k in s.order <==> exists i :: 0 <= i < |s.order| && s.order[i] == k;
    if k !in s.lru {
      NothingGone(s.order, |s.order|, {k});
      assert s.lru - {k} == s.lru;
      assert s.order[..|s.order|] == s.order;
    }
  }

  lemma {:induction false} NothingGone(order: seq<Key>, n: nat, gone: set<Key>)
    requires n <= |order| && forall i :: 0 <= i < n ==> order[i] !in gone
    ensures Minus(order, n, gone) == order[..n]
  {
    if n > 0 {
      NothingGone(order, n - 1, gone);
    }
  }

  lemma {:induction false} MinusTwice(order: seq<Key>, n: nat, gone: set<Key>, k: Key)
    requires n <= |order|
    ensures var rest := Minus(order, n, gone); Minus(rest, |rest|, {k}) == Minus(order, n, gone + {k})
  {
    if n > 0 {
      MinusTwice(order, n - 1, gone, k);
      var rest := Minus(order, n - 1, gone);
      if order[n - 1] !in gone {
        MinusOfPrefix(rest, [order[n - 1]], |rest|, {k});
      } else {
        assert Minus(order, n, gone) == rest;
      }
    }
  }

  lemma {:induction false} MinusOfPrefix(a: seq<Key>, b: seq<Key>, n: nat, gone: set<Key>)
    requires n <= |a|
    ensures Minus(a + b, n, gone) == Minus(a, n, gone)
  {
    if n > 0 {
      MinusOfPrefix(a, b, n - 1, gone);
    }
  }

  lemma {:induction false} SumInOneMore(order: seq<Key>, n: nat, lru: map<Key, Entry>, some: set<Key>, k: Key)
    requires n <= |order| && Distinct(order) && k !in some
    ensures SumIn(order, n, lru, some + {k}) ==
            SumIn(order, n, lru, some) + if exists i :: 0 <= i < n && order[i] == k then SizeOf(lru, k) else 0
  {
    if n > 0 {
      SumInOneMore(order, n - 1, lru, some, k);
    }
  }

  // A tracked key leaves the list, and its size the total.
  function Unlisted(s: Shard, k: Key): Shard {
    Shard(s.lru - {k}, Minus(s.order, |s.order|, {k}), s.size - SizeOf(s.lru, k))
  }

  lemma TotalOneMore(s: Shard, some: set<Key>, k: Key)
    requires Sound(s) && k !in some && k in s.lru
    ensures SumIn(s.order, |s.order|, s.lru, some + {k}) == SumIn(s.order, |s.order|, s.lru, some) + s.lru[k].size
  {
    SumInOneMore(s.order, |s.order|, s.lru, some, k);
    assert k in s.order;
  }

  lemma WithoutOneMore(s: Shard, gone: set<Key>, k: Key)
    requires Sound(s) && k !in gone && k in s.lru
    ensures k in Without(s, gone).lru && Without(s, gone + {k}) == Unlisted(Without(s, gone), k)
  {
    TotalOneMore(s, gone, k);
    MinusTwice(s.order, |s.order|, gone, k);
    assert s.lru - (gone + {k}) == (s.lru - gone) - {k};
  }

  lemma LastGone(s: Shard)
    requires Sound(s) && |s.order| > 0
    ensures Minus(s.order, |s.order|, {s.order[|s.order| - 1]}) == s.order[..|s.order| - 1]
  {
    NothingGone(s.order, |s.order| - 1, {s.order[|s.order| - 1]});
  }

  /** The keys of a set in a row, and their total size. */
  ghost predicate Collected(s: Shard, some: set<Key>, keys: seq<Key>, total: int) {
    Distinct(keys) && SetOf(keys, |keys|) == some && total == SumIn(s.order, |s.order|, s.lru, some)
  }

  lemma CollectOne(s: Shard, some: set<Key>, keys: seq<Key>, total: int, k: Key)
    requires Sound(s) && k !in some && k in s.lru && Collected(s, some, keys, total)
    ensures Collected(s, some + {k}, keys + [k], total + s.lru[k].size)
  {
    TotalOneMore(s, some, k);
    OneMoreKey(keys, k);
  }

  function ExpiredKeys(lru: map<Key, Entry>, now: int): set<Key> {
    set k | k in lru && lru[k].expires != 0 && lru[k].expires < now
  }

  // ----- the code

  class LruShard {
    var lru: map<Key, Entry>
    var order: seq<Key>
    var size: int

    constructor ()
      ensures View() == EMPTY_SHARD
    {
      lru, order, size := map[], [], 0;
    }

    ghost function View(): Shard
      reads this
    {
      Shard(lru, order, size)
    }

    method Put(k: Key, bytes: int, expires: int) returns (delta: int)
      requires Sound(View())
      modifies this
      ensures View() == With(old(View()), k, Entry(bytes, expires)) && delta == bytes - SizeOf(old(lru), k)
    {
      RemovalFrees(View(), k);
      assert (lru - {k})[k := Entry(bytes, expires)] == lru[k := Entry(bytes, expires)];
      if k in lru {
        delta := bytes - lru[k].size;
        size := size + delta;
        lru := lru[k := Entry(bytes, expires)];
        order := [k] + Minus(order, |order|, {k});
        return;
      }
      order := [k] + order;
      lru := lru[k := Entry(bytes, expires)];
      size := size + bytes;
      return bytes;
    }

    method Remove(k: Key) returns (freed: int, found: bool)
      requires Sound(View())
      modifies this
      ensures View() == Without(old(View()), {k})
      ensures (found <==> k in old(lru)) && freed == SizeOf(old(lru), k)
    {
      RemovalFrees(View(), k);
      if k in lru {
        freed := lru[k].size;
        size := size - freed;
        order := Minus(order, |order|, {k});
        lru := lru - {k};
        return freed, true;
      }
      return 0, false;
    }

    /** Removes the least recent entry. */
    method Evict() returns (k: Key, freed: int, found: bool)
      requires Sound(View())
      modifies this
      ensures found <==> |old(order)| > 0
      ensures !found ==> View() == old(View())
      ensures found ==> k == old(order)[|old(order)| - 1] && freed == SizeOf(old(lru), k)
      ensures found ==> View() == Without(old(View()), {k})
    {
      if |order| == 0 {
        return "", 0, false;
      }
      k := order[|order| - 1];
      RemovalFrees(View(), k);
      LastGone(View());
      assert k in order;
      freed := lru[k].size;
      size := size - freed;
      order := order[..|order| - 1];
      lru := lru - {k};
      found := true;
    }

    method Unlist(k: Key)
      requires k in lru
      modifies this
      ensures View() == Unlisted(old(View()), k)
    {
      size := size - lru[k].size;
      order := Minus(order, |order|, {k});
      lru := lru - {k};
    }

    /** Removes some tracked keys one by one. */
    method RemoveEach(keys: seq<Key>)
      requires Sound(View()) && Distinct(keys) && SetOf(keys, |keys|) <= lru.Keys
      modifies this
      ensures View() == Without(old(View()), SetOf(keys, |keys|))
    {
      ghost var before := View();
      WithoutNone(before);
      for i := 0 to |keys|
        invariant View() == Without(before, SetOf(keys, i))
      {
        NextKey(keys, i);
        WithoutOneMore(before, SetOf(keys, i), keys[i]);
        Unlist(keys[i]);
      }
    }

    method Collect(now: int) returns (expired: seq<Key>, total: int)
      requires Sound(View())
      ensures Collected(View(), ExpiredKeys(lru, now), expired, total)
    {
      expired, total := [], 0;
      SumInNone(order, |order|, lru);
      ghost var all := ExpiredKeys(lru, now);
      var rest := lru.Keys;
      while rest != {}
        invariant rest <= lru.Keys && Collected(View(), all - rest, expired, total)
        decreases |rest|
      {
        var k :| k in rest;
        LeaveOut(all, rest, k);
        if lru[k].expires != 0 && now > lru[k].expires {
          CollectOne(View(), all - rest, expired, total, k);
          expired, total := expired + [k], total + lru[k].size;
        }
        rest := rest - {k};
      }
      assert all - {} == all;
    }

    method Clear()
      modifies this
      ensures View() == EMPTY_SHARD
    {
      lru, order, size := map[], [], 0;
    }

    method FindExpired(now: int) returns (expired: seq<Key>, total: int)
      requires Sound(View())
      modifies this
      ensures SetOf(expired, |expired|) == ExpiredKeys(old(lru), now)
      ensures View() == Without(old(View()), ExpiredKeys(old(lru), now)) && total == old(size) - size
    {
      expired, total := Collect(now);
      RemoveEach(expired);
    }
  }

  function SetOf(keys: seq<Key>, n: nat): set<Key>
    requires n <= |keys|
  {
    if n == 0 then {} else SetOf(keys, n - 1) + {keys[n - 1]}
  }

  lemma {:induction false} SetOfHas(keys: seq<Key>, n: nat, k: Key)
    requires n <= |keys|
    ensures k in SetOf(keys, n) <==> exists i :: 0 <= i < n && keys[i] == k
  {
    if n > 0 {
      SetOfHas(keys, n - 1, k);
    }
  }

  lemma {:induction false} SetOfPrefix(a: seq<Key>, b: seq<Key>, n: nat)
    requires n <= |a|
    ensures SetOf(a + b, n) == SetOf(a, n)
  {
    if n > 0 {
      SetOfPrefix(a, b, n - 1);
    }
  }

  lemma NextKey(keys: seq<Key>, i: nat)
    requires i < |keys| && Distinct(keys)
    ensures keys[i] !in SetOf(keys, i) && keys[i] in SetOf(keys, |keys|) &&
            SetOf(keys, i + 1) == SetOf(keys, i) + {keys[i]}
  {
    SetOfHas(keys, i, keys[i]);
    SetOfHas(keys, |keys|, keys[i]);
  }

  lemma OneMoreKey(keys: seq<Key>, k: Key)
    requires Distinct(keys) && k !in SetOf(keys, |keys|)
    ensures Distinct(keys + [k]) && SetOf(keys + [k], |keys| + 1) == SetOf(keys, |keys|) + {k}
  {
    SetOfHas(keys, |keys|, k);
    SetOfPrefix(keys, [k], |keys|);
  }

  lemma {:induction false} SetOfSize(keys: seq<Key>, n: nat)
    requires n <= |keys| && Distinct(keys)
    ensures |SetOf(keys, n)| == n
  {
    if n > 0 {
      SetOfSize(keys, n - 1);
      SetOfHas(keys, n - 1, keys[n - 1]);
    }
  }

  lemma WithoutNone(s: Shard)
    ensures Without(s, {}) == s
  {
    NothingGone(s.order, |s.order|, {});
    assert s.lru - {} == s.lru && s.order[..|s.order|] == s.order;
    SumInNone(s.order, |s.order|, s.lru);
  }

  lemma {:induction false} SumInNone(order: seq<Key>, n: nat, lru: map<Key, Entry>)
    requires n <= |order|
    ensures SumIn(order, n, lru, {}) == 0
  {
    if n > 0 {
      SumInNone(order, n - 1, lru);
    }
  }
}
