/** What every operation of the disk cache keeps: the running size accounts for the tracked
    entries, exactly so until a scoped purge. */
module DiskAccounting {
  import opened Basics
  import opened DiskShard
  import opened DiskSpace

  /** Holds in every run: the running size covers the tracked entries. */
  ghost predicate Sane(c: Cache) {
    && Sharded(c.shards) && Drift(c) >= 0
    && forall k :: k in c.metas ==> IsKey(k) && c.metas[k] >= 1
  }

  /** Every meta file belongs to a tracked entry that accounts for it. */
  ghost predicate Covered(c: Cache)
    requires |c.shards| == SHARDS
  {
    forall k :: k in c.metas ==> Tracked(c.shards, k) && c.metas[k] <= c.shards[ShardOf(k)].lru[k].size
  }

  /** Holds in every run without scoped purges. */
  ghost predicate Exact(c: Cache, max: int) {
    Sane(c) && Drift(c) == 0 && Covered(c) && (max > 0 ==> c.current <= max)
  }

  // ----- shards

  ghost predicate Own(s: Shard, i: nat) {
    Sound(s) && forall k :: k in s.lru ==> IsKey(k) && ShardOf(k) == i
  }

  lemma ReplacedIsSharded(shards: seq<Shard>, i: nat, s: Shard)
    requires Sharded(shards) && i < SHARDS && Own(s, i)
    ensures Sharded(shards[i := s])
  {
  }

  lemma WithoutIsOwn(shards: seq<Shard>, i: nat, gone: set<Key>)
    requires Sharded(shards) && i < SHARDS
    ensures Own(Without(shards[i], gone), i)
  {
    WithoutIsSound(shards[i], gone);
  }

  lemma {:induction false} SumIsPositive(s: Shard, n: nat)
    requires Sound(s) && n <= |s.order|
    ensures Sum(s.order, n, s.lru) >= n
  {
    if n > 0 {
      SumIsPositive(s, n - 1);
      assert s.order[n - 1] in s.order;
    }
  }

  lemma {:induction false} TotalIsPositive(shards: seq<Shard>, n: nat)
    requires Sharded(shards) && n <= SHARDS
    ensures Total(shards, n) >= 0
    ensures (forall i :: 0 <= i < n ==> |shards[i].order| == 0) ==> Total(shards, n) == 0
  {
    if n > 0 {
      TotalIsPositive(shards, n - 1);
      SumIsPositive(shards[n - 1], |shards[n - 1].order|);
    }
  }

  // ----- single changes

  lemma TouchIsSane(c: Cache, k: Key, bytes: int, expires: int)
    requires Sane(c) && IsKey(k) && bytes >= 1
    ensures Sane(Touched(c, k, bytes, expires)) && Drift(Touched(c, k, bytes, expires)) == Drift(c)
  {
    var i, s := ShardOf(k), c.shards[ShardOf(k)];
    var r := With(s, k, Entry(bytes, expires));
    WithIsSound(s, k, Entry(bytes, expires));
    ReplacedIsSharded(c.shards, i, r);
    ReplacedDrift(c, i, r);
  }

  lemma TouchedEntries(c: Cache, k: Key, bytes: int, expires: int, j: Key)
    requires Sharded(c.shards) && IsKey(k) && IsKey(j)
    ensures SizeOf(Touched(c, k, bytes, expires).shards[ShardOf(j)].lru, j) ==
            if j == k then bytes else SizeOf(c.shards[ShardOf(j)].lru, j)
    ensures Tracked(Touched(c, k, bytes, expires).shards, j) <==> j == k || Tracked(c.shards, j)
    ensures Touched(c, k, bytes, expires).current == c.current + bytes - SizeOf(c.shards[ShardOf(k)].lru, k)
  {
    RemovalFrees(c.shards[ShardOf(k)], k);
  }

  lemma DropIsSane(c: Cache, i: nat, gone: set<Key>, metas: map<Key, int>, bodies: set<Key>)
    requires Sane(c) && i < SHARDS && metas.Keys <= c.metas.Keys && forall k :: k in metas ==> metas[k] == c.metas[k]
    ensures var r := Replaced(c, i, Without(c.shards[i], gone)).(metas := metas, bodies := bodies);
            Sane(r) && Drift(r) == Drift(c)
  {
    WithoutIsOwn(c.shards, i, gone);
    ReplacedIsSharded(c.shards, i, Without(c.shards[i], gone));
    ReplacedDrift(c, i, Without(c.shards[i], gone));
  }

  lemma {:induction false} SumInIsEnough(s: Shard, n: nat, some: set<Key>)
    requires Sound(s) && n <= |s.order|
    ensures SumIn(s.order, n, s.lru, some) >= |SetOf(s.order, n) * some|
  {
    if n > 0 {
      SumInIsEnough(s, n - 1, some);
      var k := s.order[n - 1];
      assert k in s.order;
      if k in some {
        assert SetOf(s.order, n) * some == SetOf(s.order, n - 1) * some + {k};
      } else {
        assert SetOf(s.order, n) * some == SetOf(s.order, n - 1) * some;
      }
    }
  }

  lemma DropIsExact(c: Cache, max: int, i: nat, gone: set<Key>, bodies: set<Key>)
    requires Exact(c, max) && i < SHARDS
    ensures Exact(Replaced(c, i, Without(c.shards[i], gone)).(metas := c.metas - gone, bodies := bodies), max)
  {
    var r := Replaced(c, i, Without(c.shards[i], gone)).(metas := c.metas - gone, bodies := bodies);
    DropIsSane(c, i, gone, c.metas - gone, bodies);
    SumInIsEnough(c.shards[i], |c.shards[i].order|, gone);
    forall k | k in r.metas
      ensures Tracked(r.shards, k) && r.metas[k] <= r.shards[ShardOf(k)].lru[k].size
    {
      assert Tracked(c.shards, k);
    }
  }

  // ----- making room

  lemma EvictionIsSane(c: Cache)
    requires Sane(c)
    ensures Sane(Evicted(c)) && Drift(Evicted(c)) == Drift(c)
  {
    var i := FirstFull(c.shards, 0);
    if i.Some? {
      var k := Victim(c).value;
      DropIsSane(c, i.value, {k}, c.metas - {k}, c.bodies - {k});
    }
  }

  lemma EvictionIsExact(c: Cache, max: int)
    requires Exact(c, max)
    ensures Exact(Evicted(c), max)
  {
    var i := FirstFull(c.shards, 0);
    if i.Some? {
      var k := Victim(c).value;
      DropIsExact(c, max, i.value, {k}, c.bodies - {k});
    }
  }

  /** Making room causes no drift, and it succeeds exactly if the bytes fit beside the drift
      alone, that is, under exact accounting, if they fit at all. */
  lemma {:induction false} RoomIff(c: Cache, bytes: int, max: int)
    requires Sane(c)
    ensures var f := Freed(c, bytes, max);
            && Sane(f) && Drift(f) == Drift(c)
            && (Fits(f, bytes, max) <==> max == 0 || Drift(c) + bytes <= max)
    decreases Count(c.shards, |c.shards|)
  {
    TotalIsPositive(c.shards, SHARDS);
    if !Fits(c, bytes, max) && Victim(c).Some? {
      EvictionShrinks(c);
      EvictionIsSane(c);
      RoomIff(Evicted(c), bytes, max);
    }
  }

  lemma {:induction false} RoomIsExact(c: Cache, bytes: int, max: int)
    requires Exact(c, max)
    ensures Exact(Freed(c, bytes, max), max)
    decreases Count(c.shards, |c.shards|)
  {
    if !Fits(c, bytes, max) && Victim(c).Some? {
      EvictionShrinks(c);
      EvictionIsExact(c, max);
      RoomIsExact(Evicted(c), bytes, max);
    }
  }

  /** The cache after n evictions, each of the least recent entry of the lowest shard. */
  function EvictedTimes(c: Cache, n: nat): Cache {
    if n == 0 then c else Evicted(EvictedTimes(c, n - 1))
  }

  lemma {:induction false} EvictFirst(c: Cache, n: nat)
    ensures EvictedTimes(Evicted(c), n) == EvictedTimes(c, n + 1)
  {
    if n > 0 {
      EvictFirst(c, n - 1);
    }
  }

  /** Making room evicts no more than needed: n entries go, and with fewer gone the bytes
      would not have fitted; if they do not fit in the end nothing is left. */
  lemma {:induction false} RoomIsMinimal(c: Cache, bytes: int, max: int) returns (n: nat)
    ensures Freed(c, bytes, max) == EvictedTimes(c, n)
    ensures forall j: nat :: j < n ==> !Fits(EvictedTimes(c, j), bytes, max) && Victim(EvictedTimes(c, j)).Some?
    ensures !Fits(Freed(c, bytes, max), bytes, max) ==> Victim(Freed(c, bytes, max)).None?
    decreases Count(c.shards, |c.shards|)
  {
    n := 0;
    if !Fits(c, bytes, max) && Victim(c).Some? {
      EvictionShrinks(c);
      var m := RoomIsMinimal(Evicted(c), bytes, max);
      n := m + 1;
      EvictFirst(c, m);
      forall j: nat | j < n
        ensures !Fits(EvictedTimes(c, j), bytes, max) && Victim(EvictedTimes(c, j)).Some?
      {
        if j > 0 {
          EvictFirst(c, j - 1);
        }
      }
    }
  }

  // ----- operations

  lemma WrittenIsSane(f: Cache, k: Key, meta: int, bytes: int, expires: int)
    requires Sane(f) && IsKey(k) && 1 <= meta <= bytes
    ensures Sane(Written(f, k, meta, bytes, expires)) && Drift(Written(f, k, meta, bytes, expires)) == Drift(f)
  {
    TouchIsSane(f.(metas := f.metas[k := meta], bodies := f.bodies + {k}), k, bytes, expires);
  }

  lemma PlacedIsSane(
      f: Cache, max: int, k: Key, meta: int, bytes: int, metaWritten: bool, bodyWritten: bool, expires: int)
    requires Sane(f) && IsKey(k) && 1 <= meta <= bytes
    ensures var r := Placed(f, max, k, meta, bytes, metaWritten, bodyWritten, expires);
            Sane(r) && Drift(r) == Drift(f)
  {
    WrittenIsSane(f, k, meta, bytes, expires);
  }

  lemma StoredIsSane(c: Cache, max: int, k: Key, r: Response, expires: int)
    requires Sane(c) && IsKey(k) && WellEncoded(r)
    ensures Sane(Stored(c, max, k, r, expires)) && Drift(Stored(c, max, k, r, expires)) == Drift(c)
  {
    if r.cacheable && r.body > 0 && r.meta.Some? {
      var bytes := r.meta.value + r.body;
      RoomIff(c, bytes, max);
      PlacedIsSane(Freed(c, bytes, max), max, k, r.meta.value, bytes, r.metaWritten, r.bodyWritten, expires);
    }
  }

  lemma TouchIsExact(c: Cache, max: int, k: Key, bytes: int, expires: int)
    requires Sane(c) && Drift(c) == 0 && IsKey(k) && bytes >= 1 && (k in c.metas ==> c.metas[k] <= bytes)
    requires max > 0 ==> c.current + bytes - SizeOf(c.shards[ShardOf(k)].lru, k) <= max
    requires forall j :: j in c.metas && j != k ==>
               Tracked(c.shards, j) && c.metas[j] <= c.shards[ShardOf(j)].lru[j].size
    ensures Exact(Touched(c, k, bytes, expires), max)
  {
    var t := Touched(c, k, bytes, expires);
    TouchIsSane(c, k, bytes, expires);
    TouchedEntries(c, k, bytes, expires, k);
    forall j | j in t.metas
      ensures Tracked(t.shards, j) && t.metas[j] <= t.shards[ShardOf(j)].lru[j].size
    {
      TouchedEntries(c, k, bytes, expires, j);
    }
  }

  lemma WrittenIsExact(f: Cache, max: int, k: Key, meta: int, bytes: int, expires: int)
    requires Exact(f, max) && IsKey(k) && 1 <= meta <= bytes && Fits(f, bytes, max)
    ensures Exact(Written(f, k, meta, bytes, expires), max)
  {
    assert k in f.shards[ShardOf(k)].lru ==> f.shards[ShardOf(k)].lru[k].size >= 1;
    TouchIsExact(f.(metas := f.metas[k := meta], bodies := f.bodies + {k}), max, k, bytes, expires);
  }

  lemma PlacedIsExact(
      f: Cache, max: int, k: Key, meta: int, bytes: int, metaWritten: bool, bodyWritten: bool, expires: int)
    requires Exact(f, max) && IsKey(k) && 1 <= meta <= bytes
    ensures Exact(Placed(f, max, k, meta, bytes, metaWritten, bodyWritten, expires), max)
  {
    if Fits(f, bytes, max) {
      WrittenIsExact(f, max, k, meta, bytes, expires);
    }
  }

  lemma StoredIsExact(c: Cache, max: int, k: Key, r: Response, expires: int)
    requires Exact(c, max) && IsKey(k) && WellEncoded(r)
    ensures Exact(Stored(c, max, k, r, expires), max)
  {
    if r.cacheable && r.body > 0 && r.meta.Some? {
      var bytes := r.meta.value + r.body;
      RoomIsExact(c, bytes, max);
      PlacedIsExact(Freed(c, bytes, max), max, k, r.meta.value, bytes, r.metaWritten, r.bodyWritten, expires);
    }
  }

  lemma ServedIsSane(c: Cache, k: Key, stale: bool, inFull: bool, expires: int)
    requires Sane(c) && IsKey(k)
    ensures Sane(Served(c, k, stale, inFull, expires)) && Drift(Served(c, k, stale, inFull, expires)) == Drift(c)
  {
    if k in c.metas && stale {
      DropIsSane(c, ShardOf(k), {k}, c.metas - {k}, c.bodies - {k});
    } else if k in c.metas && k in c.bodies && inFull {
      TouchIsSane(c, k, c.metas[k], expires);
    }
  }

  lemma ServedIsExact(c: Cache, max: int, k: Key, stale: bool, inFull: bool, expires: int)
    requires Exact(c, max) && IsKey(k)
    ensures Exact(Served(c, k, stale, inFull, expires), max)
  {
    if k in c.metas && stale {
      DropIsExact(c, max, ShardOf(k), {k}, c.bodies - {k});
    } else if k in c.metas && k in c.bodies && inFull {
      TouchIsExact(c, max, k, c.metas[k], expires);
    }
  }

  lemma {:induction false} SweptIsSane(c: Cache, n: nat, now: int)
    requires Sane(c) && n <= SHARDS
    ensures Sane(Swept(c, n, now)) && Drift(Swept(c, n, now)) == Drift(c)
  {
    if n > 0 {
      SweptIsSane(c, n - 1, now);
      var b := Swept(c, n - 1, now);
      var gone := ExpiredKeys(b.shards[n - 1].lru, now);
      DropIsSane(b, n - 1, gone, b.metas - gone, b.bodies);
    }
  }

  lemma {:induction false} SweptIsExact(c: Cache, max: int, n: nat, now: int)
    requires Exact(c, max) && n <= SHARDS
    ensures Exact(Swept(c, n, now), max)
  {
    if n > 0 {
      SweptIsExact(c, max, n - 1, now);
      var b := Swept(c, n - 1, now);
      DropIsExact(b, max, n - 1, ExpiredKeys(b.shards[n - 1].lru, now), b.bodies);
    }
  }

  /** A scoped purge adds to the drift the bytes of the entries it removes, less one each. */
  function PurgeDrift(c: Cache, n: nat, scope: Key -> bool): int
    requires n <= |c.shards|
  {
    if n == 0 then 0
    else
      var b := Purged(c, n - 1, scope);
      var s, gone := b.shards[n - 1], InScope(b, n - 1, scope);
      PurgeDrift(c, n - 1, scope) + SumIn(s.order, |s.order|, s.lru, gone) - |gone|
  }

  lemma {:induction false} PurgedIsSane(c: Cache, n: nat, scope: Key -> bool)
    requires Sane(c) && n <= SHARDS
    ensures Sane(Purged(c, n, scope)) && PurgeDrift(c, n, scope) >= 0
    ensures Drift(Purged(c, n, scope)) == Drift(c) + PurgeDrift(c, n, scope)
  {
    if n > 0 {
      PurgedIsSane(c, n - 1, scope);
      var b := Purged(c, n - 1, scope);
      var s, gone := b.shards[n - 1], InScope(b, n - 1, scope);
      DropIsSane(b, n - 1, gone, b.metas, b.bodies);
      TotalReplaced(b.shards, n - 1, Without(s, gone), SHARDS);
      SumInIsEnough(s, |s.order|, gone);
      AllInOrder(s, gone);
    }
  }

  ghost predicate AllOnes(s: Shard, some: set<Key>) {
    forall k :: k in some ==> SizeOf(s.lru, k) == 1
  }

  lemma NextIn(order: seq<Key>, n: nat, some: set<Key>)
    requires n < |order| && Distinct(order)
    ensures var k, before := order[n], SetOf(order, n) * some;
            && SetOf(order, n + 1) * some == (if k in some then before + {k} else before)
            && |SetOf(order, n + 1) * some| == |before| + if k in some then 1 else 0
  {
    var k, before := order[n], SetOf(order, n) * some;
    SetOfHas(order, n, k);
    if k in some {
      assert SetOf(order, n + 1) * some == before + {k};
    } else {
      assert SetOf(order, n + 1) * some == before;
    }
  }

  ghost predicate OnesUpTo(s: Shard, n: nat, some: set<Key>)
    requires n <= |s.order|
  {
    n > 0 ==> OnesUpTo(s, n - 1, some) && (s.order[n - 1] in some ==> SizeOf(s.lru, s.order[n - 1]) == 1)
  }

  lemma {:induction false} OnesUpToAll(s: Shard, n: nat, some: set<Key>)
    requires n <= |s.order| && Distinct(s.order)
    ensures OnesUpTo(s, n, some) <==> AllOnes(s, SetOf(s.order, n) * some)
  {
    if n > 0 {
      OnesUpToAll(s, n - 1, some);
      NextIn(s.order, n - 1, some);
    }
  }

  lemma TakesSpace(s: Shard, i: nat)
    requires Sound(s) && i < |s.order|
    ensures SizeOf(s.lru, s.order[i]) >= 1
  {
    assert s.order[i] in s.order;
  }

  lemma {:induction false} SumInIsTight(s: Shard, n: nat, some: set<Key>)
    requires Sound(s) && n <= |s.order|
    ensures SumIn(s.order, n, s.lru, some) == |SetOf(s.order, n) * some| <==> OnesUpTo(s, n, some)
  {
    if n > 0 {
      SumInIsTight(s, n - 1, some);
      SumInIsEnough(s, n - 1, some);
      NextIn(s.order, n - 1, some);
      TakesSpace(s, n - 1);
    }
  }

  lemma ShardDriftIff(s: Shard, gone: set<Key>)
    requires Sound(s) && gone <= s.lru.Keys
    ensures SumIn(s.order, |s.order|, s.lru, gone) >= |gone|
    ensures SumIn(s.order, |s.order|, s.lru, gone) == |gone| <==> AllOnes(s, gone)
  {
    AllInOrder(s, gone);
    OnesUpToAll(s, |s.order|, gone);
    SumInIsTight(s, |s.order|, gone);
    SumInIsEnough(s, |s.order|, gone);
  }

  lemma OneShardDrift(c: Cache, n: nat, scope: Key -> bool)
    requires Sane(c) && n < SHARDS
    ensures var more := PurgeDrift(c, n + 1, scope) - PurgeDrift(c, n, scope);
            more >= 0 && (more == 0 <==> AllOnes(c.shards[n], InScope(c, n, scope)))
  {
    var gone := InScope(c, n, scope);
    assert InScope(Purged(c, n, scope), n, scope) == gone;
    ShardDriftIff(c.shards[n], gone);
  }

  ghost predicate GrowsUnless(total: nat -> int, still: nat -> bool, i: nat) {
    total(i) <= total(i + 1) && (total(i) == total(i + 1) <==> still(i))
  }

  lemma {:induction false} StaysZeroIff(total: nat -> int, still: nat -> bool, n: nat)
    requires total(0) == 0 && forall i :: 0 <= i < n ==> GrowsUnless(total, still, i)
    ensures total(n) >= 0 && (total(n) == 0 <==> forall i :: 0 <= i < n ==> still(i))
  {
    if n > 0 {
      StaysZeroIff(total, still, n - 1);
      assert GrowsUnless(total, still, n - 1);
    }
  }

  lemma PurgeDriftIff(c: Cache, scope: Key -> bool)
    requires Sane(c)
    ensures PurgeDrift(c, SHARDS, scope) == 0 <==>
            forall i :: 0 <= i < SHARDS ==> AllOnes(c.shards[i], InScope(c, i, scope))
  {
    var total := (n: nat) => if n <= SHARDS then PurgeDrift(c, n, scope) else 0;
    var still := (i: nat) => i < SHARDS && AllOnes(c.shards[i], InScope(c, i, scope));
    forall i | 0 <= i < SHARDS
      ensures GrowsUnless(total, still, i)
    {
      OneShardDrift(c, i, scope);
    }
    StaysZeroIff(total, still, SHARDS);
    assert forall i :: 0 <= i < SHARDS ==> (still(i) <==> AllOnes(c.shards[i], InScope(c, i, scope)));
  }

  /** A scoped purge leaves the accounting as it was exactly if every entry it removes has a
      size of one byte. */
  lemma ScopedPurgeIff(c: Cache, scope: Key -> bool)
    requires Sane(c)
    ensures Drift(Purged(c, SHARDS, scope)) == Drift(c) <==>
            forall i :: 0 <= i < SHARDS ==> AllOnes(c.shards[i], InScope(c, i, scope))
  {
    PurgedIsSane(c, SHARDS, scope);
    PurgeDriftIff(c, scope);
  }

  lemma AllInOrder(s: Shard, some: set<Key>)
    requires Sound(s) && some <= s.lru.Keys
    ensures SetOf(s.order, |s.order|) * some == some
  {
    forall k | k in some
      ensures k in SetOf(s.order, |s.order|)
    {
      SetOfHas(s.order, |s.order|, k);
      assert k in s.order;
    }
  }

  lemma PurgedAllIsSane(c: Cache)
    requires Sane(c)
    ensures Sane(PurgedAll(c)) && Drift(PurgedAll(c)) == 0
  {
    TotalIsPositive(PurgedAll(c).shards, SHARDS);
  }

  lemma {:induction false} TrackedIsListed(shards: seq<Shard>, n: nat, k: Key)
    requires Sharded(shards) && n <= SHARDS && Tracked(shards, k) && ShardOf(k) < n
    ensures k in TrackedKeys(shards, n)
  {
    if ShardOf(k) < n - 1 {
      TrackedIsListed(shards, n - 1, k);
    }
  }

  lemma PurgedAllIsExact(c: Cache, max: int)
    requires Exact(c, max)
    ensures Exact(PurgedAll(c), max) && PurgedAll(c).metas == map[]
  {
    PurgedAllIsSane(c);
    forall k | k in c.metas
      ensures k in TrackedKeys(c.shards, SHARDS)
    {
      TrackedIsListed(c.shards, SHARDS, k);
    }
  }

  // ----- runs

  datatype Step =
    | Store(key: Key, response: Response, now: nat)
    | Serve(key: Key, stale: bool, inFull: bool, now: nat)
    | Sweep(now: nat)
    | PurgeScope(scope: Key -> bool)
    | PurgeAll

  ghost predicate Legal(step: Step) {
    match step
    case Store(k, r, _) => IsKey(k) && WellEncoded(r)
    case Serve(k, _, _, _) => IsKey(k)
    case _ => true
  }

  function Expiry(maxAge: int, now: nat): int {
    if maxAge > 0 then now + maxAge else 0
  }

  ghost function Do(c: Cache, max: int, maxAge: int, step: Step): Cache
    requires |c.shards| == SHARDS && Legal(step)
  {
    match step
    case Store(k, r, now) => Stored(c, max, k, r, Expiry(maxAge, now))
    case Serve(k, stale, inFull, now) => Served(c, k, stale, inFull, Expiry(maxAge, now))
    case Sweep(now) => Swept(c, SHARDS, now)
    case PurgeScope(scope) => Purged(c, SHARDS, scope)
    case PurgeAll => PurgedAll(c)
  }

  function EmptyCache(): (c: Cache)
    ensures |c.shards| == SHARDS
  {
    Cache(seq(SHARDS, i => EMPTY_SHARD), 0, map[], {})
  }

  lemma EmptyIsExact(max: int)
    ensures Exact(EmptyCache(), max)
  {
    TotalIsPositive(EmptyCache().shards, SHARDS);
  }

  ghost predicate StepsTo(run: seq<Cache>, steps: seq<Step>, max: int, maxAge: int, k: nat)
    requires k < |steps| < |run|
  {
    Legal(steps[k]) && |run[k].shards| == SHARDS && run[k + 1] == Do(run[k], max, maxAge, steps[k])
  }

  ghost predicate Run(run: seq<Cache>, steps: seq<Step>, max: int, maxAge: int) {
    && |run| == |steps| + 1 && run[0] == EmptyCache()
    && forall k :: 0 <= k < |steps| ==> StepsTo(run, steps, max, maxAge, k)
  }

  /** The drift that scoped purges leave behind, until a full purge. */
  ghost function Owed(run: seq<Cache>, steps: seq<Step>, k: nat): int
    requires k <= |steps| < |run| && forall j :: 0 <= j < |steps| ==> |run[j].shards| == SHARDS
  {
    if k == 0 || steps[k - 1].PurgeAll? then 0
    else if steps[k - 1].PurgeScope? then Owed(run, steps, k - 1) + PurgeDrift(run[k - 1], SHARDS, steps[k - 1].scope)
    else Owed(run, steps, k - 1)
  }

  lemma StepIsSane(c: Cache, max: int, maxAge: int, step: Step)
    requires Sane(c) && Legal(step)
    ensures Sane(Do(c, max, maxAge, step))
    ensures Drift(Do(c, max, maxAge, step)) ==
            if step.PurgeAll? then 0
            else if step.PurgeScope? then Drift(c) + PurgeDrift(c, SHARDS, step.scope)
            else Drift(c)
  {
    match step
    case Store(k, r, now) => StoredIsSane(c, max, k, r, Expiry(maxAge, now));
    case Serve(k, stale, inFull, now) => ServedIsSane(c, k, stale, inFull, Expiry(maxAge, now));
    case Sweep(now) => SweptIsSane(c, SHARDS, now);
    case PurgeScope(scope) => PurgedIsSane(c, SHARDS, scope);
    case PurgeAll => PurgedAllIsSane(c);
  }

  lemma StepIsExact(c: Cache, max: int, maxAge: int, step: Step)
    requires Exact(c, max) && Legal(step) && !step.PurgeScope?
    ensures Exact(Do(c, max, maxAge, step), max)
  {
    match step
    case Store(k, r, now) => StoredIsExact(c, max, k, r, Expiry(maxAge, now));
    case Serve(k, stale, inFull, now) => ServedIsExact(c, max, k, stale, inFull, Expiry(maxAge, now));
    case Sweep(now) => SweptIsExact(c, max, SHARDS, now);
    case PurgeAll => PurgedAllIsExact(c, max);
  }

  /** In every run the shards are sound and the running size is the total of the tracked
      entries plus exactly what scoped purges left behind, which is never negative. */
  lemma {:induction false} RunIsSane(run: seq<Cache>, steps: seq<Step>, max: int, maxAge: int, k: nat)
    requires Run(run, steps, max, maxAge) && k < |run|
    ensures forall j :: 0 <= j < |steps| ==> |run[j].shards| == SHARDS
    ensures Sane(run[k]) && Drift(run[k]) == Owed(run, steps, k)
  {
    forall j | 0 <= j < |steps|
      ensures |run[j].shards| == SHARDS
    {
      assert StepsTo(run, steps, max, maxAge, j);
    }
    if k == 0 {
      EmptyIsExact(max);
    } else {
      RunIsSane(run, steps, max, maxAge, k - 1);
      assert StepsTo(run, steps, max, maxAge, k - 1);
      StepIsSane(run[k - 1], max, maxAge, steps[k - 1]);
    }
  }

  /** In every run without scoped purges the running size is exact and, with a limit, within
      it, and every meta file belongs to a tracked entry. */
  lemma {:induction false} RunIsExact(run: seq<Cache>, steps: seq<Step>, max: int, maxAge: int, k: nat)
    requires Run(run, steps, max, maxAge) && k < |run| && forall j :: 0 <= j < k ==> !steps[j].PurgeScope?
    ensures Exact(run[k], max)
  {
    if k == 0 {
      EmptyIsExact(max);
    } else {
      RunIsExact(run, steps, max, maxAge, k - 1);
      assert StepsTo(run, steps, max, maxAge, k - 1);
      StepIsExact(run[k - 1], max, maxAge, steps[k - 1]);
    }
  }
}
