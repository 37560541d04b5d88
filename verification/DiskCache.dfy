/** The disk cache itself: thirty-two shards behind one running size. Each method is proved to
    do to the cache what the function of the same purpose says. */
module DiskCache {
  import opened Basics
  import opened DiskShard
  import opened DiskSpace
  import opened DiskAccounting

  class DiskCache {
    const shards: seq<LruShard>
    const maxSize: int
    const maxAge: int
    var currentSize: int
    var metas: map<Key, int>
    var bodies: set<Key>

    /** What the shards hold. */
    ghost var held: seq<Shard>

    constructor (maxSize: int, maxAge: int)
      ensures Valid() && View() == EmptyCache() && this.maxSize == maxSize && this.maxAge == maxAge
      ensures forall i :: 0 <= i < |shards| ==> fresh(shards[i])
    {
      var ss: seq<LruShard> := [];
      for i := 0 to SHARDS
        invariant |ss| == i && forall j :: 0 <= j < i ==> fresh(ss[j]) && ss[j].View() == EMPTY_SHARD
        invariant forall j, k :: 0 <= j < k < i ==> ss[j] != ss[k]
      {
        var s := new LruShard();
        ss := ss + [s];
      }
      shards := ss;
      this.maxSize, this.maxAge := maxSize, maxAge;
      currentSize, metas, bodies, held := 0, map[], {}, EmptyCache().shards;
      new;
      EmptyIsExact(0);
    }

    /** The shards are objects of their own and hold what `held` says. */
    ghost predicate Tied()
      reads this, shards
    {
      && |shards| == |held| == SHARDS
      && (forall i, j :: 0 <= i < j < SHARDS ==> shards[i] != shards[j])
      && forall i :: 0 <= i < SHARDS ==> shards[i].View() == held[i]
    }

    ghost function View(): Cache
      reads this
    {
      Cache(held, currentSize, metas, bodies)
    }

    ghost predicate Valid()
      reads this, shards
    {
      Tied() && Sane(View())
    }

    method Touch(k: Key, bytes: int, now: nat)
      requires Valid() && IsKey(k)
      modifies this, shards
      ensures Tied() && View() == Touched(old(View()), k, bytes, Expiry(maxAge, now))
    {
      var expires := if maxAge > 0 then now + maxAge else 0;
      var i := ShardOf(k);
      SoundShard(View(), i);
      RemovalFrees(held[i], k);
      var delta := shards[i].Put(k, bytes, expires);
      held := held[i := shards[i].View()];
      currentSize := currentSize + delta;
    }

    method Remove(k: Key)
      requires Valid() && IsKey(k)
      modifies this, shards
      ensures Tied() && View() == Forgotten(old(View()), k)
    {
      var i := ShardOf(k);
      SoundShard(View(), i);
      RemovalFrees(held[i], k);
      var freed, found := shards[i].Remove(k);
      held := held[i := shards[i].View()];
      if found {
        currentSize := currentSize - freed;
      }
    }

    method EvictFrom(i: nat) returns (ok: bool)
      requires Tied() && i < SHARDS && Sound(held[i])
      modifies this, shards
      ensures Tied() && (ok <==> |old(held)[i].order| > 0)
      ensures View() == if ok then EvictedFrom(old(View()), i) else old(View())
    {
      var k, freed, found := shards[i].Evict();
      RemovalFrees(held[i], k);
      held := held[i := shards[i].View()];
      if found {
        currentSize := currentSize - freed;
        metas, bodies := metas - {k}, bodies - {k};
      }
      return found;
    }

    method Evict() returns (ok: bool)
      requires Valid()
      modifies this, shards
      ensures Tied() && View() == Evicted(old(View())) && (ok <==> Victim(old(View())).Some?)
    {
      ghost var before := View();
      for i := 0 to SHARDS
        invariant Tied() && View() == before && FirstFull(before.shards, 0) == FirstFull(before.shards, i)
      {
        SoundShard(before, i);
        ok := EvictFrom(i);
        if ok {
          return;
        }
      }
      return false;
    }

    method EnsureSpace(bytes: int) returns (ok: bool)
      requires Valid()
      modifies this, shards
      ensures Valid() && View() == Freed(old(View()), bytes, maxSize)
      ensures ok <==> Fits(View(), bytes, maxSize)
      ensures ok <==> maxSize == 0 || Drift(old(View())) + bytes <= maxSize
    {
      RoomIff(View(), bytes, maxSize);
      if maxSize == 0 {
        return true;
      }
      while currentSize + bytes > maxSize
        invariant Valid() && Freed(View(), bytes, maxSize) == Freed(old(View()), bytes, maxSize)
        decreases Count(View().shards, SHARDS)
      {
        ghost var before := View();
        EvictionIsSane(before);
        if Victim(before).Some? {
          EvictionShrinks(before);
        }
        var more := Evict();
        if !more {
          return false;
        }
      }
      return true;
    }

    method WriteFiles(k: Key, meta: int, bytes: int, metaWritten: bool, bodyWritten: bool, now: nat)
        returns (ok: bool)
      requires Valid() && IsKey(k) && 1 <= meta <= bytes && Fits(View(), bytes, maxSize)
      modifies this, shards
      ensures Tied() && (ok <==> metaWritten && bodyWritten)
      ensures View() == Placed(old(View()), maxSize, k, meta, bytes, metaWritten, bodyWritten, Expiry(maxAge, now))
    {
      if !metaWritten {
        return false;
      }
      metas := metas[k := meta];
      if !bodyWritten {
        metas := metas - {k};
        assert metas == old(metas) - {k};
        return false;
      }
      bodies := bodies + {k};
      Touch(k, bytes, now);
      return true;
    }

    method Place(k: Key, meta: int, bytes: int, metaWritten: bool, bodyWritten: bool, now: nat)
        returns (ok: bool)
      requires Valid() && IsKey(k) && 1 <= meta <= bytes
      modifies this, shards
      ensures Tied() && |Freed(old(View()), bytes, maxSize).shards| == SHARDS
      ensures View() == Placed(Freed(old(View()), bytes, maxSize), maxSize, k, meta, bytes, metaWritten, bodyWritten,
                               Expiry(maxAge, now))
      ensures ok <==> metaWritten && bodyWritten && (maxSize == 0 || Drift(old(View())) + bytes <= maxSize)
    {
      ok := EnsureSpace(bytes);
      if ok {
        ok := WriteFiles(k, meta, bytes, metaWritten, bodyWritten, now);
      }
    }

    /** Stores a response; ok is false only on an error. */
    method SetResponse(k: Key, r: Response, now: nat) returns (ok: bool)
      requires Valid() && IsKey(k) && WellEncoded(r)
      modifies this, shards
      ensures Valid() && View() == Stored(old(View()), maxSize, k, r, Expiry(maxAge, now))
      ensures ok <==> !r.cacheable || r.body == 0 || Storable(old(View()), maxSize, r)
    {
      if !r.cacheable || r.body == 0 {
        return true;
      }
      if r.meta.None? {
        return false;
      }
      ghost var before := View();
      ok := Place(k, r.meta.value, r.meta.value + r.body, r.metaWritten, r.bodyWritten, now);
      PlacedIsStored(before, maxSize, k, r, Expiry(maxAge, now), View());
    }

    /** Serves a key: stale says whether its meta file is past its age, readable whether the
        files can be read in full. */
    method Stream(k: Key, stale: bool, readable: bool, now: nat) returns (hit: bool)
      requires Valid() && IsKey(k)
      modifies this, shards
      ensures Valid() && View() == Served(old(View()), k, stale, readable, Expiry(maxAge, now))
      ensures hit <==> k in old(metas) && !stale && k in old(bodies) && readable
    {
      ServedIsSane(View(), k, stale, readable, Expiry(maxAge, now));
      if k !in metas {
        return false;
      }
      if stale {
        metas, bodies := metas - {k}, bodies - {k};
        Remove(k);
        return false;
      }
      if k !in bodies || !readable {
        return false;
      }
      Touch(k, metas[k], now);
      return true;
    }

    method RemoveMetas(keys: seq<Key>)
      modifies this`metas
      ensures metas == old(metas) - SetOf(keys, |keys|)
    {
      for j := 0 to |keys|
        invariant metas == old(metas) - SetOf(keys, j)
      {
        metas := metas - {keys[j]};
      }
    }

    method Expire(i: nat, now: int) returns (expired: seq<Key>, total: nat)
      requires Tied() && i < SHARDS && Sound(held[i])
      modifies this`held, shards
      ensures var s := old(held)[i]; var gone := ExpiredKeys(s.lru, now);
              && SetOf(expired, |expired|) == gone && total == s.size - Without(s, gone).size
              && Tied() && held == old(held)[i := Without(s, gone)]
    {
      SumInIsEnough(held[i], |held[i].order|, ExpiredKeys(held[i].lru, now));
      expired, total := shards[i].FindExpired(now);
      held := held[i := shards[i].View()];
    }

    method SweepShard(i: nat, now: int)
      requires Tied() && i < SHARDS && Sound(held[i])
      modifies this, shards
      ensures Tied() && View() == SweptFrom(old(View()), i, now)
    {
      var expired, total := Expire(i, now);
      RemoveMetas(expired);
      if total > 0 {
        currentSize := currentSize - total;
      }
    }

    /** Drops expired entries and their meta files. */
    method Sweep(now: nat)
      requires Valid()
      modifies this, shards
      ensures Valid() && View() == Swept(old(View()), SHARDS, now)
    {
      ghost var before := View();
      for i := 0 to SHARDS
        invariant Tied() && View() == Swept(before, i, now)
      {
        SweptShardIsSound(before, i, now);
        SweepShard(i, now);
      }
      SweptIsSane(before, SHARDS, now);
    }

    method CollectScope(i: nat, scope: Key -> bool) returns (keys: seq<Key>)
      requires Tied() && i < SHARDS
      ensures Distinct(keys) && SetOf(keys, |keys|) == InScope(View(), i, scope)
    {
      keys := [];
      ghost var all := InScope(View(), i, scope);
      var rest := shards[i].lru.Keys;
      while rest != {}
        invariant rest <= shards[i].lru.Keys && Distinct(keys) && SetOf(keys, |keys|) == all - rest
        decreases |rest|
      {
        var k :| k in rest;
        LeaveOut(all, rest, k);
        if k in metas && scope(k) {
          OneMoreKey(keys, k);
          keys := keys + [k];
        }
        rest := rest - {k};
      }
      assert all - {} == all;
    }

    method DropScope(i: nat, scope: Key -> bool) returns (n: nat)
      requires Tied() && i < SHARDS && Sound(held[i])
      modifies this`held, shards
      ensures var gone := InScope(old(View()), i, scope);
              Tied() && n == |gone| && held == old(held)[i := Without(old(held)[i], gone)]
    {
      var keys := CollectScope(i, scope);
      SetOfSize(keys, |keys|);
      shards[i].RemoveEach(keys);
      held := held[i := shards[i].View()];
      n := |keys|;
    }

    method PurgeShard(i: nat, scope: Key -> bool) returns (purged: nat)
      requires Tied() && i < SHARDS && Sound(held[i])
      modifies this, shards
      ensures purged == |InScope(old(View()), i, scope)|
      ensures Tied() && View() == PurgedFrom(old(View()), i, scope)
    {
      purged := DropScope(i, scope);
      if purged > 0 {
        currentSize := currentSize - purged;
      }
    }

    /** Drops the tracked entries with a meta file that the scope selects. */
    method Purge(scope: Key -> bool) returns (purged: nat)
      requires Valid()
      modifies this, shards
      ensures Valid() && View() == Purged(old(View()), SHARDS, scope)
      ensures purged == PurgedCount(old(View()), SHARDS, scope)
    {
      ghost var before := View();
      purged := 0;
      for i := 0 to SHARDS
        invariant Tied() && View() == Purged(before, i, scope) && purged == PurgedCount(before, i, scope)
      {
        PurgedShardIsSound(before, i, scope);
        var n := PurgeShard(i, scope);
        purged := purged + n;
      }
      PurgedIsSane(before, SHARDS, scope);
    }

    method RemoveFiles(keys: set<Key>) returns (n: nat)
      modifies this`metas, this`bodies
      ensures metas == old(metas) - keys && bodies == old(bodies) - keys && n == |keys|
    {
      n := 0;
      var rest := keys;
      while rest != {}
        invariant rest <= keys && metas == old(metas) - (keys - rest) && bodies == old(bodies) - (keys - rest)
        invariant n + |rest| == |keys|
        decreases |rest|
      {
        var k :| k in rest;
        metas, bodies, n := metas - {k}, bodies - {k}, n + 1;
        LeaveOut(keys, rest, k);
        rest := rest - {k};
      }
      assert keys - {} == keys;
    }

    method ClearShard(i: nat) returns (n: nat)
      requires Tied() && i < SHARDS && Sound(held[i])
      modifies this, shards
      ensures Tied() && View() == ClearedFrom(old(View()), i) && n == |old(held)[i].order|
    {
      KeyCount(held[i]);
      n := RemoveFiles(shards[i].lru.Keys);
      shards[i].Clear();
      held := held[i := EMPTY_SHARD];
    }

    method ClearShards() returns (purged: nat)
      requires Valid()
      modifies this, shards
      ensures Tied() && View() == Cleared(old(View()), SHARDS) && purged == Count(old(View()).shards, SHARDS)
    {
      ghost var before := View();
      purged := 0;
      for i := 0 to SHARDS
        invariant Tied() && View() == Cleared(before, i) && purged == Count(before.shards, i)
      {
        SoundShard(before, i);
        var n := ClearShard(i);
        purged := purged + n;
      }
    }

    /** Drops every tracked entry with its files. */
    method PurgeAll() returns (purged: nat)
      requires Valid()
      modifies this, shards
      ensures Valid() && View() == PurgedAll(old(View())) && purged == Count(old(View()).shards, SHARDS)
    {
      ClearedIsPurged(View());
      PurgedAllIsSane(View());
      purged := ClearShards();
      currentSize := 0;
    }
  }

  lemma PlacedIsStored(c: Cache, max: int, k: Key, r: Response, expires: int, after: Cache)
    requires Sane(c) && IsKey(k) && WellEncoded(r) && r.cacheable && r.body > 0 && r.meta.Some?
    requires |Freed(c, r.meta.value + r.body, max).shards| == SHARDS
    requires after == Placed(Freed(c, r.meta.value + r.body, max), max, k, r.meta.value, r.meta.value + r.body,
                             r.metaWritten, r.bodyWritten, expires)
    ensures after == Stored(c, max, k, r, expires) && Sane(after)
  {
    StoredIsSane(c, max, k, r, expires);
  }

  lemma SoundShard(c: Cache, i: nat)
    requires Sane(c) && i < SHARDS
    ensures Sound(c.shards[i])
  {
  }

  lemma SweptShardIsSound(c: Cache, i: nat, now: int)
    requires Sane(c) && i < SHARDS
    ensures Sound(Swept(c, i, now).shards[i])
  {
    SweptIsSane(c, i, now);
  }

  lemma PurgedShardIsSound(c: Cache, i: nat, scope: Key -> bool)
    requires Sane(c) && i < SHARDS
    ensures Sound(Purged(c, i, scope).shards[i])
  {
    PurgedIsSane(c, i, scope);
  }

  lemma KeyCount(s: Shard)
    requires Sound(s)
    ensures |s.lru.Keys| == |s.order|
  {
    SetOfSize(s.order, |s.order|);
    forall k
      ensures k in s.lru.Keys <==> k in SetOf(s.order, |s.order|)
    {
      SetOfHas(s.order, |s.order|, k);
    }
    assert s.lru.Keys == SetOf(s.order, |s.order|);
  }
}
