/** What the sweep leaves on disk: body files that no entry accounts for, which stay until
    their key is stored again. */
module DiskLeftovers {
  import opened Basics
  import opened DiskShard
  import opened DiskSpace
  import opened DiskAccounting

  /** A body file with no meta file and no entry. */
  ghost predicate Leftover(c: Cache, k: Key)
    requires |c.shards| == SHARDS
  {
    k in c.bodies && k !in c.metas && !Tracked(c.shards, k)
  }

  /** The entry of a key is due to be swept. */
  ghost predicate Due(c: Cache, k: Key, now: int)
    requires |c.shards| == SHARDS
  {
    IsKey(k) && k in ExpiredKeys(c.shards[ShardOf(k)].lru, now)
  }

  // One shard swept, in which all keys belong, and which the sweep has not touched before.
  lemma SweptOne(c: Cache, b: Cache, i: nat, now: int, k: Key)
    requires |b.shards| == |c.shards| == SHARDS && i < SHARDS && b.shards[i] == c.shards[i] && Own(b.shards[i], i)
    ensures var r, gone := SweptFrom(b, i, now), Due(c, k, now) && ShardOf(k) == i;
            && r.bodies == b.bodies && (k in r.metas <==> k in b.metas && !gone)
            && (Tracked(r.shards, k) <==> Tracked(b.shards, k) && !gone)
  {
  }

  lemma OwnShard(shards: seq<Shard>, i: nat)
    requires Sharded(shards) && i < SHARDS
    ensures Own(shards[i], i)
  {
  }

  // The key is among those swept from the first n shards.
  ghost predicate Gone(c: Cache, n: nat, now: int, k: Key)
    requires |c.shards| == SHARDS
  {
    Due(c, k, now) && ShardOf(k) < n
  }

  lemma {:induction false} SweptKey(c: Cache, n: nat, now: int, k: Key)
    requires Sharded(c.shards) && n <= SHARDS
    ensures var r := Swept(c, n, now);
            && r.bodies == c.bodies && (k in r.metas <==> k in c.metas && !Gone(c, n, now, k))
            && (Tracked(r.shards, k) <==> Tracked(c.shards, k) && !Gone(c, n, now, k))
  {
    if n > 0 {
      SweptKey(c, n - 1, now, k);
      OwnShard(c.shards, n - 1);
      SweptOne(c, Swept(c, n - 1, now), n - 1, now, k);
    }
  }

  /** The sweep removes no body file: what it leaves over is what was left over before and the
      bodies of the entries it drops. */
  lemma SweepLeaves(c: Cache, now: int, k: Key)
    requires Sharded(c.shards)
    ensures Swept(c, SHARDS, now).bodies == c.bodies
    ensures Leftover(Swept(c, SHARDS, now), k) <==> Leftover(c, k) || (k in c.bodies && Due(c, k, now))
  {
    SweptKey(c, SHARDS, now, k);
  }

  // ----- what becomes of them

  lemma EvictionSpares(c: Cache, k: Key)
    requires Sane(c) && Leftover(c, k)
    ensures Leftover(Evicted(c), k)
  {
    if Victim(c).Some? {
      var i := FirstFull(c.shards, 0).value;
      assert Own(c.shards[i], i);
      assert Last(c.shards[i]) in c.shards[i].order;
    }
  }

  lemma {:induction false} FreedSpares(c: Cache, bytes: int, max: int, k: Key)
    requires Sane(c) && Leftover(c, k)
    ensures |Freed(c, bytes, max).shards| == SHARDS && Leftover(Freed(c, bytes, max), k)
    decreases Count(c.shards, |c.shards|)
  {
    if !Fits(c, bytes, max) && Victim(c).Some? {
      EvictionShrinks(c);
      EvictionIsSane(c);
      EvictionSpares(c, k);
      FreedSpares(Evicted(c), bytes, max, k);
    }
  }

  lemma PlacedLeaves(
      c: Cache, max: int, j: Key, meta: int, bytes: int, metaWritten: bool, bodyWritten: bool, expires: int, k: Key)
    requires |c.shards| == SHARDS && IsKey(j) && Leftover(c, k)
    ensures Leftover(Placed(c, max, j, meta, bytes, metaWritten, bodyWritten, expires), k) <==>
            !(j == k && Fits(c, bytes, max) && metaWritten && bodyWritten)
  {
  }

  lemma StoreLeaves(c: Cache, max: int, j: Key, r: Response, expires: int, k: Key)
    requires Sane(c) && IsKey(j) && WellEncoded(r) && Leftover(c, k)
    ensures |Stored(c, max, j, r, expires).shards| == SHARDS
    ensures Leftover(Stored(c, max, j, r, expires), k) <==> !(j == k && Storable(c, max, r))
  {
    if r.cacheable && r.body > 0 && r.meta.Some? {
      var bytes := r.meta.value + r.body;
      RoomIff(c, bytes, max);
      FreedSpares(c, bytes, max, k);
      PlacedLeaves(Freed(c, bytes, max), max, j, r.meta.value, bytes, r.metaWritten, r.bodyWritten, expires, k);
    }
  }

  lemma {:induction false} PurgeLeaves(c: Cache, n: nat, scope: Key -> bool, k: Key)
    requires |c.shards| == SHARDS && n <= SHARDS && Leftover(c, k)
    ensures Leftover(Purged(c, n, scope), k)
  {
    if n > 0 {
      PurgeLeaves(c, n - 1, scope, k);
    }
  }

  lemma {:induction false} ListedIsTracked(shards: seq<Shard>, n: nat, k: Key)
    requires Sharded(shards) && n <= SHARDS && k in TrackedKeys(shards, n)
    ensures Tracked(shards, k)
  {
    assert Own(shards[n - 1], n - 1);
    if k !in shards[n - 1].lru {
      ListedIsTracked(shards, n - 1, k);
    }
  }

  /** A body file left over stays through every operation but one: a successful store of its key. */
  lemma StepLeaves(c: Cache, max: int, maxAge: int, step: Step, k: Key)
    requires Sane(c) && Legal(step) && Leftover(c, k)
    ensures |Do(c, max, maxAge, step).shards| == SHARDS
    ensures Leftover(Do(c, max, maxAge, step), k) <==>
            !(step.Store? && step.key == k && Storable(c, max, step.response))
  {
    match step
    case Store(j, r, now) => StoreLeaves(c, max, j, r, Expiry(maxAge, now), k);
    case Serve(_, _, _, _) =>
    case Sweep(now) => SweepLeaves(c, now, k);
    case PurgeScope(scope) => PurgeLeaves(c, SHARDS, scope, k);
    case PurgeAll =>
      if k in TrackedKeys(c.shards, SHARDS) {
        ListedIsTracked(c.shards, SHARDS, k);
      }
  }

  /** In every run a body file left over at some point is still there, and still unaccounted
      for, as long as its key is not stored again. */
  lemma {:induction false} LeftoverStays(
      run: seq<Cache>, steps: seq<Step>, max: int, maxAge: int, i: nat, j: nat, k: Key)
    requires Run(run, steps, max, maxAge) && i <= j < |run| && |run[i].shards| == SHARDS && Leftover(run[i], k)
    requires forall q :: i <= q < j ==> !(steps[q].Store? && steps[q].key == k)
    ensures |run[j].shards| == SHARDS && Leftover(run[j], k)
  {
    if i < j {
      LeftoverStays(run, steps, max, maxAge, i, j - 1, k);
      RunIsSane(run, steps, max, maxAge, j - 1);
      assert StepsTo(run, steps, max, maxAge, j - 1);
      StepLeaves(run[j - 1], max, maxAge, steps[j - 1], k);
    }
  }

  // ----- where leftovers come from

  /** Every body file belongs to a tracked entry. */
  ghost predicate BodiesTracked(c: Cache)
    requires |c.shards| == SHARDS
  {
    forall k :: k in c.bodies ==> Tracked(c.shards, k)
  }

  lemma EvictionTakesBody(c: Cache)
    requires Sane(c) && BodiesTracked(c)
    ensures BodiesTracked(Evicted(c))
  {
    if Victim(c).Some? {
      var i := FirstFull(c.shards, 0).value;
      OwnShard(c.shards, i);
    }
  }

  lemma {:induction false} FreedTakesBodies(c: Cache, bytes: int, max: int)
    requires Sane(c) && BodiesTracked(c)
    ensures |Freed(c, bytes, max).shards| == SHARDS && BodiesTracked(Freed(c, bytes, max))
    decreases Count(c.shards, |c.shards|)
  {
    if !Fits(c, bytes, max) && Victim(c).Some? {
      EvictionShrinks(c);
      EvictionIsSane(c);
      EvictionTakesBody(c);
      FreedTakesBodies(Evicted(c), bytes, max);
    }
  }

  lemma PlacedTracksBody(
      c: Cache, max: int, j: Key, meta: int, bytes: int, metaWritten: bool, bodyWritten: bool, expires: int)
    requires |c.shards| == SHARDS && IsKey(j) && BodiesTracked(c)
    ensures BodiesTracked(Placed(c, max, j, meta, bytes, metaWritten, bodyWritten, expires))
  {
  }

  lemma StoreTracksBody(c: Cache, max: int, j: Key, r: Response, expires: int)
    requires Sane(c) && IsKey(j) && BodiesTracked(c)
    ensures |Stored(c, max, j, r, expires).shards| == SHARDS && BodiesTracked(Stored(c, max, j, r, expires))
  {
    if r.cacheable && r.body > 0 && r.meta.Some? {
      var bytes := r.meta.value + r.body;
      FreedTakesBodies(c, bytes, max);
      PlacedTracksBody(
        Freed(c, bytes, max), max, j, r.meta.value, bytes, r.metaWritten, r.bodyWritten, expires);
    }
  }

  lemma ServeTracksBody(c: Cache, j: Key, stale: bool, inFull: bool, expires: int)
    requires |c.shards| == SHARDS && IsKey(j) && BodiesTracked(c)
    ensures |Served(c, j, stale, inFull, expires).shards| == SHARDS
    ensures BodiesTracked(Served(c, j, stale, inFull, expires))
  {
  }

  lemma PurgeAllTakesBodies(c: Cache)
    requires Sane(c) && BodiesTracked(c)
    ensures PurgedAll(c).bodies == {}
  {
    forall k | k in c.bodies
      ensures k in TrackedKeys(c.shards, SHARDS)
    {
      TrackedIsListed(c.shards, SHARDS, k);
    }
  }

  /** Without sweeps and scoped purges there are no leftovers: in every such run every body file
      belongs to a tracked entry, however entries come, go and fail to be written. */
  lemma {:induction false} NoOtherLeftovers(run: seq<Cache>, steps: seq<Step>, max: int, maxAge: int, n: nat)
    requires Run(run, steps, max, maxAge) && n < |run|
    requires forall j :: 0 <= j < n ==> !steps[j].Sweep? && !steps[j].PurgeScope?
    ensures |run[n].shards| == SHARDS && BodiesTracked(run[n])
  {
    if n > 0 {
      NoOtherLeftovers(run, steps, max, maxAge, n - 1);
      RunIsSane(run, steps, max, maxAge, n - 1);
      assert StepsTo(run, steps, max, maxAge, n - 1);
      match steps[n - 1]
      case Store(k, r, now) => StoreTracksBody(run[n - 1], max, k, r, Expiry(maxAge, now));
      case Serve(k, stale, inFull, now) => ServeTracksBody(run[n - 1], k, stale, inFull, Expiry(maxAge, now));
      case PurgeAll => PurgeAllTakesBodies(run[n - 1]);
      case _ =>
    }
  }
}
