/** Whom the disk cache evicts and for how long it keeps an entry: in every run each shard's list
    is ordered by last use, and what was stored or served lives out its age. */
module DiskRecency {
  import opened Basics
  import opened DiskShard
  import opened DiskSpace
  import opened DiskAccounting
  import opened DiskLeftovers

  /** The step stores the key or serves it from the cache. */
  ghost predicate Uses(c: Cache, max: int, step: Step, k: Key) {
    match step
    case Store(j, r, _) => j == k && Storable(c, max, r)
    case Serve(j, stale, inFull, _) => j == k && k in c.metas && !stale && k in c.bodies && inFull
    case _ => false
  }

  ghost predicate UsesNone(c: Cache, max: int, step: Step) {
    forall k :: !Uses(c, max, step, k)
  }

  /** The number, counted from 1, of the last of the first n steps that uses the key; 0 if none does. */
  ghost function LastUse(run: seq<Cache>, steps: seq<Step>, max: int, n: nat, k: Key): (u: nat)
    requires n <= |steps| < |run|
    ensures u <= n
  {
    if n == 0 then 0
    else if Uses(run[n - 1], max, steps[n - 1], k) then n
    else LastUse(run, steps, max, n - 1, k)
  }

  // ----- order

  ghost predicate Ordered(order: seq<Key>, use: Key -> nat) {
    forall i, j :: 0 <= i < j < |order| ==> use(order[i]) > use(order[j])
  }

  ghost predicate AllOrdered(shards: seq<Shard>, use: Key -> nat) {
    forall i :: 0 <= i < |shards| ==> Ordered(shards[i].order, use)
  }

  lemma {:induction false} MinusIsOrdered(order: seq<Key>, n: nat, gone: set<Key>, use: Key -> nat)
    requires n <= |order| && Ordered(order, use)
    ensures Ordered(Minus(order, n, gone), use)
  {
    if n > 0 {
      MinusIsOrdered(order, n - 1, gone, use);
      var rest := Minus(order, n - 1, gone);
      forall i | 0 <= i < |rest|
        ensures use(rest[i]) > use(order[n - 1])
      {
        assert rest[i] in rest;
        MinusHas(order, n - 1, gone, rest[i]);
      }
    }
  }

  lemma DropKeepsOrder(c: Cache, i: nat, gone: set<Key>, use: Key -> nat)
    requires i < |c.shards| && AllOrdered(c.shards, use)
    ensures AllOrdered(c.shards[i := Without(c.shards[i], gone)], use)
  {
    MinusIsOrdered(c.shards[i].order, |c.shards[i].order|, gone, use);
  }

  lemma {:induction false} FreedKeepsOrder(c: Cache, bytes: int, max: int, use: Key -> nat)
    requires AllOrdered(c.shards, use)
    ensures AllOrdered(Freed(c, bytes, max).shards, use)
    decreases Count(c.shards, |c.shards|)
  {
    if !Fits(c, bytes, max) && Victim(c).Some? {
      EvictionShrinks(c);
      DropKeepsOrder(c, FirstFull(c.shards, 0).value, {Victim(c).value}, use);
      FreedKeepsOrder(Evicted(c), bytes, max, use);
    }
  }

  lemma {:induction false} SweptKeepsOrder(c: Cache, n: nat, now: int, use: Key -> nat)
    requires n <= |c.shards| && AllOrdered(c.shards, use)
    ensures AllOrdered(Swept(c, n, now).shards, use)
  {
    if n > 0 {
      SweptKeepsOrder(c, n - 1, now, use);
      var b := Swept(c, n - 1, now);
      DropKeepsOrder(b, n - 1, ExpiredKeys(b.shards[n - 1].lru, now), use);
    }
  }

  lemma {:induction false} PurgedKeepsOrder(c: Cache, n: nat, scope: Key -> bool, use: Key -> nat)
    requires n <= |c.shards| && AllOrdered(c.shards, use)
    ensures AllOrdered(Purged(c, n, scope).shards, use)
  {
    if n > 0 {
      PurgedKeepsOrder(c, n - 1, scope, use);
      var b := Purged(c, n - 1, scope);
      DropKeepsOrder(b, n - 1, InScope(b, n - 1, scope), use);
    }
  }

  // A key in front of the others, used later than all of them.
  lemma FrontIsOrdered(order: seq<Key>, k: Key, use: Key -> nat, later: Key -> nat)
    requires Ordered(order, use) && k !in order
    requires forall j :: j in order ==> later(j) == use(j) < later(k)
    ensures Ordered([k] + order, later)
  {
  }

  ghost predicate UsedNow(use: Key -> nat, later: Key -> nat, k: Key) {
    forall j :: if j == k then use(j) < later(j) else use(j) == later(j) < later(k)
  }

  lemma SameOrder(order: seq<Key>, use: Key -> nat, later: Key -> nat)
    requires Ordered(order, use) && forall j :: j in order ==> use(j) == later(j)
    ensures Ordered(order, later)
  {
  }

  // The shards once a key was touched.
  ghost function TouchedShards(shards: seq<Shard>, k: Key, e: Entry): seq<Shard>
    requires |shards| == SHARDS && IsKey(k)
  {
    shards[ShardOf(k) := With(shards[ShardOf(k)], k, e)]
  }

  lemma TouchedIsOrdered(shards: seq<Shard>, k: Key, e: Entry, use: Key -> nat, later: Key -> nat)
    requires Sharded(shards) && IsKey(k) && AllOrdered(shards, use) && UsedNow(use, later, k)
    ensures AllOrdered(TouchedShards(shards, k, e), later)
  {
    var r, at := TouchedShards(shards, k, e), ShardOf(k);
    forall i | 0 <= i < SHARDS
      ensures Ordered(r[i].order, later)
    {
      var order := shards[i].order;
      assert Ordered(order, use);
      if i == at {
        var rest := Minus(order, |order|, {k});
        MinusIsOrdered(order, |order|, {k}, use);
        MinusHas(order, |order|, {k}, k);
        FrontIsOrdered(rest, k, use, later);
      } else {
        OwnShard(shards, i);
        assert k !in order;
        SameOrder(order, use, later);
      }
    }
  }

  ghost function UseIn(run: seq<Cache>, steps: seq<Step>, max: int, n: nat): Key -> nat
    requires n <= |steps| < |run|
  {
    (k: Key) => LastUse(run, steps, max, n, k)
  }

  // The shards once room was made for a response.
  ghost function Roomy(c: Cache, max: int, r: Response): seq<Shard> {
    if r.cacheable && r.body > 0 && r.meta.Some? then Freed(c, r.meta.value + r.body, max).shards else c.shards
  }

  lemma RoomyIsSharded(c: Cache, max: int, r: Response)
    requires Sane(c)
    ensures Sharded(Roomy(c, max, r))
  {
    if r.cacheable && r.body > 0 && r.meta.Some? {
      RoomIff(c, r.meta.value + r.body, max);
    }
  }

  lemma RoomyIsOrdered(c: Cache, max: int, r: Response, use: Key -> nat)
    requires AllOrdered(c.shards, use)
    ensures AllOrdered(Roomy(c, max, r), use)
  {
    if r.cacheable && r.body > 0 && r.meta.Some? {
      FreedKeepsOrder(c, r.meta.value + r.body, max, use);
    }
  }

  lemma PlacedShards(
      f: Cache, max: int, k: Key, meta: int, bytes: int, metaWritten: bool, bodyWritten: bool, expires: int)
    requires |f.shards| == SHARDS && IsKey(k)
    ensures Placed(f, max, k, meta, bytes, metaWritten, bodyWritten, expires).shards ==
            if Fits(f, bytes, max) && metaWritten && bodyWritten then TouchedShards(f.shards, k, Entry(bytes, expires))
            else f.shards
  {
  }

  // The response gets written once room was made for it.
  ghost predicate GoesIn(c: Cache, max: int, r: Response) {
    && r.cacheable && r.body > 0 && r.meta.Some? && r.metaWritten && r.bodyWritten
    && Fits(Freed(c, r.meta.value + r.body, max), r.meta.value + r.body, max)
  }

  lemma GoesInIff(c: Cache, max: int, r: Response)
    requires Sane(c)
    ensures GoesIn(c, max, r) <==> Storable(c, max, r)
    ensures |Roomy(c, max, r)| == SHARDS
  {
    if r.cacheable && r.body > 0 && r.meta.Some? {
      RoomIff(c, r.meta.value + r.body, max);
    }
  }

  // A store that goes through ends in a touch, and any other changes no list but by evictions.
  lemma StoredShards(c: Cache, max: int, k: Key, r: Response, expires: int)
    requires |c.shards| == SHARDS == |Roomy(c, max, r)| && IsKey(k)
    ensures Stored(c, max, k, r, expires).shards ==
            if GoesIn(c, max, r) then TouchedShards(Roomy(c, max, r), k, Entry(r.meta.value + r.body, expires))
            else Roomy(c, max, r)
  {
    if r.cacheable && r.body > 0 && r.meta.Some? {
      var bytes := r.meta.value + r.body;
      PlacedShards(
        Freed(c, bytes, max), max, k, r.meta.value, bytes, r.metaWritten, r.bodyWritten, expires);
    }
  }

  lemma StoreKeepsOrder(c: Cache, max: int, k: Key, r: Response, expires: int, use: Key -> nat, later: Key -> nat)
    requires Sane(c) && IsKey(k) && WellEncoded(r) && AllOrdered(c.shards, use)
    requires Storable(c, max, r) ==> UsedNow(use, later, k)
    requires !Storable(c, max, r) ==> forall j :: use(j) == later(j)
    ensures AllOrdered(Stored(c, max, k, r, expires).shards, later)
  {
    var room := Roomy(c, max, r);
    RoomyIsSharded(c, max, r);
    RoomyIsOrdered(c, max, r, use);
    GoesInIff(c, max, r);
    StoredShards(c, max, k, r, expires);
    if Storable(c, max, r) {
      TouchedIsOrdered(room, k, Entry(r.meta.value + r.body, expires), use, later);
    } else {
      SameUses(room, use, later);
    }
  }

  lemma SameUses(shards: seq<Shard>, use: Key -> nat, later: Key -> nat)
    requires AllOrdered(shards, use) && forall j :: use(j) == later(j)
    ensures AllOrdered(shards, later)
  {
    forall i | 0 <= i < |shards|
      ensures Ordered(shards[i].order, later)
    {
      SameOrder(shards[i].order, use, later);
    }
  }

  lemma ServeKeepsOrder(
      c: Cache, max: int, k: Key, stale: bool, inFull: bool, now: nat, expires: int, use: Key -> nat, later: Key -> nat)
    requires Sane(c) && IsKey(k) && AllOrdered(c.shards, use)
    requires if Uses(c, max, Serve(k, stale, inFull, now), k) then UsedNow(use, later, k)
             else forall j :: use(j) == later(j)
    ensures AllOrdered(Served(c, k, stale, inFull, expires).shards, later)
  {
    if k in c.metas && stale {
      DropKeepsOrder(c, ShardOf(k), {k}, use);
      SameUses(Served(c, k, stale, inFull, expires).shards, use, later);
    } else if k in c.metas && k in c.bodies && inFull {
      TouchedIsOrdered(c.shards, k, Entry(c.metas[k], expires), use, later);
    } else {
      SameUses(c.shards, use, later);
    }
  }

  /** The second of two counts of uses takes the step into account. */
  ghost predicate Counts(c: Cache, max: int, step: Step, use: Key -> nat, later: Key -> nat) {
    && (forall k :: Uses(c, max, step, k) ==> UsedNow(use, later, k))
    && (UsesNone(c, max, step) ==> forall j :: use(j) == later(j))
  }

  lemma StepKeepsOrder(
      c: Cache, max: int, maxAge: int, step: Step, use: Key -> nat, later: Key -> nat)
    requires Sane(c) && Legal(step) && AllOrdered(c.shards, use) && Counts(c, max, step, use, later)
    ensures AllOrdered(Do(c, max, maxAge, step).shards, later)
  {
    match step
    case Store(k, r, now) =>
      assert Uses(c, max, step, k) <==> Storable(c, max, r);
      StoreKeepsOrder(c, max, k, r, Expiry(maxAge, now), use, later);
    case Serve(k, stale, inFull, now) =>
      ServeKeepsOrder(c, max, k, stale, inFull, now, Expiry(maxAge, now), use, later);
    case Sweep(now) =>
      SweptKeepsOrder(c, SHARDS, now, use);
      SameUses(Swept(c, SHARDS, now).shards, use, later);
    case PurgeScope(scope) =>
      PurgedKeepsOrder(c, SHARDS, scope, use);
      SameUses(Purged(c, SHARDS, scope).shards, use, later);
    case PurgeAll =>
  }

  lemma UseMoves(run: seq<Cache>, steps: seq<Step>, max: int, n: nat, k: Key)
    requires n < |steps| < |run| && Uses(run[n], max, steps[n], k)
    ensures UsedNow(UseIn(run, steps, max, n), UseIn(run, steps, max, n + 1), k)
  {
  }

  lemma UseCounts(run: seq<Cache>, steps: seq<Step>, max: int, n: nat)
    requires n < |steps| < |run|
    ensures Counts(run[n], max, steps[n], UseIn(run, steps, max, n), UseIn(run, steps, max, n + 1))
  {
    var use, later := UseIn(run, steps, max, n), UseIn(run, steps, max, n + 1);
    forall k | Uses(run[n], max, steps[n], k)
      ensures UsedNow(use, later, k)
    {
      UseMoves(run, steps, max, n, k);
    }
  }

  lemma NextIsOrdered(
      run: seq<Cache>, steps: seq<Step>, max: int, maxAge: int, n: nat, use: Key -> nat, later: Key -> nat)
    requires n < |steps| < |run| && StepsTo(run, steps, max, maxAge, n) && Sane(run[n])
    requires Counts(run[n], max, steps[n], use, later) && AllOrdered(run[n].shards, use)
    ensures AllOrdered(run[n + 1].shards, later)
  {
    StepKeepsOrder(run[n], max, maxAge, steps[n], use, later);
  }

  lemma EmptyIsOrdered(use: Key -> nat)
    ensures AllOrdered(EmptyCache().shards, use)
  {
  }

  lemma SaneAt(run: seq<Cache>, steps: seq<Step>, max: int, maxAge: int, n: nat)
    requires Run(run, steps, max, maxAge) && n < |steps|
    ensures Sane(run[n]) && StepsTo(run, steps, max, maxAge, n)
  {
    RunIsSane(run, steps, max, maxAge, n);
  }

  /** In every run each shard's list is ordered by last use, the latest first. */
  lemma {:induction false} OrderedByUse(run: seq<Cache>, steps: seq<Step>, max: int, maxAge: int, n: nat)
    requires Run(run, steps, max, maxAge) && n < |run|
    ensures AllOrdered(run[n].shards, UseIn(run, steps, max, n))
  {
    if n == 0 {
      EmptyIsOrdered(UseIn(run, steps, max, 0));
    } else {
      OrderedByUse(run, steps, max, maxAge, n - 1);
      SaneAt(run, steps, max, maxAge, n - 1);
      UseCounts(run, steps, max, n - 1);
      NextIsOrdered(run, steps, max, maxAge, n - 1, UseIn(run, steps, max, n - 1), UseIn(run, steps, max, n));
    }
  }

  /** Whom an eviction takes, at every point of every run: of the lowest shard that has an entry
      the one whose last use is oldest. */
  lemma EvictsOldest(run: seq<Cache>, steps: seq<Step>, max: int, maxAge: int, n: nat, k: Key)
    requires Run(run, steps, max, maxAge) && n < |run| && FirstFull(run[n].shards, 0).Some?
    ensures var order := run[n].shards[FirstFull(run[n].shards, 0).value].order;
            var z := Victim(run[n]).value;
            z in order && (k in order && k != z ==> LastUse(run, steps, max, n, z) < LastUse(run, steps, max, n, k))
  {
    OrderedByUse(run, steps, max, maxAge, n);
    var i := FirstFull(run[n].shards, 0).value;
    var order, use := run[n].shards[i].order, UseIn(run, steps, max, n);
    assert Ordered(order, use);
    assert order[|order| - 1] in order;
    if k in order && k != Victim(run[n]).value {
      var p :| 0 <= p < |order| && order[p] == k;
      assert use(order[p]) > use(order[|order| - 1]);
    }
  }

  // ----- age

  ghost predicate HasEntry(c: Cache, k: Key, e: Entry)
    requires |c.shards| == SHARDS
  {
    Tracked(c.shards, k) && c.shards[ShardOf(k)].lru[k] == e
  }

  lemma TouchedEntry(shards: seq<Shard>, k: Key, e: Entry)
    requires |shards| == SHARDS && IsKey(k)
    ensures k in TouchedShards(shards, k, e)[ShardOf(k)].lru && TouchedShards(shards, k, e)[ShardOf(k)].lru[k] == e
  {
  }

  /** What a successful store leaves: an entry of the size of both files, and the files. */
  lemma StoredEntry(c: Cache, max: int, k: Key, r: Response, expires: int)
    requires Sane(c) && IsKey(k) && WellEncoded(r) && Storable(c, max, r)
    ensures Sane(Stored(c, max, k, r, expires))
    ensures HasEntry(Stored(c, max, k, r, expires), k, Entry(r.meta.value + r.body, expires))
    ensures StoredFiles(Stored(c, max, k, r, expires), k, r.meta.value)
  {
    GoesInIff(c, max, r);
    StoredShards(c, max, k, r, expires);
    TouchedEntry(Roomy(c, max, r), k, Entry(r.meta.value + r.body, expires));
    FilesGoIn(c, max, k, r, expires);
    StoredIsSane(c, max, k, r, expires);
  }

  lemma FilesGoIn(c: Cache, max: int, k: Key, r: Response, expires: int)
    requires |c.shards| == SHARDS == |Roomy(c, max, r)| && IsKey(k) && GoesIn(c, max, r)
    ensures StoredFiles(Stored(c, max, k, r, expires), k, r.meta.value)
  {
  }

  ghost predicate StoredFiles(c: Cache, k: Key, meta: int) {
    k in c.metas && c.metas[k] == meta && k in c.bodies
  }

  /** What a hit leaves: an entry of the size of the meta file alone, and the files as they were. */
  lemma ServedEntry(c: Cache, k: Key, expires: int)
    requires Sane(c) && IsKey(k) && k in c.metas && k in c.bodies
    ensures var s := Served(c, k, false, true, expires);
            && Sane(s) && HasEntry(s, k, Entry(c.metas[k], expires)) && s.metas == c.metas && s.bodies == c.bodies
  {
    ServedIsSane(c, k, false, true, expires);
  }

  /** A sweep drops an entry exactly once its age is over; one without an age stays. */
  lemma SweepSparesTheYoung(c: Cache, k: Key, bytes: int, maxAge: int, used: nat, now: int)
    requires Sane(c) && HasEntry(c, k, Entry(bytes, Expiry(maxAge, used)))
    ensures Tracked(Swept(c, SHARDS, now).shards, k) <==> maxAge <= 0 || now <= used + maxAge
  {
    SweptKey(c, SHARDS, now, k);
  }

  /** What was stored is still there after a sweep exactly if its age is not over. */
  lemma StoredLivesItsAge(c: Cache, max: int, k: Key, r: Response, maxAge: int, used: nat, now: int)
    requires Sane(c) && IsKey(k) && WellEncoded(r) && Storable(c, max, r)
    ensures |Stored(c, max, k, r, Expiry(maxAge, used)).shards| == SHARDS
    ensures Tracked(Swept(Stored(c, max, k, r, Expiry(maxAge, used)), SHARDS, now).shards, k) <==>
            maxAge <= 0 || now <= used + maxAge
  {
    StoredEntry(c, max, k, r, Expiry(maxAge, used));
    SweepSparesTheYoung(
      Stored(c, max, k, r, Expiry(maxAge, used)), k, r.meta.value + r.body, maxAge, used, now);
  }

  /** And what was served has its age anew. */
  lemma ServedLivesItsAge(c: Cache, k: Key, maxAge: int, used: nat, now: int)
    requires Sane(c) && IsKey(k) && k in c.metas && k in c.bodies
    ensures |Served(c, k, false, true, Expiry(maxAge, used)).shards| == SHARDS
    ensures Tracked(Swept(Served(c, k, false, true, Expiry(maxAge, used)), SHARDS, now).shards, k) <==>
            maxAge <= 0 || now <= used + maxAge
  {
    ServedEntry(c, k, Expiry(maxAge, used));
    SweepSparesTheYoung(Served(c, k, false, true, Expiry(maxAge, used)), k, c.metas[k], maxAge, used, now);
  }

  // ----- what goes

  /** A store whose body file cannot be written leaves no meta file of the key behind. */
  lemma CutShortStore(c: Cache, max: int, k: Key, r: Response, expires: int)
    requires Sane(c) && IsKey(k) && WellEncoded(r) && r.metaWritten && !r.bodyWritten
    requires Storable(c, max, r.(bodyWritten := true))
    ensures k !in Stored(c, max, k, r, expires).metas
  {
    RoomIff(c, r.meta.value + r.body, max);
  }

  /** A stale key goes, entry and files. */
  lemma StaleGoes(c: Cache, k: Key, inFull: bool, expires: int)
    requires |c.shards| == SHARDS && IsKey(k) && k in c.metas
    ensures var s := Served(c, k, true, inFull, expires);
            |s.shards| == SHARDS && !Tracked(s.shards, k) && k !in s.metas && k !in s.bodies
  {
  }

  // The key is among those purged from the first n shards.
  ghost predicate Purges(c: Cache, n: nat, scope: Key -> bool, k: Key)
    requires |c.shards| == SHARDS
  {
    Tracked(c.shards, k) && k in c.metas && scope(k) && ShardOf(k) < n
  }

  lemma PurgedOne(c: Cache, b: Cache, i: nat, scope: Key -> bool, k: Key)
    requires |b.shards| == |c.shards| == SHARDS && i < SHARDS && b.shards[i] == c.shards[i] && b.metas == c.metas
    requires Own(b.shards[i], i)
    ensures Tracked(PurgedFrom(b, i, scope).shards, k) <==>
            Tracked(b.shards, k) && !(Tracked(c.shards, k) && k in c.metas && scope(k) && ShardOf(k) == i)
  {
  }

  lemma {:induction false} PurgedKey(c: Cache, n: nat, scope: Key -> bool, k: Key)
    requires Sharded(c.shards) && n <= SHARDS
    ensures Tracked(Purged(c, n, scope).shards, k) <==> Tracked(c.shards, k) && !Purges(c, n, scope, k)
  {
    if n > 0 {
      PurgedKey(c, n - 1, scope, k);
      OwnShard(c.shards, n - 1);
      PurgedOne(c, Purged(c, n - 1, scope), n - 1, scope, k);
    }
  }

  /** A scoped purge drops exactly the entries with a meta file that the scope selects. */
  lemma PurgeDrops(c: Cache, scope: Key -> bool, k: Key)
    requires Sharded(c.shards)
    ensures Tracked(Purged(c, SHARDS, scope).shards, k) <==> Tracked(c.shards, k) && !(k in c.metas && scope(k))
  {
    PurgedKey(c, SHARDS, scope, k);
  }
}
