/** The disk cache as a value: its shards, the running size, and the files on disk. */
module DiskSpace {
  import opened Basics
  import opened DiskShard

  const SHARDS := 32

  /** Meta files by the number of bytes in them, and the keys with a body file. */
  datatype Cache = Cache(shards: seq<Shard>, current: int, metas: map<Key, int>, bodies: set<Key>)

  /** Keys are hashes; the first two characters choose the shard. */
  predicate IsKey(k: Key) {
    |k| >= 2
  }

  function ShardOf(k: Key): (i: nat)
    requires IsKey(k)
    ensures i < SHARDS
  {
    (k[0] as int * 31 + k[1] as int) % SHARDS
  }

  function Total(shards: seq<Shard>, n: nat): int
    requires n <= |shards|
  {
    if n == 0 then 0 else Total(shards, n - 1) + shards[n - 1].size
  }

  /** What the running size says beyond the sizes of the tracked entries. */
  function Drift(c: Cache): int {
    c.current - Total(c.shards, |c.shards|)
  }

  /** Shards are sound and hold only keys of their own. */
  ghost predicate Sharded(shards: seq<Shard>) {
    && |shards| == SHARDS
    && (forall i :: 0 <= i < SHARDS ==> Sound(shards[i]))
    && forall i, k :: 0 <= i < SHARDS && k in shards[i].lru ==> IsKey(k) && ShardOf(k) == i
  }

  ghost predicate Tracked(shards: seq<Shard>, k: Key)
    requires |shards| == SHARDS
  {
    IsKey(k) && k in shards[ShardOf(k)].lru
  }

  // ----- changing one shard

  /** The cache after one shard changed, with the running size kept in step. */
  function Replaced(c: Cache, i: nat, s: Shard): Cache
    requires i < |c.shards|
  {
    c.(shards := c.shards[i := s], current := c.current + s.size - c.shards[i].size)
  }

  lemma {:induction false} TotalReplaced(shards: seq<Shard>, i: nat, s: Shard, n: nat)
    requires i < |shards| && n <= |shards|
    ensures Total(shards[i := s], n) == if i < n then Total(shards, n) - shards[i].size + s.size else Total(shards, n)
  {
    if n > 0 {
      TotalReplaced(shards, i, s, n - 1);
    }
  }

  /** A change of one shard that keeps the running size in step causes no drift. */
  lemma ReplacedDrift(c: Cache, i: nat, s: Shard)
    requires i < |c.shards|
    ensures Drift(Replaced(c, i, s)) == Drift(c)
  {
    TotalReplaced(c.shards, i, s, |c.shards|);
  }

  function Touched(c: Cache, k: Key, bytes: int, expires: int): Cache
    requires |c.shards| == SHARDS && IsKey(k)
  {
    Replaced(c, ShardOf(k), With(c.shards[ShardOf(k)], k, Entry(bytes, expires)))
  }

  function Forgotten(c: Cache, k: Key): Cache
    requires |c.shards| == SHARDS && IsKey(k)
  {
    Replaced(c, ShardOf(k), Without(c.shards[ShardOf(k)], {k}))
  }

  // ----- eviction

  /** The lowest shard with an entry, from the i-th on. */
  function FirstFull(shards: seq<Shard>, i: nat): (r: Option<nat>)
    requires i <= |shards|
    ensures r.Some? ==> i <= r.value < |shards| && |shards[r.value].order| > 0
    ensures r.Some? ==> forall j :: i <= j < r.value ==> |shards[j].order| == 0
    ensures r.None? ==> forall j :: i <= j < |shards| ==> |shards[j].order| == 0
    decreases |shards| - i
  {
    if i == |shards| then None else if |shards[i].order| > 0 then Some(i) else FirstFull(shards, i + 1)
  }

  function Last(s: Shard): Key
    requires |s.order| > 0
  {
    s.order[|s.order| - 1]
  }

  function Victim(c: Cache): Option<Key> {
    var i := FirstFull(c.shards, 0);
    if i.None? then None else Some(Last(c.shards[i.value]))
  }

  function EvictedFrom(c: Cache, i: nat): Cache
    requires i < |c.shards| && |c.shards[i].order| > 0
  {
    var k := Last(c.shards[i]);
    Replaced(c, i, Without(c.shards[i], {k})).(metas := c.metas - {k}, bodies := c.bodies - {k})
  }

  /** The least recent entry of the lowest shard that has one goes, with its files. */
  function Evicted(c: Cache): Cache {
    var i := FirstFull(c.shards, 0);
    if i.None? then c else EvictedFrom(c, i.value)
  }

  function Count(shards: seq<Shard>, n: nat): nat
    requires n <= |shards|
  {
    if n == 0 then 0 else Count(shards, n - 1) + |shards[n - 1].order|
  }

  lemma {:induction false} MinusShrinks(order: seq<Key>, n: nat, gone: set<Key>)
    requires n <= |order|
    ensures |Minus(order, n, gone)| <= n && (n > 0 && order[n - 1] in gone ==> |Minus(order, n, gone)| < n)
  {
    if n > 0 {
      MinusShrinks(order, n - 1, gone);
    }
  }

  lemma {:induction false} CountReplaced(shards: seq<Shard>, i: nat, s: Shard, n: nat)
    requires i < |shards| && n <= |shards|
    ensures Count(shards[i := s], n) ==
            if i < n then Count(shards, n) - |shards[i].order| + |s.order| else Count(shards, n)
  {
    if n > 0 {
      CountReplaced(shards, i, s, n - 1);
    }
  }

  lemma EvictionShrinks(c: Cache)
    requires Victim(c).Some?
    ensures |Evicted(c).shards| == |c.shards| && Count(Evicted(c).shards, |c.shards|) < Count(c.shards, |c.shards|)
  {
    var i := FirstFull(c.shards, 0).value;
    var s := c.shards[i];
    MinusShrinks(s.order, |s.order|, {Victim(c).value});
    CountReplaced(c.shards, i, Without(s, {Victim(c).value}), |c.shards|);
  }

  predicate Fits(c: Cache, bytes: int, max: int) {
    max == 0 || c.current + bytes <= max
  }

  /** Evicts until so many bytes fit or nothing is left. */
  function Freed(c: Cache, bytes: int, max: int): Cache
    decreases Count(c.shards, |c.shards|)
  {
    if Fits(c, bytes, max) || Victim(c).None? then c else EvictionShrinks(c); Freed(Evicted(c), bytes, max)
  }

  // ----- operations

  /** A response to store: whether it may be cached, the bytes of its encoded metadata unless
      that failed, those of its body, and whether the two files get written. */
  datatype Response = Response(cacheable: bool, meta: Option<int>, body: nat, metaWritten: bool, bodyWritten: bool)

  predicate WellEncoded(r: Response) {
    r.meta.Some? ==> r.meta.value >= 1
  }

  /** Both files are in place and the entry is recorded. */
  function Written(c: Cache, k: Key, meta: int, bytes: int, expires: int): Cache
    requires |c.shards| == SHARDS && IsKey(k)
  {
    Touched(c.(metas := c.metas[k := meta], bodies := c.bodies + {k}), k, bytes, expires)
  }

  /** The entry is written if it fits; a body that cannot be written takes the meta file with it. */
  function Placed(
      c: Cache, max: int, k: Key, meta: int, bytes: int, metaWritten: bool, bodyWritten: bool, expires: int): Cache
    requires |c.shards| == SHARDS && IsKey(k)
  {
    if !Fits(c, bytes, max) || !metaWritten then c
    else if !bodyWritten then c.(metas := c.metas - {k})
    else Written(c, k, meta, bytes, expires)
  }

  function Stored(c: Cache, max: int, k: Key, r: Response, expires: int): Cache
    requires |c.shards| == SHARDS && IsKey(k)
  {
    if !r.cacheable || r.body == 0 || r.meta.None? then c
    else
      var bytes := r.meta.value + r.body;
      FreedKeepsShards(c, bytes, max);
      Placed(Freed(c, bytes, max), max, k, r.meta.value, bytes, r.metaWritten, r.bodyWritten, expires)
  }

  /** The response is fit to be cached, it fits beside the drift, and its files get written. */
  predicate Storable(c: Cache, max: int, r: Response) {
    && r.cacheable && r.body > 0 && r.meta.Some? && r.metaWritten && r.bodyWritten
    && (max == 0 || Drift(c) + r.meta.value + r.body <= max)
  }

  lemma {:induction false} FreedKeepsShards(c: Cache, bytes: int, max: int)
    ensures |Freed(c, bytes, max).shards| == |c.shards|
    decreases Count(c.shards, |c.shards|)
  {
    if !Fits(c, bytes, max) && Victim(c).Some? {
      EvictionShrinks(c);
      FreedKeepsShards(Evicted(c), bytes, max);
    }
  }

  /** Serving a key: an entry past its age goes; one that is served in full, from both its
      files, is recorded again with the size of its meta file. */
  function Served(c: Cache, k: Key, stale: bool, inFull: bool, expires: int): Cache
    requires |c.shards| == SHARDS && IsKey(k)
  {
    if k !in c.metas then c
    else if stale then Forgotten(c.(metas := c.metas - {k}, bodies := c.bodies - {k}), k)
    else if k in c.bodies && inFull then Touched(c, k, c.metas[k], expires)
    else c
  }

  function SweptFrom(c: Cache, i: nat, now: int): Cache
    requires i < |c.shards|
  {
    var gone := ExpiredKeys(c.shards[i].lru, now);
    Replaced(c, i, Without(c.shards[i], gone)).(metas := c.metas - gone)
  }

  /** The sweep after n shards: expired entries go, with their meta files but not their bodies. */
  function Swept(c: Cache, n: nat, now: int): (r: Cache)
    requires n <= |c.shards|
    ensures |r.shards| == |c.shards| && forall i :: n <= i < |c.shards| ==> r.shards[i] == c.shards[i]
  {
    if n == 0 then c
    else SweptFrom(Swept(c, n - 1, now), n - 1, now)
  }

  /** The tracked keys with a meta file that a purge selects. */
  function InScope(c: Cache, i: nat, scope: Key -> bool): set<Key>
    requires i < |c.shards|
  {
    set k | k in c.shards[i].lru && k in c.metas && scope(k)
  }

  function PurgedFrom(c: Cache, i: nat, scope: Key -> bool): Cache
    requires i < |c.shards|
  {
    var gone := InScope(c, i, scope);
    c.(shards := c.shards[i := Without(c.shards[i], gone)], current := c.current - |gone|)
  }

  /** A scoped purge after n shards: entries go, their files stay, and the running size falls
      by the number of entries. */
  function Purged(c: Cache, n: nat, scope: Key -> bool): (r: Cache)
    requires n <= |c.shards|
    ensures |r.shards| == |c.shards| && r.metas == c.metas
    ensures forall i :: n <= i < |c.shards| ==> r.shards[i] == c.shards[i]
  {
    if n == 0 then c
    else PurgedFrom(Purged(c, n - 1, scope), n - 1, scope)
  }

  /** The number of entries a scoped purge removes from the first n shards. */
  function PurgedCount(c: Cache, n: nat, scope: Key -> bool): nat
    requires n <= |c.shards|
  {
    if n == 0 then 0 else PurgedCount(c, n - 1, scope) + |InScope(Purged(c, n - 1, scope), n - 1, scope)|
  }

  function TrackedKeys(shards: seq<Shard>, n: nat): set<Key>
    requires n <= |shards|
  {
    if n == 0 then {} else TrackedKeys(shards, n - 1) + shards[n - 1].lru.Keys
  }

  function ClearedFrom(c: Cache, i: nat): Cache
    requires i < |c.shards|
  {
    var gone := c.shards[i].lru.Keys;
    c.(shards := c.shards[i := EMPTY_SHARD], metas := c.metas - gone, bodies := c.bodies - gone)
  }

  /** A full purge after n shards, the running size not yet reset. */
  function Cleared(c: Cache, n: nat): (r: Cache)
    requires n <= |c.shards|
    ensures |r.shards| == |c.shards|
    ensures forall i :: 0 <= i < |c.shards| ==> r.shards[i] == if i < n then EMPTY_SHARD else c.shards[i]
  {
    if n == 0 then c else ClearedFrom(Cleared(c, n - 1), n - 1)
  }

  lemma {:induction false} ClearedFiles(c: Cache, n: nat)
    requires n <= |c.shards|
    ensures Cleared(c, n).metas == c.metas - TrackedKeys(c.shards, n) &&
            Cleared(c, n).bodies == c.bodies - TrackedKeys(c.shards, n)
  {
    if n > 0 {
      ClearedFiles(c, n - 1);
    }
  }

  lemma ClearedIsPurged(c: Cache)
    ensures Cleared(c, |c.shards|).(current := 0) == PurgedAll(c)
  {
    ClearedFiles(c, |c.shards|);
    assert Cleared(c, |c.shards|).shards == PurgedAll(c).shards;
  }

  function PurgedAll(c: Cache): Cache {
    var gone := TrackedKeys(c.shards, |c.shards|);
    Cache(seq(|c.shards|, i => EMPTY_SHARD), 0, c.metas - gone, c.bodies - gone)
  }
}
