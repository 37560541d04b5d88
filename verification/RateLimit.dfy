/** The token-bucket registry behind the rate limiter and the firewall's rate limits, with
    idle buckets dropped every so often.

    Time is in seconds, and the contents of a bucket are measured by the time they take to
    flow in: with rps tokens a second a token is worth 1 / rps seconds. TokensTaken and
    TokensOverTime give the same in tokens. */
module RateLimit {
  const TTL: real := 300.0
  const SWEEP_EVERY: nat := 1024

  function Min(a: real, b: real): real {
    if a < b then a else b
  }

  function Max(a: real, b: real): real {
    if a < b then b else a
  }

  // ----- one bucket

  /** A rate and a burst, with the price of a token and the worth of a full bucket. */
  datatype Limits = Limits(rps: real, burst: int, price: real, full: real)

  /** The limits in force for the given parameters; those not positive have defaults. */
  function LimitsOf(rps: real, burst: int): Limits {
    var r := if rps <= 0.0 then 100.0 else rps;
    var b := if burst <= 0 then 200 else burst;
    Limits(r, b, 1.0 / r, b as real / r)
  }

  ghost predicate Lawful(l: Limits) {
    l.rps > 0.0 && l.burst > 0 && l.price * l.rps == 1.0 && l.full * l.rps == l.burst as real
  }

  /** The limits in force are the configured ones, or 100 a second and 200 at once where none
      are, and a full bucket is worth exactly its burst. */
  lemma LimitsAreLawful(rps: real, burst: int)
    ensures Lawful(LimitsOf(rps, burst))
    ensures rps > 0.0 ==> LimitsOf(rps, burst).rps == rps
    ensures rps <= 0.0 ==> LimitsOf(rps, burst).rps == 100.0
    ensures burst > 0 ==> LimitsOf(rps, burst).burst == burst
    ensures burst <= 0 ==> LimitsOf(rps, burst).burst == 200
  {
  }

  /** What matters of the limits when counting in seconds. */
  ghost predicate Positive(l: Limits) {
    0.0 < l.price <= l.full
  }

  lemma LawfulIsPositive(l: Limits)
    requires Lawful(l)
    ensures Positive(l)
  {
    Scaled(l.price, 0.0, l.rps);
    Scaled(l.full, l.price, l.rps);
  }

  /** Comparing rate and burst, as the registry does, compares all of the limits. */
  lemma LawfulAreEqual(l: Limits, m: Limits)
    requires Lawful(l) && Lawful(m) && l.rps == m.rps && l.burst == m.burst
    ensures l == m
  {
    Scaled(l.price, m.price, l.rps);
    Scaled(m.price, l.price, l.rps);
    Scaled(l.full, m.full, l.rps);
    Scaled(m.full, l.full, l.rps);
  }

  lemma Scaled(a: real, b: real, c: real)
    requires 0.0 < c
    ensures a < b ==> a * c < b * c
    ensures a == b ==> a * c == b * c
  {
    if a < b {
      assert (b - a) * c > 0.0;
      assert (b - a) * c == b * c - a * c;
    }
  }

  datatype Bucket = Bucket(limits: Limits, credit: real, last: real)

  function Full(l: Limits, now: real): Bucket {
    Bucket(l, l.full, now)
  }

  /** What is in the bucket at a time not before its last withdrawal. */
  function Level(b: Bucket, now: real): real {
    Min(b.credit + (now - b.last), b.limits.full)
  }

  predicate Affords(b: Bucket, now: real) {
    Level(b, now) >= b.limits.price
  }

  function Withdraw(b: Bucket, now: real): Bucket {
    if Affords(b, now) then b.(credit := Level(b, now) - b.limits.price, last := now) else b
  }

  ghost function Tokens(b: Bucket, now: real): real {
    Level(b, now) * b.limits.rps
  }

  /** In tokens: a full bucket holds its burst, and a withdrawal takes one token if there is one. */
  lemma TokensTaken(b: Bucket, now: real)
    requires Lawful(b.limits)
    ensures Tokens(Full(b.limits, now), now) == b.limits.burst as real
    ensures Affords(b, now) <==> Tokens(b, now) >= 1.0
    ensures Affords(b, now) ==> Tokens(Withdraw(b, now), now) == Tokens(b, now) - 1.0
  {
    var l := b.limits;
    LawfulIsPositive(l);
    Scaled(l.price, Level(b, now), l.rps);
    Scaled(Level(b, now), l.price, l.rps);
    Distributes(Level(b, now) - l.price, l.price, l.rps);
  }

  /** In tokens: rps of them flow in a second, up to the burst. */
  lemma TokensOverTime(b: Bucket, now: real, later: real)
    requires Lawful(b.limits) && now <= later
    ensures Tokens(b, later) == Min(Tokens(b, now) + (later - now) * b.limits.rps, b.limits.burst as real)
  {
    var level, seconds, l := Level(b, now), later - now, b.limits;
    assert Level(b, later) == Min(level + seconds, l.full);
    ScaledMin(level + seconds, l.full, l.rps);
    Distributes(level, seconds, l.rps);
  }

  lemma Distributes(a: real, b: real, c: real)
    ensures (a + b) * c == a * c + b * c
  {
  }

  lemma ScaledMin(a: real, b: real, c: real)
    requires 0.0 < c
    ensures Min(a, b) * c == Min(a * c, b * c)
  {
    Scaled(a, b, c);
    Scaled(b, a, c);
  }

  // ----- the registry

  /** One call: the clock is read for the idle stamp, for the bucket and for the sweep. */
  datatype Call = Call(key: string, limits: Limits, seen: real, at: real, swept: real)

  datatype Entry = Entry(bucket: Bucket, seen: real)

  type Table = map<string, Entry>

  /** The bucket a call draws from: its own, or a full one if there is none with its limits. */
  function Current(t: Table, c: Call): Bucket {
    if c.key in t && t[c.key].bucket.limits == c.limits then t[c.key].bucket else Full(c.limits, c.at)
  }

  predicate Allowed(t: Table, c: Call) {
    Affords(Current(t, c), c.at)
  }

  function Drawn(t: Table, c: Call): Table {
    t[c.key := Entry(Withdraw(Current(t, c), c.at), c.seen)]
  }

  function Swept(t: Table, now: real): Table {
    map k | k in t && now - t[k].seen <= TTL :: t[k]
  }

  function After(t: Table, c: Call): Table {
    if |Drawn(t, c)| % SWEEP_EVERY == 0 then Swept(Drawn(t, c), c.swept) else Drawn(t, c)
  }

  ghost function Zip(buckets: map<string, Bucket>, seen: map<string, real>): Table
    requires buckets.Keys == seen.Keys
  {
    map k | k in buckets :: Entry(buckets[k], seen[k])
  }

  lemma ZipUpdate(buckets: map<string, Bucket>, seen: map<string, real>, k: string, b: Bucket, t: real)
    requires buckets.Keys == seen.Keys
    ensures buckets[k := b].Keys == seen[k := t].Keys
    ensures Zip(buckets[k := b], seen[k := t]) == Zip(buckets, seen)[k := Entry(b, t)]
  {
  }

  datatype Params = Params(rps: real, burst: int)

  ghost predicate Matches(p: Params, b: Bucket) {
    p == Params(b.limits.rps, b.limits.burst) && Lawful(b.limits)
  }

  class Store {
    var limiters: map<string, Bucket>
    var params: map<string, Params>
    var lastSeen: map<string, real>

    ghost predicate Valid()
      reads this
    {
      && limiters.Keys == params.Keys == lastSeen.Keys
      && forall k :: k in limiters ==> Matches(params[k], limiters[k])
    }

    ghost function View(): Table
      reads this
      requires Valid()
    {
      Zip(limiters, lastSeen)
    }

    constructor ()
      ensures Valid() && View() == map[]
    {
      limiters, params, lastSeen := map[], map[], map[];
    }

    /** The answer and the new registry are those of Allowed and After. */
    method Allow(key: string, rps: real, burst: int, seen: real, at: real, swept: real) returns (allowed: bool)
      requires Valid()
      modifies this
      ensures var c := Call(key, LimitsOf(rps, burst), seen, at, swept);
              Valid() && allowed == Allowed(old(View()), c) && View() == After(old(View()), c)
    {
      var c := Call(key, LimitsOf(rps, burst), seen, at, swept);
      LimitsAreLawful(rps, burst);
      allowed := Draw(c);
      SameSize(limiters, View());
      if |limiters| % SWEEP_EVERY == 0 {
        Sweep(swept);
      }
    }

    // The bucket for a key, replaced by a full one when its rate or burst has changed.
    method Pick(c: Call) returns (b: Bucket)
      requires Valid() && Lawful(c.limits)
      modifies this`limiters, this`params
      ensures b == Current(old(View()), c) && b.limits == c.limits
      ensures limiters == old(limiters)[c.key := b]
      ensures params == old(params)[c.key := Params(c.limits.rps, c.limits.burst)]
    {
      var p := Params(c.limits.rps, c.limits.burst);
      if c.key !in limiters || params[c.key] != p {
        limiters, params := limiters[c.key := Full(c.limits, c.at)], params[c.key := p];
      } else {
        LawfulAreEqual(limiters[c.key].limits, c.limits);
      }
      b := limiters[c.key];
      assert params == params[c.key := p];
    }

    method Draw(c: Call) returns (allowed: bool)
      requires Valid() && Lawful(c.limits)
      modifies this
      ensures Valid() && allowed == Allowed(old(View()), c) && View() == Drawn(old(View()), c)
    {
      ghost var buckets, seen := limiters, lastSeen;
      var b := Pick(c);
      allowed := Affords(b, c.at);
      lastSeen := lastSeen[c.key := c.seen];
      limiters := limiters[c.key := Withdraw(b, c.at)];
      ZipUpdate(buckets, seen, c.key, Withdraw(b, c.at), c.seen);
      assert limiters == buckets[c.key := Withdraw(b, c.at)];
    }

    method Sweep(now: real)
      requires Valid()
      modifies this
      ensures Valid() && View() == Swept(old(View()), now)
    {
      ghost var buckets, given, seen := limiters, params, lastSeen;
      var todo := lastSeen.Keys;
      while todo != {}
        invariant Recent(limiters, buckets, todo, seen, now)
        invariant Recent(params, given, todo, seen, now)
        invariant Recent(lastSeen, seen, todo, seen, now)
        invariant todo <= seen.Keys
        decreases |todo|
      {
        var k :| k in todo;
        StillRecent(limiters, buckets, todo, seen, now, k);
        StillRecent(params, given, todo, seen, now, k);
        StillRecent(lastSeen, seen, todo, seen, now, k);
        if now - lastSeen[k] > TTL {
          limiters, params, lastSeen := limiters - {k}, params - {k}, lastSeen - {k};
        }
        todo := todo - {k};
      }
      OnlyRecent(limiters, buckets, lastSeen, seen, now);
      OnlyRecent(params, given, lastSeen, seen, now);
      ZipSwept(limiters, buckets, lastSeen, seen, now);
    }
  }

  /** What is left of a map once only the keys to do may still be there beyond their time. */
  ghost predicate Recent<V>(
      m: map<string, V>, was: map<string, V>, todo: set<string>, seen: map<string, real>, now: real)
    requires was.Keys == seen.Keys
  {
    && (forall k :: k in m ==> k in was && m[k] == was[k])
    && forall k :: k in was ==> (k in m <==> k in todo || now - seen[k] <= TTL)
  }

  lemma StillRecent<V>(
      m: map<string, V>, was: map<string, V>, todo: set<string>, seen: map<string, real>, now: real, k: string)
    requires was.Keys == seen.Keys && k in todo && k in seen && Recent(m, was, todo, seen, now)
    ensures k in m && Recent(if now - seen[k] > TTL then m - {k} else m, was, todo - {k}, seen, now)
  {
  }

  lemma OnlyRecent<V>(
      m: map<string, V>, was: map<string, V>, left: map<string, real>, seen: map<string, real>, now: real)
    requires was.Keys == seen.Keys && Recent(m, was, {}, seen, now) && Recent(left, seen, {}, seen, now)
    ensures m.Keys == left.Keys
  {
  }

  lemma ZipSwept(
      m: map<string, Bucket>, was: map<string, Bucket>, left: map<string, real>, seen: map<string, real>, now: real)
    requires was.Keys == seen.Keys && m.Keys == left.Keys
    requires Recent(m, was, {}, seen, now) && Recent(left, seen, {}, seen, now)
    ensures Zip(m, left) == Swept(Zip(was, seen), now)
  {
  }

  lemma SameSize<K, A, B>(m: map<K, A>, n: map<K, B>)
    requires m.Keys == n.Keys
    ensures |m| == |n|
  {
    assert |m| == |m.Keys| && |n| == |n.Keys|;
  }

  // ----- runs

  /** The tables before each call and after the last, starting from an empty registry. */
  ghost predicate IsRun(ts: seq<Table>, calls: seq<Call>) {
    && |ts| == |calls| + 1 && ts[0] == map[]
    && forall k :: 0 <= k < |calls| ==> Steps(ts, calls, k)
  }

  ghost predicate Steps(ts: seq<Table>, calls: seq<Call>, k: nat)
    requires k < |calls| < |ts|
  {
    ts[k + 1] == After(ts[k], calls[k])
  }

  /** The same for a registry that never drops a bucket. */
  ghost predicate IsKeptRun(rs: seq<Table>, calls: seq<Call>) {
    && |rs| == |calls| + 1 && rs[0] == map[]
    && forall k :: 0 <= k < |calls| ==> KeptSteps(rs, calls, k)
  }

  ghost predicate KeptSteps(rs: seq<Table>, calls: seq<Call>, k: nat)
    requires k < |calls| < |rs|
  {
    rs[k + 1] == Drawn(rs[k], calls[k])
  }

  // Every step function has a run over every sequence of calls.
  lemma {:induction false} RunOf(step: (Table, Call) -> Table, calls: seq<Call>) returns (ts: seq<Table>)
    ensures |ts| == |calls| + 1 && ts[0] == map[]
    ensures forall k :: 0 <= k < |calls| ==> ts[k + 1] == step(ts[k], calls[k])
    decreases |calls|
  {
    if calls == [] {
      ts := [map[]];
    } else {
      var n := |calls| - 1;
      var before := RunOf(step, calls[..n]);
      ts := before + [step(before[n], calls[n])];
      forall k | 0 <= k < |calls|
        ensures ts[k + 1] == step(ts[k], calls[k])
      {
        assert k < n ==> calls[..n][k] == calls[k];
      }
    }
  }

  /** Calls hold a lock, so they run one after the other, on a clock that does not go back. */
  ghost predicate Timed(calls: seq<Call>, lag: real) {
    && 0.0 <= lag
    && (forall i :: 0 <= i < |calls| ==> calls[i].seen <= calls[i].at <= calls[i].swept)
    && (forall i :: 0 <= i < |calls| ==> calls[i].at - calls[i].seen <= lag)
    && forall i, j :: 0 <= i < j < |calls| ==> calls[i].swept <= calls[j].seen
  }

  /** The longest it takes, from the idle stamp of a call, until the bucket is full again:
      the token may be taken as late as the lag after the stamp. */
  ghost function RefillTime(l: Limits, lag: real): real {
    Max(l.full, lag) + Min(l.price, lag)
  }

  /** The bucket is full again within the time to live. */
  ghost predicate Refills(l: Limits, lag: real) {
    RefillTime(l, lag) <= TTL
  }

  /** The buckets of a key all refill in time. */
  ghost predicate KeyRefills(calls: seq<Call>, key: string, lag: real) {
    forall i :: 0 <= i < |calls| && calls[i].key == key ==> Positive(calls[i].limits) && Refills(calls[i].limits, lag)
  }

  // ----- the sweep is unobservable

  /** The time at which a bucket is full if nothing is taken any more. */
  ghost function FullAt(b: Bucket): real {
    b.last + (b.limits.full - b.credit)
  }

  // By the time an entry may be dropped its bucket is full.
  ghost predicate Sound(e: Entry) {
    Positive(e.bucket.limits) && 0.0 <= e.bucket.credit && FullAt(e.bucket) <= e.seen + TTL
  }

  /** On a key the swept table agrees with the kept one, or lacks a bucket idle too long. */
  ghost predicate Agree(t: Table, r: Table, key: string, clock: real) {
    && (key in r ==> Sound(r[key]))
    && (key in t ==> key in r && t[key] == r[key])
    && (key in r && key !in t ==> clock - r[key].seen > TTL)
  }

  lemma SameDraw(t: Table, r: Table, c: Call, clock: real)
    requires Agree(t, r, c.key, clock) && clock <= c.at
    ensures Allowed(t, c) == Allowed(r, c)
    ensures Withdraw(Current(t, c), c.at) == Withdraw(Current(r, c), c.at)
  {
    if c.key in r && c.key !in t {
      var b := r[c.key].bucket;
      assert Level(b, c.at) == b.limits.full;
    }
  }

  ghost predicate Prompt(c: Call, lag: real) {
    && c.seen <= c.at <= c.swept && c.at - c.seen <= lag
    && Positive(c.limits) && Refills(c.limits, lag)
  }

  // A bucket that was in credit when the call began is full again within the time to live.
  lemma FullAgain(b: Bucket, c: Call, lag: real)
    requires Prompt(c, lag) && b.limits == c.limits && 0.0 <= b.credit
    requires b.last <= c.seen || b == Full(c.limits, c.at)
    ensures Sound(Entry(Withdraw(b, c.at), c.seen))
  {
  }

  ghost predicate SeenBy(r: Table, key: string, clock: real) {
    key in r ==> r[key].seen <= clock && r[key].bucket.last <= clock
  }

  // A call of the key itself.
  lemma OwnStepAgrees(t: Table, r: Table, c: Call, clock: real, lag: real)
    requires Agree(t, r, c.key, clock) && clock <= c.seen && Prompt(c, lag) && SeenBy(r, c.key, clock)
    ensures Agree(After(t, c), Drawn(r, c), c.key, c.swept) && SeenBy(Drawn(r, c), c.key, c.swept)
  {
    SameDraw(t, r, c, clock);
    FullAgain(Current(r, c), c, lag);
    assert Drawn(t, c)[c.key] == Drawn(r, c)[c.key];
  }

  // A call of another key, whatever its limits.
  lemma OtherStepAgrees(t: Table, r: Table, c: Call, key: string, clock: real)
    requires Agree(t, r, key, clock) && clock <= c.swept && SeenBy(r, key, clock) && c.key != key
    ensures Agree(After(t, c), Drawn(r, c), key, c.swept) && SeenBy(Drawn(r, c), key, c.swept)
  {
  }

  // The clock before the k-th call: when the previous one swept.
  ghost function Clock(calls: seq<Call>, k: nat): real
    requires k <= |calls|
  {
    if k == 0 then (if calls == [] then 0.0 else calls[0].seen) else calls[k - 1].swept
  }

  /** What happens to a key's bucket depends on no other key. */
  lemma {:induction false} TablesAgree(
      ts: seq<Table>, rs: seq<Table>, calls: seq<Call>, key: string, k: nat, lag: real)
    requires IsRun(ts, calls) && IsKeptRun(rs, calls) && Timed(calls, lag) && KeyRefills(calls, key, lag)
    requires k <= |calls|
    ensures Agree(ts[k], rs[k], key, Clock(calls, k)) && SeenBy(rs[k], key, Clock(calls, k))
  {
    if k > 0 {
      TablesAgree(ts, rs, calls, key, k - 1, lag);
      assert Steps(ts, calls, k - 1) && KeptSteps(rs, calls, k - 1);
      if calls[k - 1].key == key {
        OwnStepAgrees(ts[k - 1], rs[k - 1], calls[k - 1], Clock(calls, k - 1), lag);
      } else {
        OtherStepAgrees(ts[k - 1], rs[k - 1], calls[k - 1], key, Clock(calls, k - 1));
      }
    }
  }

  /** No run can tell the registry from one that never drops a bucket by the answers to a key
      whose buckets refill in time, whatever the limits of other keys. */
  lemma SweepIsUnobservable(ts: seq<Table>, rs: seq<Table>, calls: seq<Call>, k: nat, lag: real)
    requires IsRun(ts, calls) && IsKeptRun(rs, calls) && Timed(calls, lag)
    requires k < |calls| && KeyRefills(calls, calls[k].key, lag)
    ensures Allowed(ts[k], calls[k]) == Allowed(rs[k], calls[k])
  {
    TablesAgree(ts, rs, calls, calls[k].key, k, lag);
    SameDraw(ts[k], rs[k], calls[k], Clock(calls, k));
  }

  // ----- the rate bound

  /** How many of the steps from i up to j are hits. */
  ghost function Count(hit: nat -> bool, i: nat, j: nat): nat
    requires i <= j
  {
    if i == j then 0 else Count(hit, i, j - 1) + if hit(j - 1) then 1 else 0
  }

  lemma {:induction false} SameCount(hit: nat -> bool, hit': nat -> bool, i: nat, j: nat)
    requires i <= j && forall k :: i <= k < j ==> hit(k) == hit'(k)
    ensures Count(hit, i, j) == Count(hit', i, j)
    decreases j
  {
    if i < j {
      SameCount(hit, hit', i, j - 1);
    }
  }

  /** The calls at which a key is admitted, for the tables of a run. */
  ghost function Admissions(ts: seq<Table>, calls: seq<Call>, key: string): nat -> bool
    requires |calls| < |ts|
  {
    (k: nat) => k < |calls| && calls[k].key == key && Allowed(ts[k], calls[k])
  }

  /** The sum of n equal prices. */
  ghost function Sum(price: real, n: nat): real {
    if n == 0 then 0.0 else Sum(price, n - 1) + price
  }

  lemma {:induction false} SumIsProduct(price: real, n: nat)
    ensures Sum(price, n) == n as real * price
  {
    if n > 0 {
      SumIsProduct(price, n - 1);
      assert n as real * price == (n - 1) as real * price + price;
    }
  }

  /** What a caller with the given limits would find in the bucket. */
  ghost function Credit(r: Table, key: string, l: Limits, now: real): real {
    if key in r && r[key].bucket.limits == l then Level(r[key].bucket, now) else l.full
  }

  // One call, some time after the credit was last looked at, is paid for.
  lemma CallSpendsCredit(r: Table, c: Call, key: string, l: Limits, t: real)
    requires Positive(l) && t <= c.at && Credit(r, key, l, t) >= 0.0 && (c.key == key ==> c.limits == l)
    ensures var paid := if c.key == key && Allowed(r, c) then l.price else 0.0;
            var left := Credit(Drawn(r, c), key, l, c.at);
            left >= 0.0 && paid + left <= Credit(r, key, l, t) + (c.at - t)
  {
  }

  ghost predicate Uses(calls: seq<Call>, key: string, l: Limits, i: nat, j: nat)
    requires i <= j <= |calls|
  {
    forall k :: i <= k < j && calls[k].key == key ==> calls[k].limits == l
  }

  lemma {:induction false} KeptIsPast(rs: seq<Table>, calls: seq<Call>, k: nat, key: string, lag: real)
    requires IsKeptRun(rs, calls) && k <= |calls| && Timed(calls, lag) && KeyRefills(calls, key, lag) && key in rs[k]
    ensures k > 0 && rs[k][key].bucket.last <= calls[k - 1].at && rs[k][key].bucket.credit >= 0.0
  {
    assert KeptSteps(rs, calls, k - 1);
    if key in rs[k - 1] {
      KeptIsPast(rs, calls, k - 1, key, lag);
    }
  }

  lemma OpeningCredit(rs: seq<Table>, calls: seq<Call>, key: string, l: Limits, i: nat, lag: real)
    requires IsKeptRun(rs, calls) && i < |calls| && Timed(calls, lag) && KeyRefills(calls, key, lag) && Positive(l)
    ensures 0.0 <= Credit(rs[i], key, l, calls[i].at) <= l.full
  {
    if key in rs[i] {
      KeptIsPast(rs, calls, i, key, lag);
      assert calls[i - 1].swept <= calls[i].seen;
    }
  }

  // Every admission is paid for from the credit at the start and what flows in since.
  lemma {:induction false} AdmissionsArePaid(
      rs: seq<Table>, calls: seq<Call>, key: string, l: Limits, i: nat, j: nat, lag: real)
    requires IsKeptRun(rs, calls) && i < j <= |calls| && Timed(calls, lag) && Positive(l) && Uses(calls, key, l, i, j)
    requires Credit(rs[i], key, l, calls[i].at) >= 0.0
    ensures var left := Credit(rs[j], key, l, calls[j - 1].at);
            && left >= 0.0
            && Sum(l.price, Count(Admissions(rs, calls, key), i, j)) + left <=
               Credit(rs[i], key, l, calls[i].at) + (calls[j - 1].at - calls[i].at)
    decreases j
  {
    var seen := if i == j - 1 then calls[i].at else calls[j - 2].at;
    if i < j - 1 {
      AdmissionsArePaid(rs, calls, key, l, i, j - 1, lag);
      assert calls[j - 2].swept <= calls[j - 1].seen;
    }
    assert KeptSteps(rs, calls, j - 1);
    CallSpendsCredit(rs[j - 1], calls[j - 1], key, l, seen);
  }

  lemma SameAdmissions(ts: seq<Table>, rs: seq<Table>, calls: seq<Call>, key: string, i: nat, j: nat, lag: real)
    requires IsRun(ts, calls) && IsKeptRun(rs, calls) && Timed(calls, lag) && KeyRefills(calls, key, lag)
    requires i <= j <= |calls|
    ensures Count(Admissions(ts, calls, key), i, j) == Count(Admissions(rs, calls, key), i, j)
  {
    var hit, hit' := Admissions(ts, calls, key), Admissions(rs, calls, key);
    forall k | i <= k < j
      ensures hit(k) == hit'(k)
    {
      if calls[k].key == key {
        SweepIsUnobservable(ts, rs, calls, k, lag);
      }
    }
    SameCount(hit, hit', i, j);
  }

  lemma KeptRunOf(calls: seq<Call>) returns (rs: seq<Table>)
    ensures IsKeptRun(rs, calls)
  {
    rs := RunOf((r, c) => Drawn(r, c), calls);
    assert forall k :: 0 <= k < |calls| ==> KeptSteps(rs, calls, k);
  }

  lemma AdmissionsInSeconds(ts: seq<Table>, calls: seq<Call>, key: string, l: Limits, i: nat, j: nat, lag: real)
    requires IsRun(ts, calls) && Timed(calls, lag) && KeyRefills(calls, key, lag)
    requires i < j <= |calls| && Positive(l) && Uses(calls, key, l, i, j)
    ensures Sum(l.price, Count(Admissions(ts, calls, key), i, j)) <= l.full + (calls[j - 1].at - calls[i].at)
  {
    var rs := KeptRunOf(calls);
    SameAdmissions(ts, rs, calls, key, i, j, lag);
    OpeningCredit(rs, calls, key, l, i, lag);
    AdmissionsArePaid(rs, calls, key, l, i, j, lag);
  }

  /** The most a key may be admitted in so many seconds. */
  ghost function Quota(rps: real, burst: int, seconds: real): real {
    burst as real + rps * seconds
  }

  lemma InTokens(l: Limits, n: nat, seconds: real)
    requires Lawful(l)
    ensures n as real <= Quota(l.rps, l.burst, seconds) <==> Sum(l.price, n) <= l.full + seconds
  {
    SumIsProduct(l.price, n);
    PaidInTokens(n as real, l.price, l.rps);
    QuotaInSeconds(Sum(l.price, n), n as real, l.full, l.burst, seconds, l.rps);
  }

  lemma QuotaInSeconds(paid: real, tokens: real, full: real, burst: int, seconds: real, rps: real)
    requires 0.0 < rps && paid * rps == tokens && full * rps == burst as real
    ensures tokens <= Quota(rps, burst, seconds) <==> paid <= full + seconds
  {
    Scaled(paid, full + seconds, rps);
    Scaled(full + seconds, paid, rps);
    Distributes(full, seconds, rps);
    assert seconds * rps == rps * seconds;
  }

  lemma PaidInTokens(n: real, price: real, rps: real)
    requires price * rps == 1.0
    ensures (n * price) * rps == n
  {
    assert (n * price) * rps == n * (price * rps);
  }

  lemma WithinLimits(ts: seq<Table>, calls: seq<Call>, key: string, l: Limits, i: nat, j: nat, lag: real)
    requires IsRun(ts, calls) && Timed(calls, lag) && KeyRefills(calls, key, lag)
    requires i < j <= |calls| && Lawful(l) && Uses(calls, key, l, i, j)
    ensures Count(Admissions(ts, calls, key), i, j) as real <= Quota(l.rps, l.burst, calls[j - 1].at - calls[i].at)
  {
    LawfulIsPositive(l);
    AdmissionsInSeconds(ts, calls, key, l, i, j, lag);
    InTokens(l, Count(Admissions(ts, calls, key), i, j), calls[j - 1].at - calls[i].at);
  }

  /** For any stretch of calls of any run, the admissions of a key are at most the configured
      burst plus what the configured rate allows for the time between the first and the last of
      them, with 200 and 100 where none are configured. Other keys do not matter. */
  lemma AdmissionsAreBounded(
      ts: seq<Table>, calls: seq<Call>, key: string, rps: real, burst: int, i: nat, j: nat, lag: real)
    requires IsRun(ts, calls) && Timed(calls, lag) && KeyRefills(calls, key, lag)
    requires i < j <= |calls| && Uses(calls, key, LimitsOf(rps, burst), i, j)
    ensures Count(Admissions(ts, calls, key), i, j) as real <=
            Quota(if rps > 0.0 then rps else 100.0, if burst > 0 then burst else 200, calls[j - 1].at - calls[i].at)
  {
    LimitsAreLawful(rps, burst);
    WithinLimits(ts, calls, key, LimitsOf(rps, burst), i, j, lag);
  }
}
