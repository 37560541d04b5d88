/** When exactly dropping idle buckets goes unnoticed: if and only if a bucket is full again
    within the time to live, however late within a call its token is taken. For limits that
    are not, a run is built in which the sweep hands a key a full bucket it has not waited for. */
module RateLimitExact {
  import opened RateLimit

  /** No run of calls with these limits and at most this lag tells the two registries apart. */
  ghost predicate Unnoticed(l: Limits, lag: real) {
    forall calls, ts, rs, k: nat ::
      IsRun(ts, calls) && IsKeptRun(rs, calls) && Timed(calls, lag) && AllUse(calls, l) && k < |calls| ==>
        Allowed(ts[k], calls[k]) == Allowed(rs[k], calls[k])
  }

  ghost predicate AllUse(calls: seq<Call>, l: Limits) {
    forall i :: 0 <= i < |calls| ==> calls[i].limits == l
  }

  // ----- the story

  const OTHERS: nat := SWEEP_EVERY - 1

  // How long before time 0 the burst is spent, so that one more token is there after the lag.
  ghost function Lead(l: Limits, lag: real): real {
    Max(0.0, l.price - lag)
  }

  // What is left when that token has been taken.
  ghost function Left(l: Limits, lag: real): real {
    Min(Lead(l, lag) + lag, l.full) - l.price
  }

  /** The run: a key spends its burst, one call of its takes a token the whole lag after its
      stamp at time 0, as many other keys as it takes to set off a sweep call at time late,
      and then the key calls again. */
  ghost predicate Story(calls: seq<Call>, l: Limits, lag: real, late: real) {
    && Tellable(l, lag, late)
    && |calls| == l.burst + 1 + OTHERS + l.burst
    && forall k :: 0 <= k < |calls| ==> calls[k] == StoryCall(l, lag, late, k)
  }

  ghost predicate Tellable(l: Limits, lag: real, late: real) {
    && Positive(l) && l.burst > 0 && Sum(l.price, l.burst) == l.full
    && 0.0 <= lag && Max(TTL, lag) < late < RefillTime(l, lag)
  }

  ghost function StoryCall(l: Limits, lag: real, late: real, k: nat): Call {
    if k < l.burst then Instant("", l, -Lead(l, lag))
    else if k == l.burst then Call("", l, 0.0, lag, lag)
    else Instant(if k - l.burst - 1 < OTHERS then Name(k - l.burst - 1) else "", l, late)
  }

  ghost function Instant(key: string, l: Limits, now: real): Call {
    Call(key, l, now, now, now)
  }

  ghost function Name(i: nat): (s: string)
    ensures |s| == i + 1
  {
    seq(i + 1, _ => 'x')
  }

  lemma {:induction false} SumGrows(price: real, i: nat, j: nat)
    requires 0.0 < price && i < j
    ensures Sum(price, i) + price <= Sum(price, j)
    decreases j
  {
    if i < j - 1 {
      SumGrows(price, i, j - 1);
    }
  }

  // Having spent k tokens at time t, with nothing flowing in since.
  ghost predicate Spent(t: Table, l: Limits, start: real, k: nat, now: real) {
    "" in t && t[""] == Entry(Bucket(l, start - Sum(l.price, k), now), now)
  }

  lemma SpendOne(t: Table, l: Limits, start: real, k: nat, now: real)
    requires Positive(l) && start <= l.full
    requires if k == 0 then "" !in t && start == l.full else Spent(t, l, start, k, now)
    requires Allowed(t, Instant("", l, now))
    ensures Spent(Drawn(t, Instant("", l, now)), l, start, k + 1, now)
  {
    if k > 0 {
      SumGrows(l.price, 0, k);
    }
  }

  lemma MayAfford(t: Table, l: Limits, k: nat, now: real)
    requires Positive(l) && k < l.burst && Sum(l.price, l.burst) == l.full
    requires if k == 0 then "" !in t else Spent(t, l, l.full, k, now)
    ensures Allowed(t, Instant("", l, now))
  {
    SumGrows(l.price, k, l.burst);
  }

  // First act, for either registry.
  lemma {:induction false} BurstIsSpent(
      ts: seq<Table>, rs: seq<Table>, calls: seq<Call>, l: Limits, lag: real, late: real, k: nat)
    requires Story(calls, l, lag, late) && IsRun(ts, calls) && IsKeptRun(rs, calls) && k <= l.burst
    ensures ts[k] == rs[k]
    ensures if k == 0 then ts[k] == map[] else ts[k].Keys == {""} && Spent(ts[k], l, l.full, k, -Lead(l, lag))
  {
    if k > 0 {
      BurstIsSpent(ts, rs, calls, l, lag, late, k - 1);
      assert Steps(ts, calls, k - 1) && KeptSteps(rs, calls, k - 1);
      MayAfford(ts[k - 1], l, k - 1, -Lead(l, lag));
      SpendOne(ts[k - 1], l, l.full, k - 1, -Lead(l, lag));
      NoSweepYet(ts[k - 1], calls[k - 1]);
    }
  }

  lemma NoSweepYet(t: Table, c: Call)
    requires c.key == "" && t.Keys <= {""}
    ensures After(t, c) == Drawn(t, c) && Drawn(t, c).Keys == {""} && |Drawn(t, c)| == 1
  {
    assert Drawn(t, c).Keys == {""};
    assert |Drawn(t, c)| == |{""}|;
  }

  ghost predicate Waits(t: Table, l: Limits, lag: real) {
    "" in t && t[""] == Entry(Bucket(l, Left(l, lag), lag), 0.0)
  }

  lemma LateToken(t: Table, l: Limits, lag: real)
    requires Positive(l) && 0.0 <= lag && l.burst > 0 && Sum(l.price, l.burst) == l.full
    requires Spent(t, l, l.full, l.burst, -Lead(l, lag))
    ensures var c := Call("", l, 0.0, lag, lag); Allowed(t, c) && Waits(Drawn(t, c), l, lag)
  {
  }

  // Second act: one more key a call, none of them swept until the table is large enough.
  lemma {:induction false} OthersCall(
      ts: seq<Table>, rs: seq<Table>, calls: seq<Call>, l: Limits, lag: real, late: real, i: nat)
    requires Story(calls, l, lag, late) && IsRun(ts, calls) && IsKeptRun(rs, calls) && i < OTHERS
    ensures var m := l.burst + 1 + i;
            && |ts[m]| == i + 1 && (forall k :: k in ts[m] ==> |k| <= i)
            && Waits(ts[m], l, lag) && Waits(rs[m], l, lag)
  {
    var m := l.burst + 1 + i;
    assert Steps(ts, calls, m - 1) && KeptSteps(rs, calls, m - 1);
    if i == 0 {
      BurstIsSpent(ts, rs, calls, l, lag, late, l.burst);
      NoSweepYet(ts[m - 1], calls[m - 1]);
      LateToken(ts[m - 1], l, lag);
    } else {
      OthersCall(ts, rs, calls, l, lag, late, i - 1);
      assert calls[m - 1] == Instant(Name(i - 1), l, late);
      OneMoreKey(ts[m - 1], calls[m - 1], i);
    }
  }

  lemma OneMoreKey(t: Table, c: Call, i: nat)
    requires |t| == i && (forall k :: k in t ==> |k| < i) && |c.key| == i
    ensures |Drawn(t, c)| == i + 1 && forall k :: k in Drawn(t, c) ==> |k| <= i
    ensures forall k :: k in t ==> k in Drawn(t, c) && Drawn(t, c)[k] == t[k]
  {
    assert c.key !in t;
    assert Drawn(t, c).Keys == t.Keys + {c.key};
  }

  lemma KeyIsSwept(ts: seq<Table>, rs: seq<Table>, calls: seq<Call>, l: Limits, lag: real, late: real)
    requires Story(calls, l, lag, late) && IsRun(ts, calls) && IsKeptRun(rs, calls)
    ensures var m := l.burst + 1 + OTHERS; "" !in ts[m] && Waits(rs[m], l, lag)
  {
    var i := OTHERS - 1;
    var m := l.burst + 1 + i;
    OthersCall(ts, rs, calls, l, lag, late, i);
    assert Steps(ts, calls, m) && KeptSteps(rs, calls, m);
    assert calls[m] == Instant(Name(i), l, late);
    OneMoreKey(ts[m], calls[m], i + 1);
  }

  // Last act, in the swept registry: the key has its whole burst again.
  lemma {:induction false} SweptAllowsAll(
      ts: seq<Table>, rs: seq<Table>, calls: seq<Call>, l: Limits, lag: real, late: real, j: nat)
    requires Story(calls, l, lag, late) && IsRun(ts, calls) && IsKeptRun(rs, calls) && j < l.burst
    ensures var m := l.burst + 1 + OTHERS + j;
            && (if j == 0 then "" !in ts[m] else Spent(ts[m], l, l.full, j, late))
            && Allowed(ts[m], calls[m])
  {
    var m := l.burst + 1 + OTHERS + j;
    if j == 0 {
      KeyIsSwept(ts, rs, calls, l, lag, late);
    } else {
      SweptAllowsAll(ts, rs, calls, l, lag, late, j - 1);
      assert Steps(ts, calls, m - 1);
      var c := calls[m - 1];
      assert c == Instant("", l, late);
      SpendOne(ts[m - 1], l, l.full, j - 1, late);
      assert Spent(Drawn(ts[m - 1], c), l, l.full, j, late);
    }
    assert calls[m] == Instant("", l, late);
    MayAfford(ts[m], l, j, late);
  }

  // What has flowed in by then: less than a full bucket.
  ghost function Flowed(l: Limits, lag: real, late: real): real {
    Left(l, lag) + (late - lag)
  }

  lemma NotFullYet(l: Limits, lag: real, late: real)
    requires Tellable(l, lag, late)
    ensures Flowed(l, lag, late) < l.full
  {
  }

  // Last act, in the kept registry: only what has flowed in can be spent.
  lemma {:induction false} KeptRefusesOne(
      ts: seq<Table>, rs: seq<Table>, calls: seq<Call>, l: Limits, lag: real, late: real, j: nat) returns (k: nat)
    requires Story(calls, l, lag, late) && IsRun(ts, calls) && IsKeptRun(rs, calls) && j <= l.burst
    requires var m := l.burst + 1 + OTHERS + j; var e := Flowed(l, lag, late);
             if j == 0 then Waits(rs[m], l, lag) else Spent(rs[m], l, e, j, late) && Sum(l.price, j) <= e
    ensures k < l.burst
    ensures var m := l.burst + 1 + OTHERS + k; !Allowed(rs[m], calls[m])
    decreases l.burst - j
  {
    var m, e := l.burst + 1 + OTHERS + j, Flowed(l, lag, late);
    NotFullYet(l, lag, late);
    assert j < l.burst;
    assert calls[m] == Instant("", l, late);
    if !Allowed(rs[m], calls[m]) {
      k := j;
    } else {
      assert KeptSteps(rs, calls, m);
      if j > 0 {
        SpendOne(rs[m], l, e, j, late);
      }
      assert Spent(rs[m + 1], l, e, j + 1, late);
      k := KeptRefusesOne(ts, rs, calls, l, lag, late, j + 1);
    }
  }

  // ----- the theorem

  lemma RunsOf(calls: seq<Call>) returns (ts: seq<Table>, rs: seq<Table>)
    ensures IsRun(ts, calls) && IsKeptRun(rs, calls)
  {
    ts := RunOf((t, c) => After(t, c), calls);
    assert forall k :: 0 <= k < |calls| ==> Steps(ts, calls, k);
    rs := KeptRunOf(calls);
  }

  lemma StoryOf(l: Limits, lag: real, late: real) returns (calls: seq<Call>)
    requires Tellable(l, lag, late)
    ensures Story(calls, l, lag, late) && Timed(calls, lag) && AllUse(calls, l)
  {
    calls := seq(l.burst + 1 + OTHERS + l.burst, (k: nat) => StoryCall(l, lag, late, k));
  }

  lemma FullIsSum(l: Limits)
    requires Lawful(l)
    ensures Sum(l.price, l.burst) == l.full
  {
    SumIsProduct(l.price, l.burst);
    var s := l.burst as real * l.price;
    assert s * l.rps == l.burst as real * (l.price * l.rps);
    Scaled(s, l.full, l.rps);
    Scaled(l.full, s, l.rps);
  }

  lemma Noticed(l: Limits, lag: real, late: real)
    requires Tellable(l, lag, late)
    ensures !Unnoticed(l, lag)
  {
    var calls := StoryOf(l, lag, late);
    var ts, rs := RunsOf(calls);
    KeyIsSwept(ts, rs, calls, l, lag, late);
    var j := KeptRefusesOne(ts, rs, calls, l, lag, late, 0);
    SweptAllowsAll(ts, rs, calls, l, lag, late, j);
    var k := l.burst + 1 + OTHERS + j;
    assert Allowed(ts[k], calls[k]) != Allowed(rs[k], calls[k]);
  }

  /** Dropping idle buckets goes unnoticed exactly when a bucket refills in time. */
  lemma UnnoticedIff(l: Limits, lag: real)
    requires Lawful(l) && 0.0 <= lag
    ensures Unnoticed(l, lag) <==> Refills(l, lag)
  {
    LawfulIsPositive(l);
    if Refills(l, lag) {
      forall calls, ts, rs, k: nat |
        IsRun(ts, calls) && IsKeptRun(rs, calls) && Timed(calls, lag) && AllUse(calls, l) && k < |calls|
        ensures Allowed(ts[k], calls[k]) == Allowed(rs[k], calls[k])
      {
        SweepIsUnobservable(ts, rs, calls, k, lag);
      }
    } else {
      FullIsSum(l);
      Noticed(l, lag, (Max(TTL, lag) + RefillTime(l, lag)) / 2.0);
    }
  }

  // ----- the rate bound

  /** In every run of calls with these limits and at most this lag, no key is ever admitted more
      often than its burst and its rate allow. */
  ghost predicate Bounded(l: Limits, lag: real) {
    forall calls, ts, key, i: nat, j: nat ::
      IsRun(ts, calls) && Timed(calls, lag) && AllUse(calls, l) && i < j <= |calls| ==>
        WithinQuota(ts, calls, key, l, i, j)
  }

  ghost predicate WithinQuota(ts: seq<Table>, calls: seq<Call>, key: string, l: Limits, i: nat, j: nat)
    requires |calls| < |ts| && i < j <= |calls|
  {
    Count(Admissions(ts, calls, key), i, j) as real <= Quota(l.rps, l.burst, calls[j - 1].at - calls[i].at)
  }

  lemma {:induction false} CountSplits(hit: nat -> bool, i: nat, m: nat, j: nat)
    requires i <= m <= j
    ensures Count(hit, i, j) == Count(hit, i, m) + Count(hit, m, j)
    decreases j
  {
    if m < j {
      CountSplits(hit, i, m, j - 1);
    }
  }

  lemma {:induction false} CountAll(hit: nat -> bool, i: nat, j: nat, all: bool)
    requires i <= j && forall k :: i <= k < j ==> hit(k) == all
    ensures Count(hit, i, j) == if all then j - i else 0
    decreases j
  {
    if i < j {
      CountAll(hit, i, j - 1, all);
    }
  }

  lemma {:induction false} SumAdds(price: real, m: nat, n: nat)
    ensures Sum(price, m + n) == Sum(price, m) + Sum(price, n)
  {
    if n > 0 {
      SumAdds(price, m, n - 1);
    }
  }

  // The key is admitted whenever it calls.
  lemma StoryHit(
      ts: seq<Table>, rs: seq<Table>, calls: seq<Call>, l: Limits, lag: real, late: real, k: nat)
    requires Story(calls, l, lag, late) && IsRun(ts, calls) && IsKeptRun(rs, calls) && k < |calls|
    ensures Admissions(ts, calls, "")(k) <==> !(l.burst + 1 <= k < l.burst + 1 + OTHERS)
  {
    if k < l.burst {
      BurstIsSpent(ts, rs, calls, l, lag, late, k);
      MayAfford(ts[k], l, k, -Lead(l, lag));
    } else if k == l.burst {
      BurstIsSpent(ts, rs, calls, l, lag, late, k);
      LateToken(ts[k], l, lag);
    } else if l.burst + 1 + OTHERS <= k {
      SweptAllowsAll(ts, rs, calls, l, lag, late, k - (l.burst + 1 + OTHERS));
    }
  }

  lemma TwoStretches(hit: nat -> bool, a: nat, b: nat, c: nat)
    requires a < b <= c && forall k :: 0 <= k < c ==> (hit(k) <==> !(a + 1 <= k < b))
    ensures Count(hit, 0, c) == a + 1 + (c - b) && Count(hit, a, c) == 1 + (c - b)
  {
    CountAll(hit, 0, a, true);
    CountAll(hit, a, a + 1, true);
    CountAll(hit, a + 1, b, false);
    CountAll(hit, b, c, true);
    CountSplits(hit, a + 1, b, c);
    CountSplits(hit, a, a + 1, c);
    CountSplits(hit, 0, a, c);
  }

  // The story tells of two bursts and a token between them.
  lemma StoryAdmissions(ts: seq<Table>, rs: seq<Table>, calls: seq<Call>, l: Limits, lag: real, late: real)
    requires Story(calls, l, lag, late) && IsRun(ts, calls) && IsKeptRun(rs, calls)
    ensures var hit := Admissions(ts, calls, "");
            Count(hit, 0, |calls|) == l.burst + 1 + l.burst && Count(hit, l.burst, |calls|) == 1 + l.burst
  {
    var hit := Admissions(ts, calls, "");
    forall k: nat | k < |calls|
      ensures hit(k) <==> !(l.burst + 1 <= k < l.burst + 1 + OTHERS)
    {
      StoryHit(ts, rs, calls, l, lag, late, k);
    }
    TwoStretches(hit, l.burst, l.burst + 1 + OTHERS, |calls|);
  }

  // Too many for the time since the first of them, or, with a long lag, since the token.
  lemma StoryExceeds(ts: seq<Table>, rs: seq<Table>, calls: seq<Call>, l: Limits, lag: real, late: real)
    requires Lawful(l) && Story(calls, l, lag, late) && IsRun(ts, calls) && IsKeptRun(rs, calls)
    ensures !WithinQuota(ts, calls, "", l, 0, |calls|) || !WithinQuota(ts, calls, "", l, l.burst, |calls|)
  {
    var b, n := l.burst, |calls|;
    StoryAdmissions(ts, rs, calls, l, lag, late);
    assert calls[0].at == -Lead(l, lag) && calls[b].at == lag && calls[n - 1].at == late;
    SumAdds(l.price, b, 1 + b);
    SumAdds(l.price, 1, b);
    assert Sum(l.price, 0) == 0.0 && Sum(l.price, 1) == l.price;
    InTokens(l, b + 1 + b, late + Lead(l, lag));
    InTokens(l, 1 + b, late - lag);
  }

  /** The rate bound holds in all runs exactly when a bucket refills in time. */
  lemma BoundedIff(l: Limits, lag: real)
    requires Lawful(l) && 0.0 <= lag
    ensures Bounded(l, lag) <==> Refills(l, lag)
  {
    LawfulIsPositive(l);
    if Refills(l, lag) {
      forall calls, ts, key, i: nat, j: nat |
        IsRun(ts, calls) && Timed(calls, lag) && AllUse(calls, l) && i < j <= |calls|
        ensures WithinQuota(ts, calls, key, l, i, j)
      {
        WithinLimits(ts, calls, key, l, i, j, lag);
      }
    } else {
      FullIsSum(l);
      var late := (Max(TTL, lag) + RefillTime(l, lag)) / 2.0;
      var calls := StoryOf(l, lag, late);
      var ts, rs := RunsOf(calls);
      StoryExceeds(ts, rs, calls, l, lag, late);
    }
  }

  // ----- a burst

  /** The key has called so often at this one instant since its bucket was new. */
  ghost predicate Drained(t: Table, key: string, l: Limits, n: nat, now: real) {
    if n == 0 || l.burst < 0 then key !in t
    else key in t && t[key] == Entry(Bucket(l, l.full - Sum(l.price, if n < l.burst then n else l.burst), now), now)
  }

  ghost predicate AtOnce(calls: seq<Call>, i: nat, j: nat, now: real)
    requires i <= j <= |calls|
  {
    forall q :: i <= q < j ==> calls[q].seen == calls[q].at == calls[q].swept == now
  }

  ghost function CallsOf(calls: seq<Call>, key: string): nat -> bool {
    (q: nat) => q < |calls| && calls[q].key == key
  }

  lemma OwnCall(t: Table, key: string, l: Limits, n: nat, now: real)
    requires Lawful(l) && Drained(t, key, l, n, now)
    ensures Allowed(t, Instant(key, l, now)) <==> n < l.burst
    ensures Drained(Drawn(t, Instant(key, l, now)), key, l, n + 1, now)
  {
    LawfulIsPositive(l);
    FullIsSum(l);
    if n < l.burst {
      SumGrows(l.price, n, l.burst);
    }
    if 0 < n <= l.burst {
      SumGrows(l.price, 0, n);
    }
    if n > l.burst {
      SumGrows(l.price, 0, l.burst);
    }
  }

  // Neither a call of another key nor a sweep at the same instant touches the bucket.
  lemma StaysDrained(t: Table, c: Call, key: string, l: Limits, n: nat, now: real)
    requires c.swept == now && Drained(Drawn(t, c), key, l, n, now)
    ensures Drained(After(t, c), key, l, n, now)
  {
  }

  lemma {:induction false} BurstSoFar(
      ts: seq<Table>, calls: seq<Call>, key: string, l: Limits, i: nat, q: nat, now: real)
    requires IsRun(ts, calls) && i <= q <= |calls| && AtOnce(calls, i, q, now) && Uses(calls, key, l, i, q)
    requires Lawful(l) && key !in ts[i]
    ensures Drained(ts[q], key, l, Count(CallsOf(calls, key), i, q), now)
    decreases q
  {
    if i < q {
      BurstSoFar(ts, calls, key, l, i, q - 1, now);
      assert Steps(ts, calls, q - 1);
      var n, c := Count(CallsOf(calls, key), i, q - 1), calls[q - 1];
      if c.key == key {
        assert c == Instant(key, l, now);
        OwnCall(ts[q - 1], key, l, n, now);
        StaysDrained(ts[q - 1], c, key, l, n + 1, now);
      } else {
        StaysDrained(ts[q - 1], c, key, l, n, now);
      }
    }
  }

  /** Of the calls of a new key at one instant, whatever other keys call between them, exactly
      as many are allowed as the configured burst, and they are the first. */
  lemma BurstIsExact(
      ts: seq<Table>, calls: seq<Call>, key: string, rps: real, burst: int, i: nat, q: nat, now: real)
    requires IsRun(ts, calls) && i <= q < |calls| && AtOnce(calls, i, q + 1, now) && key !in ts[i]
    requires calls[q].key == key && Uses(calls, key, LimitsOf(rps, burst), i, q + 1)
    ensures Allowed(ts[q], calls[q]) <==>
            Count(CallsOf(calls, key), i, q) < if burst > 0 then burst else 200
  {
    var l := LimitsOf(rps, burst);
    LimitsAreLawful(rps, burst);
    BurstSoFar(ts, calls, key, l, i, q, now);
    assert calls[q] == Instant(key, l, now);
    OwnCall(ts[q], key, l, Count(CallsOf(calls, key), i, q), now);
  }

  /** Limits that change take effect at once: the next call starts from a full bucket with the new
      ones, and so does the next with the old ones again. */
  lemma ChangedLimitsStartFull(t: Table, c: Call)
    requires Positive(c.limits) && c.key in t && t[c.key].bucket.limits != c.limits
    ensures Allowed(t, c)
    ensures Drawn(t, c)[c.key].bucket == Bucket(c.limits, c.limits.full - c.limits.price, c.at)
  {
  }
}
