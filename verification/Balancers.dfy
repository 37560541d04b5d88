/** The round-robin, weighted and least-connections balancers and the upstream pool they
    share. With nothing healthy each of them probes the upstream unchecked for longest. */
module Balancers {
  import opened Basics
  import opened NumberTheory
  import opened Probing

  // ----- the pool

  class Pool {
    const urls: seq<string>
    const weights: seq<int>
    var healthy: seq<bool>
    var lastCheck: seq<int>

    ghost predicate Valid()
      reads this
    {
      |urls| == |weights| == |healthy| == |lastCheck|
    }

    constructor (urls: seq<string>, weights: seq<int>)
      requires |urls| == |weights|
      ensures Valid() && this.urls == urls && this.weights == weights
      ensures forall i :: 0 <= i < |urls| ==> healthy[i] && lastCheck[i] == 0
    {
      this.urls, this.weights := urls, weights;
      healthy, lastCheck := seq(|urls|, _ => true), seq(|urls|, _ => 0);
    }

    /** Records a health report; an unknown URL is ignored and of several upstreams with
        one URL only the first is updated. */
    method MarkHealthy(url: string, up: bool, now: int)
      requires Valid()
      modifies this
      ensures Valid()
      ensures match FirstWith(urls, url)
              case None => healthy == old(healthy) && lastCheck == old(lastCheck)
              case Some(i) => healthy == old(healthy)[i := up] && lastCheck == old(lastCheck)[i := now]
    {
      for i := 0 to |urls|
        invariant FirstWith(urls, url) == FirstFrom(urls, url, i)
        invariant healthy == old(healthy) && lastCheck == old(lastCheck)
      {
        if urls[i] == url {
          healthy, lastCheck := healthy[i := up], lastCheck[i := now];
          return;
        }
      }
    }

    /** None is healthy, and k failing probes were made since the given checks. */
    ghost predicate Due(last: seq<int>, times: seq<int>, k: nat)
      reads this
    {
      && Valid() && |last| == |urls| > 0 && k <= |times| && NoneHealthy(healthy)
      && lastCheck == Checks(urls, last, times, k)
    }

    /** The failure of the probe that is due. */
    method FailProbe(r: nat, ghost last: seq<int>, ghost times: seq<int>, ghost k: nat, now: int)
      requires Due(last, times, k) && k < |times| && now == times[k] && r == Probed(urls, last, times, k)
      modifies this
      ensures Due(last, times, k + 1)
    {
      MarkHealthy(urls[r], false, now);
    }
  }

  // ----- cursors

  /** The upstream d places after the cursor, going round. */
  function At(n: nat, cursor: nat, d: nat): (i: nat)
    requires n > 0
    ensures i < n
  {
    (cursor + d) % n
  }

  /** The upstream d places after the cursor is the first healthy one. */
  ghost predicate FirstHealthyAfter(healthy: seq<bool>, cursor: nat, d: nat) {
    && d < |healthy|
    && healthy[At(|healthy|, cursor, d)]
    && forall e :: 0 <= e < d ==> !healthy[At(|healthy|, cursor, e)]
  }

  /** Upstream r is the first healthy one at or after the cursor, going round. */
  ghost predicate TakesFirst(healthy: seq<bool>, cursor: nat, r: nat) {
    exists d :: FirstHealthyAfter(healthy, cursor, d) && r == At(|healthy|, cursor, d)
  }

  ghost predicate NoneHealthy(healthy: seq<bool>) {
    forall i :: 0 <= i < |healthy| ==> !healthy[i]
  }

  lemma NextMultiple(k: nat, n: nat)
    ensures (k + 1) * n == k * n + n
  {
  }

  lemma PassesFrom(n: nat, k: nat, c: nat, i: nat) returns (d: nat)
    requires i < n && c < n
    ensures d < n && (k * n + c + d) % n == i
  {
    if c <= i {
      d := i - c;
      DivisionIsUnique(k * n + c + d, n, k, i);
    } else {
      d := i + n - c;
      NextMultiple(k, n);
      DivisionIsUnique(k * n + c + d, n, k + 1, i);
    }
  }

  ghost predicate AllHealthy(healthy: seq<bool>) {
    forall i :: 0 <= i < |healthy| ==> healthy[i]
  }

  // Going once round from the cursor passes every upstream.
  lemma PassesEveryone(n: nat, cursor: nat, i: nat) returns (d: nat)
    requires i < n
    ensures d < n && At(n, cursor, d) == i
  {
    d := PassesFrom(n, cursor / n, cursor % n, i);
  }

  lemma NobodyPassed(healthy: seq<bool>, cursor: nat)
    requires |healthy| > 0 && forall e :: 0 <= e < |healthy| ==> !healthy[At(|healthy|, cursor, e)]
    ensures NoneHealthy(healthy)
  {
    forall i | 0 <= i < |healthy|
      ensures !healthy[i]
    {
      var d := PassesEveryone(|healthy|, cursor, i);
    }
  }

  // Stepping a reduced cursor is stepping the cursor.
  lemma StepCursor(n: nat, c: nat, i: nat)
    requires n > 0
    ensures At(n, At(n, c, i), 1) == At(n, c + 1, i)
  {
    var x := c + i;
    var q, r := x / n, x % n;
    assert x == q * n + r;
    if r + 1 < n {
      DivisionIsUnique(x + 1, n, q, r + 1);
      DivisionIsUnique(r + 1, n, 0, r + 1);
    } else {
      assert x + 1 == (q + 1) * n;
      DivisionIsUnique(x + 1, n, q + 1, 0);
      DivisionIsUnique(r + 1, n, 1, 0);
    }
  }

  lemma FullTurn(n: nat, c: nat)
    requires c < n
    ensures At(n, c, 0) == c == At(n, c, n)
  {
    DivisionIsUnique(c, n, 0, c);
    DivisionIsUnique(c + n, n, 1, c);
  }

  // ----- round-robin

  const WORD: nat := 0x1_0000_0000_0000_0000

  /** A counter in a machine word. */
  function Wrap(x: nat): (r: nat)
    ensures r < WORD && (x < WORD ==> r == x)
  {
    x % WORD
  }

  /** The upstream that a call looks at in its d-th step. */
  function Looked(n: nat, counter: nat, d: nat): (i: nat)
    requires n > 0
    ensures i < n
  {
    Wrap(counter + d) % n
  }

  /** The upstreams that a call looks at in its first k steps. */
  ghost function Turn(n: nat, counter: nat, k: nat): (r: seq<nat>)
    requires n > 0
    ensures |r| == k && forall e :: 0 <= e < k ==> r[e] < n
  {
    if k == 0 then [] else Turn(n, counter, k - 1) + [Looked(n, counter, k - 1)]
  }

  lemma {:induction false} TurnAt(n: nat, counter: nat, k: nat, e: nat)
    requires n > 0 && e < k
    ensures Turn(n, counter, k)[e] == Looked(n, counter, e)
  {
    if e < k - 1 {
      TurnAt(n, counter, k - 1, e);
    }
  }

  ghost predicate NoneOf(healthy: seq<bool>, looked: seq<nat>) {
    forall e :: 0 <= e < |looked| ==> looked[e] < |healthy| && !healthy[looked[e]]
  }

  /** The step in which the first healthy upstream is looked at. */
  ghost predicate FoundAt(healthy: seq<bool>, looked: seq<nat>, d: nat) {
    d < |looked| && looked[d] < |healthy| && healthy[looked[d]] &&
    forall e :: 0 <= e < d ==> looked[e] < |healthy| && !healthy[looked[e]]
  }

  lemma AllHealthyTurn(healthy: seq<bool>, n: nat, counter: nat)
    requires 0 < n == |healthy| && AllHealthy(healthy) && counter < WORD
    ensures Turn(n, counter, n)[0] == counter % n && !NoneOf(healthy, Turn(n, counter, n))
    ensures forall d: nat :: FoundAt(healthy, Turn(n, counter, n), d) ==> d == 0
  {
    TurnAt(n, counter, n, 0);
    assert healthy[Turn(n, counter, n)[0]];
  }

  lemma NextWrap(x: nat)
    ensures Wrap(x % WORD + 1) == (x + 1) % WORD
  {
  }

  class RoundRobin {
    const pool: Pool
    var idx: nat

    ghost predicate Valid()
      reads this, pool
    {
      pool.Valid() && idx < WORD
    }

    constructor (pool: Pool)
      requires pool.Valid()
      ensures Valid() && this.pool == pool && idx == 0
    {
      this.pool, idx := pool, 0;
    }

    /** The counter's value and the upstream it stands for; the counter moves on. */
    method Step() returns (i: nat)
      requires Valid() && |pool.urls| > 0
      modifies this
      ensures Valid() && i == Looked(|pool.urls|, old(idx), 0) && idx == Wrap(old(idx) + 1)
    {
      i := idx % |pool.urls|;
      idx := Wrap(idx + 1);
    }

    /** A full turn of the counter, up to the first healthy upstream. */
    method Search() returns (r: Option<nat>, ghost d: nat)
      requires Valid() && |pool.urls| > 0
      modifies this
      ensures Valid()
      ensures r.None? ==> d == |pool.urls| - 1 && NoneOf(pool.healthy, Turn(|pool.urls|, old(idx), |pool.urls|))
      ensures r.Some? ==> FoundAt(pool.healthy, Turn(|pool.urls|, old(idx), |pool.urls|), d)
      ensures r.Some? ==> r.value == Turn(|pool.urls|, old(idx), |pool.urls|)[d]
      ensures idx == Wrap(old(idx) + d + 1)
    {
      var n := |pool.urls|;
      ghost var c, looked := idx, Turn(n, idx, n);
      for i := 0 to n
        invariant Valid() && idx == Wrap(c + i)
        invariant forall e :: 0 <= e < i ==> !pool.healthy[looked[e]]
      {
        TurnAt(n, c, n, i);
        NextStep(n, c, i);
        var u := Step();
        if pool.healthy[u] {
          return Some(u), i;
        }
      }
      return None, n - 1;
    }

    /** The first healthy upstream among those that a full turn of the counter looks at, and
        else the probe candidate. */
    method Next() returns (r: Option<nat>)
      requires Valid()
      modifies this
      ensures Valid()
      ensures |pool.urls| == 0 ==> r.None? && idx == old(idx)
      ensures |pool.urls| > 0 ==>
                var looked := Turn(|pool.urls|, old(idx), |pool.urls|);
                if NoneOf(pool.healthy, looked) then
                  r == Some(Oldest(pool.lastCheck)) && idx == Wrap(old(idx) + |pool.urls|)
                else
                  exists d: nat ::
                    FoundAt(pool.healthy, looked, d) && r == Some(looked[d]) && idx == Wrap(old(idx) + d + 1)
    {
      if |pool.urls| == 0 {
        return None;
      }
      ghost var d;
      r, d := Search();
      if r.None? {
        r := ProbeCandidate(pool.lastCheck);
      }
    }

    // A call with everything healthy.
    method HealthyCall() returns (r: nat)
      requires Valid() && |pool.urls| > 0 && AllHealthy(pool.healthy)
      modifies this
      ensures Valid() && r == old(idx) % |pool.urls| && idx == Wrap(old(idx) + 1)
    {
      AllHealthyTurn(pool.healthy, |pool.urls|, idx);
      var next := Next();
      r := next.value;
    }

    /** Calls in a row with everything healthy: the answers go up by one, round and round, from
        where the counter stands. */
    method HealthyCalls(m: nat) returns (answers: seq<nat>)
      requires Valid() && |pool.urls| > 0 && AllHealthy(pool.healthy)
      modifies this
      ensures Valid() && |answers| == m
      ensures forall k :: 0 <= k < m ==> answers[k] == (old(idx) + k) % WORD % |pool.urls|
    {
      answers := [];
      for k := 0 to m
        invariant Valid() && |answers| == k && idx == (old(idx) + k) % WORD
        invariant forall j :: 0 <= j < k ==> answers[j] == (old(idx) + j) % WORD % |pool.urls|
      {
        NextWrap(old(idx) + k);
        var r := HealthyCall();
        answers := answers + [r];
      }
    }

    /** One probe and its failure. */
    method ProbeOnce(ghost last: seq<int>, ghost times: seq<int>, ghost k: nat, now: int) returns (r: nat)
      requires Valid() && pool.Due(last, times, k) && k < |times| && now == times[k]
      modifies this, pool
      ensures Valid() && pool.Due(last, times, k + 1) && r == Probed(pool.urls, last, times, k)
    {
      var next := Next();
      r := next.value;
      pool.FailProbe(r, last, times, k, now);
    }

    /** Failing probes in a row, each at its time. */
    method FailingProbes(times: seq<int>) returns (answers: seq<nat>)
      requires Valid() && pool.Due(pool.lastCheck, times, 0)
      modifies this, pool
      ensures Valid() && pool.Due(old(pool.lastCheck), times, |times|)
      ensures answers == Answers(pool.urls, old(pool.lastCheck), times, |times|)
      ensures Ticking(old(pool.lastCheck), times) && |times| > |pool.urls| ==>
                (Cycles(answers, |pool.urls|) <==> Distinct(pool.urls))
    {
      ghost var last := pool.lastCheck;
      answers := [];
      for k := 0 to |times|
        invariant Valid() && pool.Due(last, times, k) && answers == Answers(pool.urls, last, times, k)
      {
        var r := ProbeOnce(last, times, k, times[k]);
        answers := answers + [r];
      }
      if Ticking(last, times) && |times| > |pool.urls| {
        AnswersCycleIff(pool.urls, last, times);
      }
    }
  }

  lemma NextStep(n: nat, c: nat, i: nat)
    requires n > 0
    ensures Looked(n, Wrap(c + i), 0) == Looked(n, c, i) && Wrap(Wrap(c + i) + 1) == Wrap(c + i + 1)
  {
  }

  /** A call with this counter looks at every one of n upstreams. */
  ghost predicate LooksAtAll(n: nat, counter: nat)
    requires n > 0
  {
    forall i: nat :: i < n ==> LooksAt(n, counter, i)
  }

  ghost predicate LooksAt(n: nat, counter: nat, i: nat)
    requires n > 0
  {
    exists d: nat :: d < n && Looked(n, counter, d) == i
  }

  lemma NoWrapLooksAtAll(n: nat, counter: nat)
    requires 0 < n && counter + n <= WORD
    ensures LooksAtAll(n, counter)
  {
    forall i: nat | i < n
      ensures LooksAt(n, counter, i)
    {
      var d := PassesEveryone(n, counter, i);
      assert Looked(n, counter, d) == i;
    }
  }

  // A word that is a multiple of n wraps without a jump.
  lemma EvenWrap(n: nat, q: nat, x: nat)
    requires 0 < n && WORD == q * n && x < 2 * WORD
    ensures Wrap(x) % n == x % n
  {
    if x >= WORD {
      var y := x - WORD;
      assert Wrap(x) == y;
      var p, r := y / n, y % n;
      assert y == p * n + r;
      assert x == (p + q) * n + r;
      DivisionIsUnique(x, n, p + q, r);
    }
  }

  lemma EvenWordLooksAtAll(n: nat, counter: nat)
    requires 0 < n <= WORD && counter < WORD && WORD % n == 0
    ensures LooksAtAll(n, counter)
  {
    var q := WORD / n;
    assert WORD == q * n;
    forall i: nat | i < n
      ensures LooksAt(n, counter, i)
    {
      var d := PassesEveryone(n, counter, i);
      EvenWrap(n, q, counter + d);
      assert Looked(n, counter, d) == i;
    }
  }

  // The upstream passed over when the counter wraps after so many steps of a call.
  function Skipped(n: nat, steps: nat): int
    requires n > 0
  {
    var m := WORD % n;
    if steps <= m then n - 1 else n + m - steps - 1
  }

  // Before the wrap the counter is so many short of the word.
  lemma LookedBeforeWrap(n: nat, short: nat)
    requires 0 < short < n <= WORD
    ensures var m := WORD % n; (WORD - short) % n == if short <= m then m - short else n + m - short
  {
    var q, m := WORD / n, WORD % n;
    assert WORD == q * n + m;
    if short <= m {
      DivisionIsUnique(WORD - short, n, q, m - short);
    } else {
      assert q >= 1;
      assert WORD - short == (q - 1) * n + (n + m - short);
      DivisionIsUnique(WORD - short, n, q - 1, n + m - short);
    }
  }

  lemma WrapSkips(n: nat, counter: nat)
    requires 0 < n <= WORD && counter < WORD < counter + n && WORD % n != 0
    ensures 0 <= Skipped(n, WORD - counter) < n && !LooksAt(n, counter, Skipped(n, WORD - counter))
  {
    var steps := WORD - counter;
    forall d: nat | d < n
      ensures Looked(n, counter, d) != Skipped(n, steps)
    {
      if d < steps {
        LookedBeforeWrap(n, steps - d);
      } else {
        assert Wrap(counter + d) == d - steps;
        DivisionIsUnique(d - steps, n, 0, d - steps);
      }
    }
  }

  /** Exactly when a call looks at every upstream: its counter does not wrap on the way, or
      the machine word is a multiple of their number. */
  lemma LooksAtAllIff(n: nat, counter: nat)
    requires 0 < n <= WORD && counter < WORD
    ensures LooksAtAll(n, counter) <==> counter + n <= WORD || WORD % n == 0
  {
    if counter + n <= WORD {
      NoWrapLooksAtAll(n, counter);
    } else if WORD % n == 0 {
      EvenWordLooksAtAll(n, counter);
    } else {
      WrapSkips(n, counter);
    }
  }

  /** A call finds a healthy upstream whenever there is one exactly if it looks at all. */
  lemma FindsHealthyIff(n: nat, counter: nat)
    requires 0 < n <= WORD && counter < WORD
    ensures (forall healthy: seq<bool> :: |healthy| == n && !NoneHealthy(healthy) ==>
               !NoneOf(healthy, Turn(n, counter, n))) <==>
            counter + n <= WORD || WORD % n == 0
  {
    LooksAtAllIff(n, counter);
    var looked := Turn(n, counter, n);
    if LooksAtAll(n, counter) {
      forall healthy: seq<bool> | |healthy| == n && !NoneHealthy(healthy)
        ensures !NoneOf(healthy, looked)
      {
        var i: nat :| i < n && healthy[i];
        assert LooksAt(n, counter, i);
        var d: nat :| d < n && Looked(n, counter, d) == i;
        TurnAt(n, counter, n, d);
      }
    } else {
      var u: nat :| u < n && !LooksAt(n, counter, u);
      var healthy := seq(n, i => i == u);
      assert healthy[u];
      forall e: nat | e < n
        ensures !healthy[looked[e]]
      {
        TurnAt(n, counter, n, e);
      }
      assert NoneOf(healthy, looked);
    }
  }

  /** A call that misses the one healthy upstream of three. */
  lemma WrapMisses()
    ensures NoneOf([false, true, false], Turn(3, WORD - 2, 3))
  {
    TurnAt(3, WORD - 2, 3, 0);
    TurnAt(3, WORD - 2, 3, 1);
    TurnAt(3, WORD - 2, 3, 2);
  }

  // ----- weighted round-robin

  function FullWeight(w: int): (r: int)
    ensures r >= 1 && r >= w && (r == w || r == 1)
  {
    if w <= 0 then 1 else w
  }

  lemma NextOfAll(healthy: seq<bool>, start: nat, k: nat, at: nat, r: nat)
    requires |healthy| > 0 && AllHealthy(healthy) && at == At(|healthy|, start, k)
    requires TakesFirst(healthy, at + 1, r)
    ensures r == At(|healthy|, start, k + 1) == (start + 1 + k) % |healthy|
  {
    StepCursor(|healthy|, start, k);
    assert healthy[At(|healthy|, at + 1, 0)];
    var d :| FirstHealthyAfter(healthy, at + 1, d) && r == At(|healthy|, at + 1, d);
  }

  class WeightedRoundRobin {
    const pool: Pool
    var weights: seq<int>
    var current: nat

    ghost predicate Valid()
      reads this, pool
    {
      && pool.Valid() && |weights| == |pool.urls|
      && (current < |pool.urls| || current == 0)
      && forall i :: 0 <= i < |weights| ==> 1 <= weights[i] <= FullWeight(pool.weights[i])
    }

    constructor (pool: Pool)
      requires pool.Valid()
      ensures Valid() && this.pool == pool && current == 0
    {
      this.pool, current := pool, 0;
      weights := seq(|pool.urls|, i requires 0 <= i < |pool.weights| => FullWeight(pool.weights[i]));
    }

    /** The counters never reach zero between calls, so they never exclude an upstream:
        the first healthy upstream after the cursor is always taken. */
    method Next() returns (r: Option<nat>)
      requires Valid()
      modifies this
      ensures Valid()
      ensures |pool.urls| == 0 ==> r.None?
      ensures |pool.urls| > 0 && NoneHealthy(pool.healthy) ==>
                r == Some(Oldest(pool.lastCheck)) && current == old(current)
      ensures !NoneHealthy(pool.healthy) ==>
                r == Some(current) && TakesFirst(pool.healthy, old(current) + 1, current)
    {
      var n := |pool.urls|;
      if n == 0 {
        return None;
      }
      ghost var c := current + 1;
      FullTurn(n, current);
      for i := 0 to n
        invariant current == At(n, c - 1, i) && weights == old(weights)
        invariant forall e :: 0 <= e < i ==> !pool.healthy[At(n, c, e)]
      {
        StepCursor(n, c - 1, i);
        current := At(n, current, 1);
        assert current == At(n, c, i) == At(n, c - 1, i + 1);
        if pool.healthy[current] && weights[current] > 0 {
          assert FirstHealthyAfter(pool.healthy, c, i);
          assert TakesFirst(pool.healthy, c, current);
          weights := weights[current := weights[current] - 1];
          if weights[current] == 0 {
            ResetHealthy();
          }
          return Some(current);
        }
      }
      NobodyPassed(pool.healthy, c);
      r := ProbeCandidate(pool.lastCheck);
    }

    /** Calls in a row with everything healthy: the answers go up by one, round and round, whatever
        the weights. */
    method HealthyCalls(m: nat) returns (answers: seq<nat>)
      requires Valid() && |pool.urls| > 0 && AllHealthy(pool.healthy)
      modifies this
      ensures Valid() && |answers| == m
      ensures forall k :: 0 <= k < m ==> answers[k] == (old(current) + 1 + k) % |pool.urls|
    {
      var n := |pool.urls|;
      answers := [];
      FullTurn(n, current);
      for k := 0 to m
        invariant Valid() && |answers| == k && current == At(n, old(current), k)
        invariant forall j :: 0 <= j < k ==> answers[j] == (old(current) + 1 + j) % n
      {
        ghost var at := current;
        assert pool.healthy[0];
        var r := Next();
        NextOfAll(pool.healthy, old(current), k, at, current);
        answers := answers + [r.value];
      }
    }

    /** One probe and its failure. */
    method ProbeOnce(ghost last: seq<int>, ghost times: seq<int>, ghost k: nat, now: int) returns (r: nat)
      requires Valid() && pool.Due(last, times, k) && k < |times| && now == times[k]
      modifies this, pool
      ensures Valid() && pool.Due(last, times, k + 1) && r == Probed(pool.urls, last, times, k)
    {
      var next := Next();
      r := next.value;
      pool.FailProbe(r, last, times, k, now);
    }

    /** Failing probes in a row, each at its time. */
    method FailingProbes(times: seq<int>) returns (answers: seq<nat>)
      requires Valid() && pool.Due(pool.lastCheck, times, 0)
      modifies this, pool
      ensures Valid() && pool.Due(old(pool.lastCheck), times, |times|)
      ensures answers == Answers(pool.urls, old(pool.lastCheck), times, |times|)
      ensures Ticking(old(pool.lastCheck), times) && |times| > |pool.urls| ==>
                (Cycles(answers, |pool.urls|) <==> Distinct(pool.urls))
    {
      ghost var last := pool.lastCheck;
      answers := [];
      for k := 0 to |times|
        invariant Valid() && pool.Due(last, times, k) && answers == Answers(pool.urls, last, times, k)
      {
        var r := ProbeOnce(last, times, k, times[k]);
        answers := answers + [r];
      }
      if Ticking(last, times) && |times| > |pool.urls| {
        AnswersCycleIff(pool.urls, last, times);
      }
    }

    method ResetHealthy()
      requires pool.Valid() && |weights| == |pool.urls|
      modifies this`weights
      ensures |weights| == |pool.urls|
      ensures forall i :: 0 <= i < |weights| ==>
                weights[i] == if pool.healthy[i] then FullWeight(pool.weights[i]) else old(weights)[i]
    {
      for j := 0 to |weights|
        invariant |weights| == |old(weights)|
        invariant forall i :: 0 <= i < |weights| ==>
                    weights[i] == if pool.healthy[i] && i < j then FullWeight(pool.weights[i]) else old(weights)[i]
      {
        if pool.healthy[j] {
          weights := weights[j := FullWeight(pool.weights[j])];
        }
      }
    }
  }

  // ----- least connections

  class LeastConnections {
    const pool: Pool
    var active: seq<int>

    ghost predicate Valid()
      reads this, pool
    {
      pool.Valid() && |active| == |pool.urls|
    }

    constructor (pool: Pool)
      requires pool.Valid()
      ensures Valid() && this.pool == pool && forall i :: 0 <= i < |active| ==> active[i] == 0
    {
      this.pool := pool;
      active := seq(|pool.urls|, _ => 0);
    }

    /** The first of the least loaded healthy upstreams, unless its count is -1. A count of -1
        doubles as "nothing found yet", so then it is the first of the least loaded that follow
        the last such upstream, or that upstream itself. */
    method Next() returns (r: Option<nat>)
      requires Valid()
      ensures |pool.urls| == 0 ==> r.None?
      ensures |pool.urls| > 0 && NoneHealthy(pool.healthy) ==> r == Some(Oldest(pool.lastCheck))
      ensures !NoneHealthy(pool.healthy) ==>
                r.Some? && exists p, q :: Chosen(active, pool.healthy, |active|, p, q, r.value)
    {
      r := None;
      var bestActive := -1;
      ghost var p, q := 0, 0;
      for i := 0 to |pool.urls|
        invariant r.None? ==> bestActive == -1 && forall j :: 0 <= j < i ==> !pool.healthy[j]
        invariant r.Some? ==> Chosen(active, pool.healthy, i, p, q, r.value) && bestActive == active[r.value]
      {
        if r.Some? {
          ChooseNext(active, pool.healthy, i, p, q, r.value);
        }
        if pool.healthy[i] {
          if r.None? || active[i] < active[p] {
            p := i;
          }
          if r.None? || active[i] == -1 {
            q := i;
          }
          if bestActive == -1 || active[i] < bestActive {
            bestActive, r := active[i], Some(i);
          }
        }
      }
      if r.None? {
        r := ProbeCandidate(pool.lastCheck);
      }
    }

    /** One probe and its failure. */
    method ProbeOnce(ghost last: seq<int>, ghost times: seq<int>, ghost k: nat, now: int) returns (r: nat)
      requires Valid() && pool.Due(last, times, k) && k < |times| && now == times[k]
      modifies pool
      ensures Valid() && pool.Due(last, times, k + 1) && r == Probed(pool.urls, last, times, k)
    {
      var next := Next();
      r := next.value;
      pool.FailProbe(r, last, times, k, now);
    }

    /** Failing probes in a row, each at its time. */
    method FailingProbes(times: seq<int>) returns (answers: seq<nat>)
      requires Valid() && pool.Due(pool.lastCheck, times, 0)
      modifies pool
      ensures Valid() && pool.Due(old(pool.lastCheck), times, |times|)
      ensures answers == Answers(pool.urls, old(pool.lastCheck), times, |times|)
      ensures Ticking(old(pool.lastCheck), times) && |times| > |pool.urls| ==>
                (Cycles(answers, |pool.urls|) <==> Distinct(pool.urls))
    {
      ghost var last := pool.lastCheck;
      answers := [];
      for k := 0 to |times|
        invariant Valid() && pool.Due(last, times, k) && answers == Answers(pool.urls, last, times, k)
      {
        var r := ProbeOnce(last, times, k, times[k]);
        answers := answers + [r];
      }
      if Ticking(last, times) && |times| > |pool.urls| {
        AnswersCycleIff(pool.urls, last, times);
      }
    }
  }

  /** Of the healthy upstreams with places from i up to k, the one at p is the first of the
      least loaded. */
  ghost predicate IsLeast(active: seq<int>, healthy: seq<bool>, i: nat, k: nat, p: nat)
    requires k <= |active| == |healthy|
  {
    && i <= p < k && healthy[p]
    && forall j :: i <= j < k && healthy[j] ==> active[p] <= active[j] && (j < p ==> active[p] < active[j])
  }

  /** The last healthy upstream with a count of -1. */
  ghost predicate IsLastUnset(active: seq<int>, healthy: seq<bool>, k: nat, q: nat)
    requires k <= |active| == |healthy|
  {
    q < k && healthy[q] && active[q] == -1 && forall j :: q < j < k && healthy[j] ==> active[j] != -1
  }

  ghost predicate NoneAfter(healthy: seq<bool>, p: nat, k: nat)
    requires k <= |healthy|
  {
    forall j :: p < j < k ==> !healthy[j]
  }

  /** The choice r among the first k upstreams, of which p is the first of the least loaded. */
  ghost predicate Chosen(active: seq<int>, healthy: seq<bool>, k: nat, p: nat, q: nat, r: nat)
    requires k <= |active| == |healthy|
  {
    && r < k && IsLeast(active, healthy, 0, k, p)
    && if active[p] != -1 then r == p
       else
         && IsLastUnset(active, healthy, k, q)
         && if NoneAfter(healthy, q, k) then r == q else IsLeast(active, healthy, q + 1, k, r)
  }

  // One more upstream is looked at.
  lemma ChooseNext(active: seq<int>, healthy: seq<bool>, k: nat, p: nat, q: nat, r: nat)
    requires k < |active| == |healthy| && Chosen(active, healthy, k, p, q, r)
    ensures if !healthy[k] then Chosen(active, healthy, k + 1, p, q, r)
            else Chosen(active, healthy, k + 1, if active[k] < active[p] then k else p,
                        if active[k] == -1 then k else q,
                        if active[r] == -1 || active[k] < active[r] then k else r)
  {
  }
}
