/** Which upstream is probed while none is healthy, and when failing probes rotate. */
module Probing {
  import opened Basics

  // ----- the probe candidate

  ghost predicate IsOldest(last: seq<int>, r: nat) {
    && r < |last|
    && (forall j :: 0 <= j < |last| ==> last[r] <= last[j])
    && forall j :: 0 <= j < r ==> last[r] < last[j]
  }

  /** The first upstream with the least time of last check. */
  function Oldest(last: seq<int>): (r: nat)
    requires |last| > 0
    ensures IsOldest(last, r)
  {
    OldestOf(last, |last|)
  }

  function OldestOf(last: seq<int>, k: nat): (r: nat)
    requires 0 < k <= |last|
    ensures r < k && (forall j :: 0 <= j < k ==> last[r] <= last[j]) && forall j :: 0 <= j < r ==> last[r] < last[j]
  {
    if k == 1 then 0
    else
      var r := OldestOf(last, k - 1);
      if last[k - 1] < last[r] then k - 1 else r
  }

  lemma OldestIs(last: seq<int>, r: nat)
    requires IsOldest(last, r)
    ensures Oldest(last) == r
  {
    var o := Oldest(last);
    assert last[o] <= last[r] && last[r] <= last[o];
  }

  method ProbeCandidate(last: seq<int>) returns (r: Option<nat>)
    ensures r == if |last| == 0 then None else Some(Oldest(last))
  {
    r := None;
    for i := 0 to |last|
      invariant r.None? <==> i == 0
      invariant r.Some? ==> r.value == OldestOf(last, i)
    {
      if r.None? || last[i] < last[r.value] {
        r := Some(i);
      }
    }
  }

  // ----- reports are by URL

  function FirstFrom(urls: seq<string>, url: string, i: nat): (r: Option<nat>)
    requires i <= |urls|
    ensures r.Some? ==> i <= r.value < |urls| && urls[r.value] == url && forall j :: i <= j < r.value ==> urls[j] != url
    ensures r.None? ==> forall j :: i <= j < |urls| ==> urls[j] != url
    decreases |urls| - i
  {
    if i == |urls| then None else if urls[i] == url then Some(i) else FirstFrom(urls, url, i + 1)
  }

  /** The first upstream with a URL. */
  function FirstWith(urls: seq<string>, url: string): Option<nat> {
    FirstFrom(urls, url, 0)
  }

  ghost predicate Distinct(urls: seq<string>) {
    forall i, j :: 0 <= i < j < |urls| ==> urls[i] != urls[j]
  }

  /** The upstream that a report on the i-th one reaches: the first with its URL. */
  function Reported(urls: seq<string>, i: nat): (r: nat)
    requires i < |urls|
    ensures r <= i && urls[r] == urls[i] && forall j :: 0 <= j < r ==> urls[j] != urls[i]
  {
    FirstWith(urls, urls[i]).value
  }

  // ----- failing probes

  /** The times of last check after the first k of a series of failing probes, with none
      healthy throughout. A probe goes to the oldest, and its failure is reported by URL. */
  function Checks(urls: seq<string>, last: seq<int>, times: seq<int>, k: nat): (r: seq<int>)
    requires |urls| == |last| > 0 && k <= |times|
    ensures |r| == |last|
  {
    if k == 0 then last
    else
      var before := Checks(urls, last, times, k - 1);
      before[Reported(urls, Oldest(before)) := times[k - 1]]
  }

  /** The upstream that the k-th probe goes to. */
  function Probed(urls: seq<string>, last: seq<int>, times: seq<int>, k: nat): (i: nat)
    requires |urls| == |last| > 0 && k <= |times|
    ensures i < |urls|
  {
    Oldest(Checks(urls, last, times, k))
  }

  /** Probes come one after the other, later than all checks so far. */
  ghost predicate Ticking(last: seq<int>, times: seq<int>) {
    && (forall a, b :: 0 <= a < b < |times| ==> times[a] < times[b])
    && forall i, a :: 0 <= i < |last| && 0 <= a < |times| ==> last[i] < times[a]
  }

  lemma {:induction false} ChecksArePast(urls: seq<string>, last: seq<int>, times: seq<int>, k: nat, i: nat, a: nat)
    requires |urls| == |last| > 0 && k <= a < |times| && i < |urls| && Ticking(last, times)
    ensures Checks(urls, last, times, k)[i] < times[a]
  {
    if k > 0 {
      ChecksArePast(urls, last, times, k - 1, i, a);
    }
  }

  /** The upstreams that the first k probes go to. */
  ghost function Answers(urls: seq<string>, last: seq<int>, times: seq<int>, k: nat): (r: seq<nat>)
    requires |urls| == |last| > 0 && k <= |times|
    ensures |r| == k
  {
    if k == 0 then [] else Answers(urls, last, times, k - 1) + [Probed(urls, last, times, k - 1)]
  }

  lemma {:induction false} AnswerAt(urls: seq<string>, last: seq<int>, times: seq<int>, k: nat, j: nat)
    requires |urls| == |last| > 0 && j < k <= |times|
    ensures Answers(urls, last, times, k)[j] == Probed(urls, last, times, j)
  {
    if j < k - 1 {
      AnswerAt(urls, last, times, k - 1, j);
    }
  }

  /** The probes of a series, by number. */
  function ProbesOf(urls: seq<string>, last: seq<int>, times: seq<int>): nat -> nat
    requires |urls| == |last| > 0
  {
    (k: nat) => if k <= |times| then Probed(urls, last, times, k) else 0
  }

  ghost predicate Visits(probe: nat -> nat, w: nat, n: nat, i: nat) {
    exists k :: w <= k < w + n && probe(k) == i
  }

  /** Of n upstreams each is probed exactly once by the n probes from w on. */
  ghost predicate VisitsAll(probe: nat -> nat, n: nat, w: nat) {
    && (forall i: nat :: i < n ==> Visits(probe, w, n, i))
    && forall a: nat, b: nat :: w <= a < b < w + n ==> probe(a) != probe(b)
  }

  ghost predicate Rotates(urls: seq<string>, last: seq<int>, times: seq<int>)
    requires |urls| == |last| > 0
  {
    forall w: nat :: w + |urls| <= |times| ==> VisitsAll(ProbesOf(urls, last, times), |urls|, w)
  }

  // ----- windows

  /** The upstreams probed by the j probes from w on. */
  ghost function Seen(probe: nat -> nat, w: nat, j: nat): set<nat> {
    if j == 0 then {} else Seen(probe, w, j - 1) + {probe(w + j - 1)}
  }

  lemma {:induction false} SeenHas(probe: nat -> nat, w: nat, j: nat, i: nat)
    ensures i in Seen(probe, w, j) <==> Visits(probe, w, j, i)
  {
    if j > 0 {
      SeenHas(probe, w, j - 1, i);
    }
  }

  lemma {:induction false} SeenSize(probe: nat -> nat, w: nat, j: nat)
    requires forall m: nat :: m < j ==> probe(w + m) !in Seen(probe, w, m)
    ensures |Seen(probe, w, j)| == j
  {
    if j > 0 {
      SeenSize(probe, w, j - 1);
    }
  }

  lemma AllSeen(seen: set<nat>, n: nat, i: nat)
    requires |seen| == n && i < n && forall x :: x in seen ==> x < n
    ensures i in seen
  {
    if i !in seen {
      AtMost(seen + {i}, n);
    }
  }

  lemma {:induction false} AtMost(s: set<nat>, n: nat)
    requires forall x :: x in s ==> x < n
    ensures |s| <= n
    decreases n
  {
    if n == 0 {
      assert s == {};
    } else {
      AtMost(s - {n - 1}, n - 1);
    }
  }

  // Probing each time what was not yet probed is probing all.
  lemma NewOnesOnly(probe: nat -> nat, n: nat, w: nat)
    requires forall k: nat :: probe(k) < n
    requires forall m: nat :: m < n ==> probe(w + m) !in Seen(probe, w, m)
    ensures VisitsAll(probe, n, w)
  {
    var seen := Seen(probe, w, n);
    SeenSize(probe, w, n);
    forall x | x in seen
      ensures x < n
    {
      SeenHas(probe, w, n, x);
    }
    forall i: nat | i < n
      ensures Visits(probe, w, n, i)
    {
      AllSeen(seen, n, i);
      SeenHas(probe, w, n, i);
    }
    forall a: nat, b: nat | w <= a < b < w + n
      ensures probe(a) != probe(b)
    {
      var m := b - w;
      assert probe(w + m) !in Seen(probe, w, m);
      SeenHas(probe, w, m, probe(a));
      assert Visits(probe, w, m, probe(a));
    }
  }

  // ----- distinct URLs

  // Those seen were checked later than the rest.
  ghost predicate Behind(checks: seq<int>, seen: set<nat>) {
    forall i, u :: i in seen && i < |checks| && 0 <= u < |checks| && u !in seen ==> checks[u] < checks[i]
  }

  lemma {:induction false} SomeUnseen(n: nat, seen: set<nat>) returns (u: nat)
    requires |seen| < n
    ensures u < n && u !in seen
    decreases n
  {
    if n - 1 !in seen {
      u := n - 1;
    } else {
      u := SomeUnseen(n - 1, seen - {n - 1});
    }
  }

  lemma OldestIsUnseen(checks: seq<int>, seen: set<nat>)
    requires |seen| < |checks| && Behind(checks, seen)
    ensures Oldest(checks) !in seen
  {
    var u := SomeUnseen(|checks|, seen);
    assert checks[Oldest(checks)] <= checks[u];
  }

  lemma StillBehind(checks: seq<int>, seen: set<nat>, p: nat, now: int)
    requires Behind(checks, seen) && p < |checks| && forall u :: 0 <= u < |checks| ==> checks[u] < now
    ensures Behind(checks[p := now], seen + {p})
  {
  }

  // What was seen is behind, and the oldest is not among it.
  ghost predicate Waiting(checks: seq<int>, seen: set<nat>, j: nat) {
    |seen| == j < |checks| && Behind(checks, seen) && Oldest(checks) !in seen
  }

  lemma NextWaits(checks: seq<int>, seen: set<nat>, j: nat, now: int)
    requires Waiting(checks, seen, j) && j + 1 < |checks| && forall u :: 0 <= u < |checks| ==> checks[u] < now
    ensures Waiting(checks[Oldest(checks) := now], seen + {Oldest(checks)}, j + 1)
  {
    StillBehind(checks, seen, Oldest(checks), now);
    OldestIsUnseen(checks[Oldest(checks) := now], seen + {Oldest(checks)});
  }

  // The k-th probe goes to the oldest of n and is stamped later than all of them.
  ghost predicate Stamps(checks: nat -> seq<int>, probe: nat -> nat, now: nat -> int, n: nat, k: nat) {
    && |checks(k)| == n > 0 && probe(k) == Oldest(checks(k)) && checks(k + 1) == checks(k)[Oldest(checks(k)) := now(k)]
    && forall u :: 0 <= u < n ==> checks(k)[u] < now(k)
  }

  lemma {:induction false} UnseenGoFirst(
      checks: nat -> seq<int>, probe: nat -> nat, now: nat -> int, n: nat, w: nat, j: nat)
    requires j < n && forall k: nat :: w <= k <= w + j ==> Stamps(checks, probe, now, n, k)
    ensures Waiting(checks(w + j), Seen(probe, w, j), j)
  {
    assert Stamps(checks, probe, now, n, w + j);
    if j > 0 {
      UnseenGoFirst(checks, probe, now, n, w, j - 1);
      assert Stamps(checks, probe, now, n, w + j - 1);
      NextWaits(checks(w + j - 1), Seen(probe, w, j - 1), j - 1, now(w + j - 1));
    }
  }

  function ChecksOf(urls: seq<string>, last: seq<int>, times: seq<int>): nat -> seq<int>
    requires |urls| == |last| > 0
  {
    (k: nat) => if k <= |times| then Checks(urls, last, times, k) else last
  }

  function TimeOf(times: seq<int>): nat -> int {
    (k: nat) => if k < |times| then times[k] else 0
  }

  lemma ProbeStamps(urls: seq<string>, last: seq<int>, times: seq<int>, k: nat)
    requires |urls| == |last| > 0 && Distinct(urls) && Ticking(last, times) && k < |times|
    ensures Stamps(ChecksOf(urls, last, times), ProbesOf(urls, last, times), TimeOf(times), |urls|, k)
  {
    var checks, p := Checks(urls, last, times, k), Probed(urls, last, times, k);
    forall u: nat | u < |checks|
      ensures checks[u] < times[k]
    {
      ChecksArePast(urls, last, times, k, u, k);
    }
    assert Reported(urls, p) == p;
  }

  /** With distinct URLs no upstream is probed twice while another waits. */
  lemma WindowVisitsAll(urls: seq<string>, last: seq<int>, times: seq<int>, w: nat)
    requires |urls| == |last| > 0 && Distinct(urls) && Ticking(last, times) && w + |urls| <= |times|
    ensures VisitsAll(ProbesOf(urls, last, times), |urls|, w)
  {
    var checks, probe, now, n := ChecksOf(urls, last, times), ProbesOf(urls, last, times), TimeOf(times), |urls|;
    forall k: nat | w <= k < w + n
      ensures Stamps(checks, probe, now, n, k)
    {
      ProbeStamps(urls, last, times, k);
    }
    forall m: nat | m < n
      ensures probe(w + m) !in Seen(probe, w, m)
    {
      UnseenGoFirst(checks, probe, now, n, w, m);
      assert Stamps(checks, probe, now, n, w + m);
    }
    ProbesAreInRange(urls, last, times, probe);
    NewOnesOnly(probe, n, w);
  }

  lemma ProbesAreInRange(urls: seq<string>, last: seq<int>, times: seq<int>, probe: nat -> nat)
    requires |urls| == |last| > 0 && probe == ProbesOf(urls, last, times)
    ensures forall k: nat :: probe(k) < |urls|
  {
  }

  // ----- repeated URLs

  lemma OlderStays(checks: seq<int>, r: nat, now: int)
    requires |checks| > 0 && r < |checks| && r != Oldest(checks) && checks[r] < now
    ensures Oldest(checks[r := now]) == Oldest(checks)
  {
    OldestIs(checks[r := now], Oldest(checks));
  }

  lemma RepeatStays(urls: seq<string>, last: seq<int>, times: seq<int>, k: nat)
    requires |urls| == |last| > 0 && Ticking(last, times) && k < |times|
    requires Reported(urls, Probed(urls, last, times, k)) != Probed(urls, last, times, k)
    ensures Probed(urls, last, times, k + 1) == Probed(urls, last, times, k)
  {
    var r := Reported(urls, Probed(urls, last, times, k));
    ChecksArePast(urls, last, times, k, r, k);
    OlderStays(Checks(urls, last, times, k), r, times[k]);
  }

  /** An upstream that another of the same URL precedes is never marked as checked, so once
      it is probed it is probed for ever. */
  lemma {:induction false} RepeatIsProbedForEver(urls: seq<string>, last: seq<int>, times: seq<int>, k: nat, m: nat)
    requires |urls| == |last| > 0 && Ticking(last, times) && k <= m <= |times|
    requires Reported(urls, Probed(urls, last, times, k)) != Probed(urls, last, times, k)
    ensures Probed(urls, last, times, m) == Probed(urls, last, times, k)
  {
    if k < m {
      RepeatIsProbedForEver(urls, last, times, k, m - 1);
      RepeatStays(urls, last, times, m - 1);
    }
  }

  /** Two upstreams of one URL: the second is probed from the second probe on. */
  lemma SecondOfTwo(times: seq<int>, m: nat)
    requires Ticking([0, 0], times) && 1 <= m <= |times|
    ensures Probed(["a", "a"], [0, 0], times, 0) == 0 && Probed(["a", "a"], [0, 0], times, m) == 1
  {
    var urls, last := ["a", "a"], [0, 0];
    OldestIs(last, 0);
    assert Checks(urls, last, times, 0) == last;
    assert Checks(urls, last, times, 1) == [times[0], 0];
    OldestIs([times[0], 0], 1);
    assert urls[0] == urls[1];
    RepeatIsProbedForEver(urls, last, times, 1, m);
  }

  // Two probes in a row of one upstream are in the same window, if not in that from 0 then in that from 1.
  lemma TwiceInARow(probe: nat -> nat, n: nat, j: nat)
    requires j < n && n > 1 && forall k: nat :: k < n && probe(k) == j ==> probe(k + 1) == j
    ensures !(VisitsAll(probe, n, 0) && VisitsAll(probe, n, 1))
  {
    if VisitsAll(probe, n, 0) {
      assert Visits(probe, 0, n, j);
      var k: nat :| k < n && probe(k) == j;
      assert probe(k + 1) == j;
    }
  }

  lemma RepeatStopsRotation(urls: seq<string>, last: seq<int>, times: seq<int>)
    requires |urls| == |last| > 0 && Ticking(last, times) && |times| > |urls| && !Distinct(urls)
    ensures !Rotates(urls, last, times)
  {
    var n, probe := |urls|, ProbesOf(urls, last, times);
    var i: nat, j: nat :| i < j < n && urls[i] == urls[j];
    assert Reported(urls, j) != j;
    forall k: nat | k < n && probe(k) == j
      ensures probe(k + 1) == j
    {
      RepeatIsProbedForEver(urls, last, times, k, k + 1);
    }
    TwiceInARow(probe, n, j);
  }

  /** Failing probes rotate, every window of as many as there are upstreams visiting each
      exactly once, if and only if no two upstreams have the same URL: so it is in every
      run of more probes than upstreams, whatever the checks so far and the clock. */
  lemma RotatesIff(urls: seq<string>, last: seq<int>, times: seq<int>)
    requires |urls| == |last| > 0 && Ticking(last, times) && |times| > |urls|
    ensures Rotates(urls, last, times) <==> Distinct(urls)
  {
    if Distinct(urls) {
      forall w: nat | w + |urls| <= |times|
        ensures VisitsAll(ProbesOf(urls, last, times), |urls|, w)
      {
        WindowVisitsAll(urls, last, times, w);
      }
    } else {
      RepeatStopsRotation(urls, last, times);
    }
  }

  // ----- the answers of a balancer

  function AnswersBy(answers: seq<nat>): nat -> nat {
    (k: nat) => if k < |answers| then answers[k] else 0
  }

  /** Every window of as many answers as there are upstreams has each of them once. */
  ghost predicate Cycles(answers: seq<nat>, n: nat) {
    forall w: nat :: w + n <= |answers| ==> VisitsAll(AnswersBy(answers), n, w)
  }

  lemma SameWindow(probe: nat -> nat, answer: nat -> nat, n: nat, w: nat)
    requires forall k :: w <= k < w + n ==> probe(k) == answer(k)
    ensures VisitsAll(probe, n, w) <==> VisitsAll(answer, n, w)
  {
    forall i: nat
      ensures Visits(probe, w, n, i) <==> Visits(answer, w, n, i)
    {
    }
  }

  lemma SameWindows(probe: nat -> nat, answer: nat -> nat, n: nat, m: nat)
    requires forall k: nat :: k < m ==> probe(k) == answer(k)
    ensures (forall w: nat :: w + n <= m ==> VisitsAll(probe, n, w)) <==>
            forall w: nat :: w + n <= m ==> VisitsAll(answer, n, w)
  {
    forall w: nat | w + n <= m
      ensures VisitsAll(probe, n, w) <==> VisitsAll(answer, n, w)
    {
      SameWindow(probe, answer, n, w);
    }
  }

  /** A balancer's answers to failing probes go round, each upstream once in every window, if
      and only if no two upstreams have the same URL. */
  lemma AnswersCycleIff(urls: seq<string>, last: seq<int>, times: seq<int>)
    requires |urls| == |last| > 0 && Ticking(last, times) && |times| > |urls|
    ensures Cycles(Answers(urls, last, times, |times|), |urls|) <==> Distinct(urls)
  {
    var answers := Answers(urls, last, times, |times|);
    forall k: nat | k < |times|
      ensures ProbesOf(urls, last, times)(k) == AnswersBy(answers)(k)
    {
      AnswerAt(urls, last, times, |times|, k);
    }
    SameWindows(ProbesOf(urls, last, times), AnswersBy(answers), |urls|, |times|);
    RotatesIff(urls, last, times);
  }
}
