/** The lazy rebuild of the Maglev table as atomic steps of concurrent callers.

    Health changes and table reads happen under the read-write lock, so each critical
    section that touches only those is one step. The dirty flag is an atomic variable
    outside the lock, so loading, setting and clearing it are steps of their own. */
module MaglevRebuild {
  import opened Basics
  import opened Maglev
  import opened MaglevPicks
  import opened Probing

  type Tid = nat

  datatype Pc =
    | Idle
    | Marked      // a health change is recorded, the dirty flag not yet set
    | SawDirty    // Next has loaded a set flag and wants the write lock
    | Rebuilding  // holds the write lock, has loaded a set flag again
    | Rebuilt     // holds the write lock, table built, flag not yet cleared
    | Unlocking   // holds the write lock, about to release it
    | Ready       // Next is about to select under the read lock
    | Wedged      // the build panicked; the write lock stays held

  datatype State = State(
    hashes: seq<Hash>, healthy: seq<bool>, lastCheck: seq<int>, table: seq<nat>, dirty: bool,
    writer: Option<Tid>, pc: map<Tid, Pc>)

  datatype Step =
    | SetHealth(t: Tid, i: nat, up: bool, now: int)
    | ReportUnknown(t: Tid)
    | SetDirty(t: Tid)
    | LoadDirty(t: Tid)
    | Lock(t: Tid)
    | Build(t: Tid, built: seq<nat>)
    | Panic(t: Tid, partial: seq<nat>)
    | ClearDirty(t: Tid)
    | Unlock(t: Tid)
    | Select(t: Tid, hash: nat)

  ghost predicate At(s: State, t: Tid, p: Pc) {
    t in s.pc && s.pc[t] == p
  }

  ghost function Go(s: State, t: Tid, p: Pc): State {
    s.(pc := s.pc[t := p])
  }

  /** The balanced table that belongs to the hashes and the health of the upstreams. */
  ghost predicate Proper(t: seq<nat>, hashes: seq<Hash>, healthy: seq<bool>) {
    TableFor(t, healthy) && IsTable(t, hashes, healthy)
  }

  ghost predicate Enabled(s: State, step: Step) {
    match step
    case SetHealth(t, i, _, _) => At(s, t, Idle) && s.writer.None? && i < |s.healthy| == |s.lastCheck|
    case ReportUnknown(t) => At(s, t, Idle) && s.writer.None?
    case SetDirty(t) => At(s, t, Marked)
    case LoadDirty(t) => At(s, t, Idle)
    case Lock(t) => At(s, t, SawDirty) && s.writer.None?
    case Build(t, built) =>
      At(s, t, Rebuilding) &&
      if AliveCount(s.healthy) == 0 then built == s.table
      else Proper(built, s.hashes, s.healthy) && |built| == |s.table|
    case Panic(t, partial) =>
      At(s, t, Rebuilding) && |partial| == |s.table| && forall k :: 0 <= k < |partial| ==> partial[k] < |s.healthy|
    case ClearDirty(t) => At(s, t, Rebuilt)
    case Unlock(t) => At(s, t, Unlocking)
    case Select(t, _) => At(s, t, Ready) && s.writer.None?
  }

  ghost function Apply(s: State, step: Step): State
    requires Enabled(s, step)
  {
    match step
    case SetHealth(t, i, up, now) =>
      if s.healthy[i] == up then s
      else Go(s, t, Marked).(healthy := s.healthy[i := up], lastCheck := s.lastCheck[i := now])
    case ReportUnknown(t) => s
    case SetDirty(t) => Go(s, t, Idle).(dirty := true)
    case LoadDirty(t) => Go(s, t, if s.dirty then SawDirty else Ready)
    case Lock(t) => Go(s, t, if s.dirty then Rebuilding else Unlocking).(writer := Some(t))
    case Build(t, built) => Go(s, t, Rebuilt).(table := built)
    case Panic(t, partial) => Go(s, t, Wedged).(table := partial)
    case ClearDirty(t) => Go(s, t, Unlocking).(dirty := false)
    case Unlock(t) => Go(s, t, Ready).(writer := None)
    case Select(t, _) => Go(s, t, Idle)
  }

  /** What Next answers for a request with the given hash. */
  function Choose(s: State, hash: nat): Option<nat> {
    if |s.healthy| == 0 || |s.table| == 0 then None
    else
      var i := s.table[hash % |s.table|];
      if i < |s.healthy| && s.healthy[i] then Some(i)
      else if FirstHealthy(s.healthy).Some? then FirstHealthy(s.healthy)
      else if s.lastCheck == [] then None else Some(Oldest(s.lastCheck))
  }

  function FirstHealthy(healthy: seq<bool>): (r: Option<nat>)
    ensures r.Some? ==> r.value < |healthy| && healthy[r.value]
    ensures r.Some? ==> forall i :: 0 <= i < r.value ==> !healthy[i]
    ensures r.None? ==> forall i :: 0 <= i < |healthy| ==> !healthy[i]
  {
    if healthy == [] then None
    else if healthy[0] then Some(0)
    else
      var r := FirstHealthy(healthy[1..]);
      assert forall i :: 1 <= i < |healthy| ==> healthy[i] == healthy[1..][i - 1];
      if r.None? then None else Some(r.value + 1)
  }

  /** A constructed balancer: everything healthy and the table built for that. */
  ghost predicate Init(s: State, size: nat) {
    && |s.lastCheck| == |s.healthy| == |s.hashes|
    && (forall i :: 0 <= i < |s.healthy| ==> s.healthy[i])
    && (if s.healthy == [] then s.table == [] else |s.table| == size > 0 && Proper(s.table, s.hashes, s.healthy))
    && !s.dirty && s.writer.None? && forall t :: t in s.pc ==> s.pc[t] == Idle
  }

  ghost predicate Run(run: seq<State>, steps: seq<Step>, size: nat) {
    && |run| == |steps| + 1
    && Init(run[0], size)
    && forall k :: 0 <= k < |steps| ==> Enabled(run[k], steps[k]) && run[k + 1] == Apply(run[k], steps[k])
  }

  // ----- the invariant

  ghost predicate Current(s: State) {
    AliveCount(s.healthy) > 0 ==> Proper(s.table, s.hashes, s.healthy)
  }

  ghost predicate MarkerPending(s: State) {
    exists t :: t in s.pc && s.pc[t] == Marked
  }

  predicate Locks(p: Pc) {
    p.Rebuilding? || p.Rebuilt? || p.Unlocking? || p.Wedged?
  }

  ghost predicate ShapeInv(s: State) {
    && |s.lastCheck| == |s.healthy| && (|s.healthy| > 0 ==> |s.table| > 0)
    && forall k :: 0 <= k < |s.table| ==> s.table[k] < |s.healthy|
  }

  /** One thread at most holds the write lock, and the flag stays set until it has built. */
  ghost predicate LockInv(s: State) {
    && (forall t :: t in s.pc ==> (Locks(s.pc[t]) <==> s.writer == Some(t)))
    && forall t :: t in s.pc && (s.pc[t].Rebuilding? || s.pc[t].Wedged?) ==> s.dirty
  }

  ghost predicate TableInv(s: State) {
    && (forall t :: t in s.pc && s.pc[t] == Rebuilt ==> Current(s))
    && (s.dirty || MarkerPending(s) || Current(s))
  }

  ghost predicate Inv(s: State) {
    ShapeInv(s) && LockInv(s) && TableInv(s)
  }

  lemma StepKeepsShape(s: State, step: Step)
    requires ShapeInv(s) && Enabled(s, step)
    ensures ShapeInv(Apply(s, step))
  {
  }

  lemma StepKeepsLock(s: State, step: Step)
    requires LockInv(s) && Enabled(s, step)
    ensures LockInv(Apply(s, step))
  {
  }

  // A step that leaves health and table alone leaves the table as current as it was.
  lemma SameTable(s: State, r: State)
    requires r.hashes == s.hashes && r.healthy == s.healthy && r.table == s.table
    ensures Current(r) <==> Current(s)
  {
  }

  lemma StepKeepsTable(s: State, step: Step)
    requires LockInv(s) && TableInv(s) && Enabled(s, step)
    ensures TableInv(Apply(s, step))
  {
    var r := Apply(s, step);
    match step
    case SetHealth(t, i, up, now) =>
      if s.healthy[i] != up {
        assert t in r.pc && r.pc[t] == Marked;
        assert s.writer.None? && forall u :: u in s.pc ==> !Locks(s.pc[u]);
      }
    case SetDirty(t) => SameTable(s, r);
    case Build(t, built) => assert Current(r);
    case Panic(t, _) => assert r.dirty && forall u :: u in r.pc ==> r.pc[u] != Rebuilt;
    case ClearDirty(t) => SameTable(s, r);
    case LoadDirty(t) => OthersStillPending(s, r, t); SameTable(s, r);
    case Lock(t) => OthersStillPending(s, r, t); SameTable(s, r);
    case Unlock(t) => OthersStillPending(s, r, t); SameTable(s, r);
    case Select(t, _) => OthersStillPending(s, r, t); SameTable(s, r);
    case ReportUnknown(t) =>
  }

  lemma StepKeepsInv(s: State, step: Step)
    requires Inv(s) && Enabled(s, step)
    ensures Inv(Apply(s, step))
  {
    StepKeepsShape(s, step);
    StepKeepsLock(s, step);
    StepKeepsTable(s, step);
  }

  lemma OthersStillPending(s: State, r: State, t: Tid)
    requires t in s.pc && s.pc[t] != Marked && t in r.pc && r.pc == s.pc[t := r.pc[t]]
    ensures MarkerPending(s) ==> MarkerPending(r)
  {
    if MarkerPending(s) {
      var u :| u in s.pc && s.pc[u] == Marked;
      assert u in r.pc && r.pc[u] == Marked;
    }
  }

  lemma {:induction false} InvHoldsThroughout(run: seq<State>, steps: seq<Step>, size: nat, k: nat)
    requires Run(run, steps, size) && k < |run|
    ensures Inv(run[k])
  {
    if k == 0 {
      var s := run[0];
      SomeoneIsAlive(s.healthy, |s.healthy|);
      assert Current(s);
    } else {
      InvHoldsThroughout(run, steps, size, k - 1);
      StepKeepsInv(run[k - 1], steps[k - 1]);
    }
  }

  // ----- what callers rely on

  /** Whenever the flag is clear and no health report is half done, the table is the
      exactly balanced one for the current health, unless nothing is healthy. */
  lemma QuietTableIsCurrent(run: seq<State>, steps: seq<Step>, size: nat, k: nat)
    requires Run(run, steps, size) && k < |run|
    requires !run[k].dirty && !MarkerPending(run[k]) && AliveCount(run[k].healthy) > 0
    ensures Proper(run[k].table, run[k].hashes, run[k].healthy) && NamesOnlyHealthy(run[k].table, run[k].healthy)
    ensures forall hash: nat :: run[k].table != [] && Choose(run[k], hash) == Some(run[k].table[hash % |run[k].table|])
  {
    InvHoldsThroughout(run, steps, size, k);
    var s := run[k];
    assert NamesOnlyHealthy(s.table, s.healthy);
    SomeoneIsAlive(s.healthy, |s.healthy|);
  }

  lemma {:induction false} SameUpstreams(run: seq<State>, steps: seq<Step>, size: nat, k: nat)
    requires Run(run, steps, size) && k < |run|
    ensures run[k].hashes == run[0].hashes && |run[k].healthy| == |run[k].hashes|
    ensures |run[k].table| == if run[k].hashes == [] then 0 else size
  {
    if k > 0 {
      SameUpstreams(run, steps, size, k - 1);
    }
  }

  /** Balancers with the same upstreams, whatever happened to them, agree on every request once
      they are quiet with the same upstreams healthy. */
  lemma QuietBalancersAgree(
      run: seq<State>, steps: seq<Step>, run': seq<State>, steps': seq<Step>, size: nat, k: nat, k': nat, hash: nat)
    requires Run(run, steps, size) && Run(run', steps', size) && k < |run| && k' < |run'|
    requires !run[k].dirty && !MarkerPending(run[k]) && !run'[k'].dirty && !MarkerPending(run'[k'])
    requires run[k].hashes == run'[k'].hashes && run[k].healthy == run'[k'].healthy && AliveCount(run[k].healthy) > 0
    ensures run[k].table == run'[k'].table && Choose(run[k], hash) == Choose(run'[k'], hash)
  {
    QuietTableIsCurrent(run, steps, size, k);
    QuietTableIsCurrent(run', steps', size, k');
    SameUpstreams(run, steps, size, k);
    SameUpstreams(run', steps', size, k');
    TableIsUnique(run[k].table, run'[k'].table, run[k].hashes, run[k].healthy);
  }

  /** At every selection of every run Next answers a healthy upstream if there is one,
      and otherwise the upstream unchecked for longest. */
  lemma NextPrefersHealthy(run: seq<State>, steps: seq<Step>, size: nat, k: nat)
    requires Run(run, steps, size) && k < |steps| && steps[k].Select?
    ensures var s, r := run[k], Choose(run[k], steps[k].hash);
            && |s.lastCheck| == |s.healthy| && (s.healthy != [] ==> s.table != [])
            && (forall j :: 0 <= j < |s.table| ==> s.table[j] < |s.healthy|)
            && (s.healthy == [] <==> r.None?)
            && (AliveCount(s.healthy) > 0 ==> r.Some? && r.value < |s.healthy| && s.healthy[r.value])
            && (AliveCount(s.healthy) > 0 && r.value != s.table[steps[k].hash % |s.table|] ==>
                  !s.healthy[s.table[steps[k].hash % |s.table|]] && forall i :: 0 <= i < r.value ==> !s.healthy[i])
            && (s.healthy != [] && AliveCount(s.healthy) == 0 ==> r == Some(Oldest(s.lastCheck)))
  {
    InvHoldsThroughout(run, steps, size, k);
    SomeoneIsAlive(run[k].healthy, |run[k].healthy|);
  }

  // Reporting as down what is down leaves no trace.
  lemma DownStaysDown(s: State, step: Step)
    requires Enabled(s, step) && AliveCount(s.healthy) == 0 && !(step.SetHealth? && step.up)
    ensures Apply(s, step).healthy == s.healthy && Apply(s, step).lastCheck == s.lastCheck
  {
    SomeoneIsAlive(s.healthy, |s.healthy|);
  }

  /** Once nothing is healthy, failing probes are not stamped: however many requests fail and
      are reported, every selection answers one and the same upstream until some report is a
      success. */
  lemma {:induction false} ProbesOneOnly(run: seq<State>, steps: seq<Step>, size: nat, i: nat, k: nat)
    requires Run(run, steps, size) && i <= k < |run| && run[i].healthy != [] && AliveCount(run[i].healthy) == 0
    requires forall q :: i <= q < k ==> !(steps[q].SetHealth? && steps[q].up)
    ensures run[k].healthy == run[i].healthy && run[k].lastCheck == run[i].lastCheck != []
    ensures k < |steps| && steps[k].Select? ==>
              Choose(run[k], steps[k].hash) == Some(Oldest(run[i].lastCheck))
  {
    InvHoldsThroughout(run, steps, size, k);
    if i < k {
      ProbesOneOnly(run, steps, size, i, k - 1);
      DownStaysDown(run[k - 1], steps[k - 1]);
    }
    if k < |steps| && steps[k].Select? {
      NextPrefersHealthy(run, steps, size, k);
    }
  }

  /** The time of the last of the first k steps that changed the health of an upstream. */
  ghost function LastChange(run: seq<State>, steps: seq<Step>, i: nat, k: nat): int
    requires k <= |steps| < |run| && i < |run[0].lastCheck|
  {
    if k == 0 then run[0].lastCheck[i]
    else if steps[k - 1].SetHealth? && Flips(run[k - 1].healthy, run[k].healthy, i) then steps[k - 1].now
    else LastChange(run, steps, i, k - 1)
  }

  predicate Flips(before: seq<bool>, after: seq<bool>, i: nat) {
    i < |before| && i < |after| && before[i] != after[i]
  }

  lemma StepStamps(s: State, step: Step, i: nat)
    requires ShapeInv(s) && Enabled(s, step) && i < |s.lastCheck|
    ensures var r := Apply(s, step);
            && |r.lastCheck| == |s.lastCheck|
            && r.lastCheck[i] == if step.SetHealth? && Flips(s.healthy, r.healthy, i) then step.now else s.lastCheck[i]
  {
  }

  /** At every point of every run the time of last check of an upstream is that of the last
      report that changed its health, if there was one. */
  lemma {:induction false} ChangesAreStamped(run: seq<State>, steps: seq<Step>, size: nat, i: nat, k: nat)
    requires Run(run, steps, size) && k < |run| && i < |run[0].lastCheck|
    ensures |run[k].lastCheck| == |run[0].lastCheck| && run[k].lastCheck[i] == LastChange(run, steps, i, k)
  {
    if k > 0 {
      ChangesAreStamped(run, steps, size, i, k - 1);
      InvHoldsThroughout(run, steps, size, k - 1);
      StepStamps(run[k - 1], steps[k - 1], i);
    }
  }

  /** A report is the health of its upstream from then on, up to the next report on it. */
  lemma {:induction false} ReportStands(run: seq<State>, steps: seq<Step>, size: nat, i: nat, q: nat, k: nat)
    requires Run(run, steps, size) && q < k < |run| && steps[q].SetHealth? && steps[q].i == i
    requires forall p :: q < p < k ==> !(steps[p].SetHealth? && steps[p].i == i)
    ensures i < |run[k].healthy| && run[k].healthy[i] == steps[q].up
  {
    if q < k - 1 {
      ReportStands(run, steps, size, i, q, k - 1);
    }
  }

  lemma StaysWedged(s: State, step: Step, t: Tid)
    requires Enabled(s, step) && At(s, t, Wedged)
    ensures At(Apply(s, step), t, Wedged)
  {
  }

  /** After a panic in a rebuild the lock is never released, so no request is answered. */
  lemma {:induction false} NothingAfterPanic(run: seq<State>, steps: seq<Step>, size: nat, i: nat, k: nat, t: Tid)
    requires Run(run, steps, size) && i <= k < |run| && At(run[i], t, Wedged)
    ensures At(run[k], t, Wedged) && (k < |steps| ==> !steps[k].Select?)
  {
    if i < k {
      NothingAfterPanic(run, steps, size, i, k - 1, t);
      StaysWedged(run[k - 1], steps[k - 1], t);
    }
    InvHoldsThroughout(run, steps, size, k);
    assert Locks(run[k].pc[t]);
  }
}
