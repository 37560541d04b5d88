/** Request coalescing in the target handler, as atomic steps of concurrent requests.

    The flight map is a concurrent map whose operations are atomic, and there is no lock
    around a sequence of them: recording a response and the deferred release each look the
    flight up again by key, so that they act on the requester's own flight has to be proved. */
module Coalesce {
  type Tid = nat
  type Key = string
  type FlightId = nat

  datatype Flight = Flight(closed: bool, recorded: bool)

  datatype Pc =
    | Idle
    | Arrived(key: Key)                                     // about to join or start a flight
    | Waiting(key: Key, flight: FlightId)
    | Woken(key: Key, flight: FlightId)                      // the channel is closed
    | Fetching(key: Key)                                     // a waiter that has to fetch for itself
    | Working(key: Key, flight: FlightId)                    // owner
    | Recording(key: Key, flight: FlightId, found: FlightId)  // owner, looked its flight up
    | Deferred(key: Key, flight: FlightId)                   // owner, left the handler, release pending
    | Closing(key: Key, flight: FlightId, found: FlightId)    // owner, looked the flight to close up
    | Deleting(key: Key, flight: FlightId)                   // owner, about to delete the map entry

  datatype State = State(table: map<Key, FlightId>, flights: seq<Flight>, pc: seq<Pc>)

  datatype Step =
    | Arrive(t: Tid, key: Key)
    | Join(t: Tid)
    | Wake(t: Tid)
    | ServeCached(t: Tid, streamed: bool)
    | Fetched(t: Tid)
    | LookUp(t: Tid)
    | Record(t: Tid)
    | Leave(t: Tid)          // a return or a panic, from anywhere
    | LookUpToClose(t: Tid)
    | CloseOnce(t: Tid)
    | Delete(t: Tid)

  predicate IsOwner(p: Pc) {
    p.Working? || p.Recording? || p.Deferred? || p.Closing? || p.Deleting?
  }

  ghost predicate CanMove(s: State, step: Step, p: Pc) {
    match step
    case Arrive(_, _) => p.Idle?
    case Join(_) => p.Arrived?
    case Wake(_) => p.Waiting? && p.flight < |s.flights| && s.flights[p.flight].closed
    case ServeCached(_, _) => p.Woken? && p.flight < |s.flights|
    case Fetched(_) => p.Fetching?
    case LookUp(_) => p.Working?
    case Record(_) => p.Recording? && p.found < |s.flights|
    case Leave(_) => p.Working? || p.Recording?
    case LookUpToClose(_) => p.Deferred?
    case CloseOnce(_) => p.Closing? && p.found < |s.flights|
    case Delete(_) => p.Deleting?
  }

  ghost predicate Enabled(s: State, step: Step) {
    step.t < |s.pc| && CanMove(s, step, s.pc[step.t])
  }

  /** Where a step takes its request. */
  ghost function Moved(s: State, step: Step, p: Pc): Pc
    requires CanMove(s, step, p)
  {
    match step
    case Arrive(_, key) => Arrived(key)
    case Join(_) => if p.key in s.table then Waiting(p.key, s.table[p.key]) else Working(p.key, |s.flights|)
    case Wake(_) => Woken(p.key, p.flight)
    case ServeCached(_, streamed) => if s.flights[p.flight].recorded && streamed then Idle else Fetching(p.key)
    case Fetched(_) => Idle
    case LookUp(_) => if p.key in s.table then Recording(p.key, p.flight, s.table[p.key]) else Deferred(p.key, p.flight)
    case Record(_) => Deferred(p.key, p.flight)
    case Leave(_) => Deferred(p.key, p.flight)
    case LookUpToClose(_) =>
      if p.key in s.table then Closing(p.key, p.flight, s.table[p.key]) else Deleting(p.key, p.flight)
    case CloseOnce(_) => Deleting(p.key, p.flight)
    case Delete(_) => Idle
  }

  ghost function Shared(s: State, step: Step, p: Pc): State
    requires CanMove(s, step, p)
  {
    match step
    case Join(_) =>
      if p.key in s.table then s
      else s.(table := s.table[p.key := |s.flights|], flights := s.flights + [Flight(false, false)])
    case Record(_) => s.(flights := s.flights[p.found := s.flights[p.found].(recorded := true)])
    case CloseOnce(_) => s.(flights := s.flights[p.found := s.flights[p.found].(closed := true)])
    case Delete(_) => s.(table := s.table - {p.key})
    case _ => s
  }

  ghost function Apply(s: State, step: Step): State
    requires Enabled(s, step)
  {
    var p := s.pc[step.t];
    Shared(s, step, p).(pc := s.pc[step.t := Moved(s, step, p)])
  }

  ghost predicate Init(s: State) {
    s.table == map[] && s.flights == [] && forall t :: 0 <= t < |s.pc| ==> s.pc[t].Idle?
  }

  ghost predicate StepsTo(run: seq<State>, steps: seq<Step>, k: nat)
    requires k < |steps| < |run|
  {
    Enabled(run[k], steps[k]) && run[k + 1] == Apply(run[k], steps[k])
  }

  ghost predicate Run(run: seq<State>, steps: seq<Step>) {
    && |run| == |steps| + 1 && Init(run[0])
    && forall k :: 0 <= k < |steps| ==> StepsTo(run, steps, k)
  }

  // ----- the invariant

  ghost predicate Owns(s: State, t: Tid, key: Key) {
    t < |s.pc| && IsOwner(s.pc[t]) && s.pc[t].key == key
  }

  /** A key is in the map exactly while one request owns it, under that request's flight, and
      both look-ups find that flight. */
  ghost predicate OwnerInv(s: State) {
    && (forall t :: 0 <= t < |s.pc| && IsOwner(s.pc[t]) ==>
          s.pc[t].key in s.table && s.table[s.pc[t].key] == s.pc[t].flight)
    && (forall t :: 0 <= t < |s.pc| && (s.pc[t].Recording? || s.pc[t].Closing?) ==> s.pc[t].found == s.pc[t].flight)
    && (forall t, u, key :: Owns(s, t, key) && Owns(s, u, key) ==> t == u)
    && (forall key :: key in s.table ==> exists t :: Owns(s, t, key))
  }

  /** Flights in the map are distinct. */
  ghost predicate MapInv(s: State) {
    && (forall key :: key in s.table ==> s.table[key] < |s.flights|)
    && (forall j, k :: j in s.table && k in s.table && s.table[j] == s.table[k] ==> j == k)
  }

  ghost predicate Held(s: State, f: FlightId) {
    exists t :: 0 <= t < |s.pc| && Holds(s.pc[t], f)
  }

  // The owner has not closed its flight yet.
  predicate Holds(p: Pc, f: FlightId) {
    IsOwner(p) && !p.Deleting? && p.flight == f
  }

  /** A flight is open exactly until its owner has closed it. */
  ghost predicate OpenInv(s: State) {
    forall f :: 0 <= f < |s.flights| ==> (s.flights[f].closed <==> !Held(s, f))
  }

  ghost predicate WaitInv(s: State) {
    forall t :: 0 <= t < |s.pc| && (s.pc[t].Waiting? || s.pc[t].Woken?) ==>
      s.pc[t].flight < |s.flights| && (s.pc[t].Woken? ==> s.flights[s.pc[t].flight].closed)
  }

  ghost predicate Inv(s: State) {
    OwnerInv(s) && MapInv(s) && OpenInv(s) && WaitInv(s)
  }

  ghost predicate Starts(s: State, step: Step, key: Key)
    requires Enabled(s, step)
  {
    step.Join? && s.pc[step.t].key == key && key !in s.table
  }

  lemma OwnersAfter(s: State, step: Step, t: Tid, key: Key)
    requires Enabled(s, step)
    ensures Owns(Apply(s, step), t, key) <==>
            (Owns(s, t, key) && step != Delete(t)) || (Starts(s, step, key) && t == step.t)
  {
  }

  // An owner's flight is the one under its key.
  lemma FlightKnown(s: State, step: Step, t: Tid)
    requires Enabled(s, step) && OwnerInv(s) && t < |s.pc| && IsOwner(Apply(s, step).pc[t])
    ensures var r := Apply(s, step); r.pc[t].key in r.table && r.table[r.pc[t].key] == r.pc[t].flight
  {
    assert Owns(Apply(s, step), t, Apply(s, step).pc[t].key);
    OwnersAfter(s, step, t, Apply(s, step).pc[t].key);
    if step.Delete? {
      assert Owns(s, step.t, s.pc[step.t].key);
    }
  }

  lemma StepKeepsOwners(s: State, step: Step)
    requires Enabled(s, step) && OwnerInv(s)
    ensures OwnerInv(Apply(s, step))
  {
    var r := Apply(s, step);
    forall t: Tid | t < |r.pc| && IsOwner(r.pc[t])
      ensures r.pc[t].key in r.table && r.table[r.pc[t].key] == r.pc[t].flight
    {
      FlightKnown(s, step, t);
    }
    forall key | key in r.table
      ensures exists t :: Owns(r, t, key)
    {
      if key in s.table {
        var t: Tid :| Owns(s, t, key);
        OwnersAfter(s, step, t, key);
      } else {
        OwnersAfter(s, step, step.t, key);
      }
    }
    forall t: Tid, u: Tid, key | Owns(r, t, key) && Owns(r, u, key)
      ensures t == u
    {
      OwnersAfter(s, step, t, key);
      OwnersAfter(s, step, u, key);
      assert Owns(s, t, key) ==> IsOwner(s.pc[t]);
      assert Owns(s, u, key) ==> IsOwner(s.pc[u]);
    }
  }

  lemma StepKeepsMap(s: State, step: Step)
    requires Enabled(s, step) && MapInv(s)
    ensures MapInv(Apply(s, step))
  {
  }

  // Two requests hold different flights.
  lemma HoldersDiffer(s: State, t: Tid, u: Tid)
    requires OwnerInv(s) && MapInv(s) && t < |s.pc| && u < |s.pc|
    requires IsOwner(s.pc[t]) && IsOwner(s.pc[u]) && s.pc[t].flight == s.pc[u].flight
    ensures t == u
  {
    assert Owns(s, t, s.pc[t].key) && Owns(s, u, s.pc[u].key);
  }

  lemma HoldsAfter(s: State, step: Step, t: Tid, f: FlightId)
    requires Enabled(s, step) && OwnerInv(s) && t < |s.pc|
    ensures Holds(Apply(s, step).pc[t], f) <==>
            (Holds(s.pc[t], f) && step != CloseOnce(t)) ||
            (t == step.t && step.Join? && Starts(s, step, s.pc[t].key) && f == |s.flights|)
  {
  }

  lemma ClosedAfter(s: State, step: Step, f: FlightId)
    requires Enabled(s, step) && OwnerInv(s) && f < |s.flights|
    ensures f < |Apply(s, step).flights|
    ensures Apply(s, step).flights[f].closed <==>
            s.flights[f].closed || (step.CloseOnce? && Holds(s.pc[step.t], f))
  {
  }

  lemma StillOpen(s: State, step: Step, f: FlightId)
    requires Enabled(s, step) && OwnerInv(s) && MapInv(s) && OpenInv(s) && f < |s.flights| && Held(s, f)
    ensures f < |Apply(s, step).flights| && (Apply(s, step).flights[f].closed <==> !Held(Apply(s, step), f))
  {
    ClosedAfter(s, step, f);
    var t: Tid :| t < |s.pc| && Holds(s.pc[t], f);
    HoldsAfter(s, step, t, f);
    if step.CloseOnce? && Holds(s.pc[step.t], f) {
      HoldersDiffer(s, t, step.t);
      forall u: Tid | u < |s.pc|
        ensures !Holds(Apply(s, step).pc[u], f)
      {
        HoldsAfter(s, step, u, f);
        if u != t && Holds(s.pc[u], f) {
          HoldersDiffer(s, t, u);
        }
      }
    }
  }

  lemma StillClosed(s: State, step: Step, f: FlightId)
    requires Enabled(s, step) && OwnerInv(s) && OpenInv(s) && f < |s.flights| && !Held(s, f)
    ensures f < |Apply(s, step).flights| && Apply(s, step).flights[f].closed && !Held(Apply(s, step), f)
  {
    ClosedAfter(s, step, f);
    forall u: Tid | u < |s.pc|
      ensures !Holds(Apply(s, step).pc[u], f)
    {
      HoldsAfter(s, step, u, f);
    }
  }

  lemma StepKeepsOpen(s: State, step: Step)
    requires Enabled(s, step) && OwnerInv(s) && MapInv(s) && OpenInv(s)
    ensures OpenInv(Apply(s, step))
  {
    var r := Apply(s, step);
    forall f: FlightId | f < |r.flights|
      ensures r.flights[f].closed <==> !Held(r, f)
    {
      if f >= |s.flights| {
        HoldsAfter(s, step, step.t, f);
      } else if Held(s, f) {
        StillOpen(s, step, f);
      } else {
        StillClosed(s, step, f);
      }
    }
  }

  lemma StepKeepsWaits(s: State, step: Step)
    requires Enabled(s, step) && MapInv(s) && WaitInv(s)
    ensures WaitInv(Apply(s, step))
  {
  }

  lemma {:induction false} InvHoldsThroughout(run: seq<State>, steps: seq<Step>, k: nat)
    requires Run(run, steps) && k < |run|
    ensures Inv(run[k])
  {
    if k > 0 {
      InvHoldsThroughout(run, steps, k - 1);
      assert StepsTo(run, steps, k - 1);
      var s, step := run[k - 1], steps[k - 1];
      StepKeepsOwners(s, step);
      StepKeepsMap(s, step);
      StepKeepsOpen(s, step);
      StepKeepsWaits(s, step);
    }
  }

  // ----- what requests rely on

  /** At every point of every run: a key has a flight in the map if and only if exactly one
      request owns it, and with no owner running the map is empty. */
  lemma OneOwnerPerKey(run: seq<State>, steps: seq<Step>, k: nat, key: Key)
    requires Run(run, steps) && k < |run|
    ensures key in run[k].table <==> exists t :: Owns(run[k], t, key)
    ensures forall t, u :: Owns(run[k], t, key) && Owns(run[k], u, key) ==> t == u
    ensures (forall t :: 0 <= t < |run[k].pc| ==> !IsOwner(run[k].pc[t])) ==> run[k].table == map[]
  {
    InvHoldsThroughout(run, steps, k);
    var s := run[k];
    if forall t :: 0 <= t < |s.pc| ==> !IsOwner(s.pc[t]) {
      forall j
        ensures j !in s.table
      {
        assert forall t :: !Owns(s, t, j);
      }
    }
  }

  /** The flight an owner looks up to record on or to close is its own, and still open, so
      the release closes it exactly once. */
  lemma ReleaseIsOwn(run: seq<State>, steps: seq<Step>, k: nat, t: Tid)
    requires Run(run, steps) && k < |run| && t < |run[k].pc|
    requires run[k].pc[t].Recording? || run[k].pc[t].Closing?
    ensures var p := run[k].pc[t];
            p.found == p.flight < |run[k].flights| && !run[k].flights[p.found].closed
  {
    InvHoldsThroughout(run, steps, k);
    assert Holds(run[k].pc[t], run[k].pc[t].flight);
  }

  /** A flight is open exactly while its owner is still to close it: no waiter is left
      blocked by an owner that has returned or panicked. */
  lemma WaiterHasOwner(run: seq<State>, steps: seq<Step>, k: nat, t: Tid)
    requires Run(run, steps) && k < |run| && t < |run[k].pc| && run[k].pc[t].Waiting?
    ensures run[k].pc[t].flight < |run[k].flights|
    ensures run[k].flights[run[k].pc[t].flight].closed <==> !Held(run[k], run[k].pc[t].flight)
  {
    InvHoldsThroughout(run, steps, k);
  }

  /** Once closed a flight never changes, so a waiter reads the owner's last word. */
  lemma {:induction false} ClosedFlightIsFinal(run: seq<State>, steps: seq<Step>, i: nat, j: nat, f: FlightId)
    requires Run(run, steps) && i <= j < |run| && f < |run[i].flights| && run[i].flights[f].closed
    ensures f < |run[j].flights| && run[j].flights[f] == run[i].flights[f]
  {
    if i < j {
      ClosedFlightIsFinal(run, steps, i, j - 1, f);
      InvHoldsThroughout(run, steps, j - 1);
      assert StepsTo(run, steps, j - 1);
      var s, step := run[j - 1], steps[j - 1];
      if step.Record? || step.CloseOnce? {
        assert Holds(s.pc[step.t], s.pc[step.t].flight);
      }
    }
  }

  /** A waiter that reads the flight's outcome finds it closed. */
  lemma WaiterReadsFinal(run: seq<State>, steps: seq<Step>, k: nat, t: Tid)
    requires Run(run, steps) && k < |run| && t < |run[k].pc| && run[k].pc[t].Woken?
    ensures run[k].pc[t].flight < |run[k].flights| && run[k].flights[run[k].pc[t].flight].closed
  {
    InvHoldsThroughout(run, steps, k);
  }

  /** An owner recorded a response on the flight before the k-th step. */
  ghost predicate WasRecorded(run: seq<State>, steps: seq<Step>, k: nat, f: FlightId)
    requires k <= |steps| < |run|
  {
    exists q :: 0 <= q < k && RecordsOn(run[q], steps[q], f)
  }

  ghost predicate RecordsOn(s: State, step: Step, f: FlightId) {
    step.Record? && step.t < |s.pc| && s.pc[step.t].Recording? && s.pc[step.t].found == f
  }

  lemma StepRecords(s: State, step: Step, f: FlightId)
    requires Enabled(s, step) && f < |Apply(s, step).flights|
    ensures Apply(s, step).flights[f].recorded <==> (f < |s.flights| && s.flights[f].recorded) || RecordsOn(s, step, f)
  {
  }

  lemma {:induction false} NothingRecordedAhead(run: seq<State>, steps: seq<Step>, k: nat, f: FlightId)
    requires Run(run, steps) && k <= |steps| && f >= |run[k].flights|
    ensures !WasRecorded(run, steps, k, f)
  {
    if k > 0 {
      assert StepsTo(run, steps, k - 1);
      NothingRecordedAhead(run, steps, k - 1, f);
    }
  }

  /** A flight is marked as recorded exactly if its owner recorded a response on it. */
  lemma {:induction false} RecordedIff(run: seq<State>, steps: seq<Step>, k: nat, f: FlightId)
    requires Run(run, steps) && k <= |steps| && f < |run[k].flights|
    ensures run[k].flights[f].recorded <==> WasRecorded(run, steps, k, f)
  {
    if k > 0 {
      assert StepsTo(run, steps, k - 1);
      StepRecords(run[k - 1], steps[k - 1], f);
      if f < |run[k - 1].flights| {
        RecordedIff(run, steps, k - 1, f);
      } else {
        NothingRecordedAhead(run, steps, k - 1, f);
      }
      assert WasRecorded(run, steps, k, f) <==>
             WasRecorded(run, steps, k - 1, f) || RecordsOn(run[k - 1], steps[k - 1], f);
    }
  }

  /** A waiter ends without going to the upstream exactly if the owner of its flight recorded a
      response and the cached entry could be streamed; otherwise it goes on to fetch for itself. */
  lemma WaiterIsServedIff(run: seq<State>, steps: seq<Step>, k: nat, t: Tid)
    requires Run(run, steps) && k < |steps| && steps[k].ServeCached? && steps[k].t == t
    ensures t < |run[k].pc| && run[k].pc[t].Woken? && t < |run[k + 1].pc|
    ensures var p := run[k].pc[t];
            run[k + 1].pc[t] == if steps[k].streamed && WasRecorded(run, steps, k, p.flight) then Idle
                                else Fetching(p.key)
  {
    assert StepsTo(run, steps, k);
    RecordedIff(run, steps, k, run[k].pc[t].flight);
  }

  // ----- progress

  function Rank(p: Pc): nat {
    match p
    case Idle => 0
    case Fetching(_) => 1
    case Woken(_, _) => 2
    case Waiting(_, _) => 3
    case Deleting(_, _) => 1
    case Closing(_, _, _) => 2
    case Deferred(_, _) => 3
    case Recording(_, _, _) => 4
    case Working(_, _) => 5
    case Arrived(_) => 6
  }

  lemma StepUsesRank(s: State, step: Step)
    requires Enabled(s, step) && !step.Arrive?
    ensures Rank(Apply(s, step).pc[step.t]) < Rank(s.pc[step.t])
  {
  }

  function Onward(s: State, t: Tid): Step
    requires t < |s.pc|
  {
    match s.pc[t]
    case Idle => Arrive(t, "")
    case Arrived(_) => Join(t)
    case Waiting(_, _) => Wake(t)
    case Woken(_, _) => ServeCached(t, true)
    case Fetching(_) => Fetched(t)
    case Working(_, _) => LookUp(t)
    case Recording(_, _, _) => Record(t)
    case Deferred(_, _) => LookUpToClose(t)
    case Closing(_, _, _) => CloseOnce(t)
    case Deleting(_, _) => Delete(t)
  }

  lemma OnwardIsEnabled(s: State, t: Tid)
    requires Inv(s) && t < |s.pc| && !s.pc[t].Idle?
    requires s.pc[t].Waiting? ==> s.flights[s.pc[t].flight].closed
    ensures Enabled(s, Onward(s, t)) && Onward(s, t).t == t && !Onward(s, t).Arrive?
  {
  }

  /** No deadlock: a request under way, or the very owner it waits for, can always take a
      step that brings it closer to its end. */
  lemma NeverStuck(run: seq<State>, steps: seq<Step>, k: nat, t: Tid)
    requires Run(run, steps) && k < |run| && t < |run[k].pc| && !run[k].pc[t].Idle?
    ensures exists step :: Enabled(run[k], step) && Rank(Apply(run[k], step).pc[step.t]) < Rank(run[k].pc[step.t]) &&
              (step.t == t || (run[k].pc[t].Waiting? && Holds(run[k].pc[step.t], run[k].pc[t].flight)))
  {
    InvHoldsThroughout(run, steps, k);
    var s := run[k];
    var u := t;
    if s.pc[t].Waiting? && !s.flights[s.pc[t].flight].closed {
      assert Held(s, s.pc[t].flight);
      var v: Tid :| v < |s.pc| && Holds(s.pc[v], s.pc[t].flight);
      u := v;
    }
    OnwardIsEnabled(s, u);
    StepUsesRank(s, Onward(s, u));
  }
}
