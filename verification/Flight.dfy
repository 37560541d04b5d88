/** The lazy router: requests, the single-flight table, the handler cache and the event
    applier as atomic steps of concurrent threads.

    The flight table's lock is held across a cache lookup and the claim that follows, and
    across a publication, so those take two steps each with the lock held in between. The
    handler cache has a lock of its own: fast-path lookups, evictions and the event applier
    go on at any time. */
module Flight {
  import opened Basics
  import opened EdgeStore

  type Tid = nat
  type Chan = nat

  /** A compiled handler is known by its place in the log of successful compilations. */
  type HandlerId = nat

  datatype Built = Built(host: Host, config: Config)

  datatype Pc =
    | Idle
    | Resolved(host: Host)                                       // a row exists; about to try the cache
    | Missed(host: Host)                                         // wants the lock
    | Claiming(host: Host)                                       // holds the lock, not cached
    | Waiting(host: Host, ch: Chan)                              // follower
    | Woken(host: Host)                                          // follower, channel closed
    | Loading(host: Host, ch: Chan)                              // owner, row not read yet
    | Compiling(host: Host, ch: Chan, row: Config)               // owner, row read
    | Loaded(host: Host, ch: Chan, result: Option<HandlerId>)     // owner, load returned, wants the lock
    | Publishing(host: Host, ch: Chan, result: Option<HandlerId>) // owner, holds the lock, cache written
    | Serving(host: Host, handler: HandlerId)

  /** Between an event's store write and the drop of the handler the applier is busy. */
  datatype Applier = Quiet | Dropping(host: Host)

  datatype State = State(
    store: Store, lru: map<Host, HandlerId>, calls: map<Host, Chan>, chans: nat, closed: set<Chan>,
    lock: Option<Tid>, built: seq<Built>, applier: Applier, pc: seq<Pc>)

  datatype Step =
    | Resolve(t: Tid, host: Host)
    | NoRoute(t: Tid, host: Host)
    | FastPath(t: Tid)
    | Lock(t: Tid)
    | Claim(t: Tid)
    | Read(t: Tid)
    | Compile(t: Tid)
    | Fail(t: Tid)          // an error, a timeout or a panic of the load
    | Publish(t: Tid)
    | Release(t: Tid)
    | Wake(t: Tid)
    | Cancel(t: Tid)
    | Reread(t: Tid)
    | Finish(t: Tid)
    | Evict(host: Host)
    | WriteRow(host: Host, config: Config)
    | DeleteRow(host: Host)
    | DropHandler

  predicate ByThread(step: Step) {
    !(step.Evict? || step.WriteRow? || step.DeleteRow? || step.DropHandler?)
  }

  predicate IsOwner(p: Pc) {
    p.Loading? || p.Compiling? || p.Loaded? || p.Publishing?
  }

  predicate HoldsLock(p: Pc) {
    p.Claiming? || p.Publishing?
  }

  ghost predicate Enabled(s: State, step: Step) {
    if ByThread(step) then step.t < |s.pc| && CanMove(s, step, s.pc[step.t])
    else if step.WriteRow? || step.DeleteRow? then s.applier.Quiet?
    else step.DropHandler? ==> s.applier.Dropping?
  }

  ghost predicate CanMove(s: State, step: Step, p: Pc)
    requires ByThread(step)
  {
    match step
    case Resolve(_, h) => p.Idle? && h in s.store
    case NoRoute(_, h) => p.Idle? && h !in s.store
    case FastPath(_) => p.Resolved?
    case Lock(_) => p.Missed? && s.lock.None?
    case Claim(_) => p.Claiming?
    case Read(_) => p.Loading?
    case Compile(_) => p.Compiling?
    case Fail(_) => p.Loading? || p.Compiling?
    case Publish(_) => p.Loaded? && s.lock.None?
    case Release(_) => p.Publishing?
    case Wake(_) => p.Waiting? && p.ch in s.closed
    case Cancel(_) => p.Waiting?
    case Reread(_) => p.Woken?
    case Finish(_) => p.Serving?
  }

  // What a lookup of the handler cache leads to.
  function Looked(s: State, h: Host, otherwise: Pc): Pc {
    if h in s.lru then Serving(h, s.lru[h]) else otherwise
  }

  /** Where a step takes its thread. */
  ghost function Moved(s: State, step: Step, p: Pc): Pc
    requires ByThread(step) && CanMove(s, step, p)
  {
    match step
    case Resolve(_, h) => Resolved(h)
    case NoRoute(_, _) => Idle
    case FastPath(_) => Looked(s, p.host, Missed(p.host))
    case Lock(_) => Looked(s, p.host, Claiming(p.host))
    case Claim(_) => if p.host in s.calls then Waiting(p.host, s.calls[p.host]) else Loading(p.host, s.chans)
    case Read(_) => if p.host in s.store then Compiling(p.host, p.ch, s.store[p.host]) else Loaded(p.host, p.ch, None)
    case Compile(_) => Loaded(p.host, p.ch, Some(|s.built|))
    case Fail(_) => Loaded(p.host, p.ch, None)
    case Publish(_) => Publishing(p.host, p.ch, p.result)
    case Release(_) => if p.result.Some? then Serving(p.host, p.result.value) else Idle
    case Wake(_) => Woken(p.host)
    case Cancel(_) => Idle
    case Reread(_) => Looked(s, p.host, Idle)
    case Finish(_) => Idle
  }

  /** What a step changes besides its thread. */
  ghost function Shared(s: State, step: Step, p: Pc): State
    requires ByThread(step) && CanMove(s, step, p)
  {
    match step
    case Lock(t) => if p.host in s.lru then s else s.(lock := Some(t))
    case Claim(_) =>
      if p.host in s.calls then s.(lock := None)
      else s.(lock := None, calls := s.calls[p.host := s.chans], chans := s.chans + 1)
    case Compile(_) => s.(built := s.built + [Built(p.host, p.row)])
    case Publish(t) =>
      s.(lock := Some(t), lru := if p.result.Some? then s.lru[p.host := p.result.value] else s.lru)
    case Release(_) => s.(lock := None, calls := s.calls - {p.host}, closed := s.closed + {p.ch})
    case _ => s
  }

  ghost function Apply(s: State, step: Step): State
    requires Enabled(s, step)
  {
    if ByThread(step) then
      var p := s.pc[step.t];
      Shared(s, step, p).(pc := s.pc[step.t := Moved(s, step, p)])
    else
      match step
      case Evict(h) => s.(lru := s.lru - {h})
      case WriteRow(h, c) => s.(store := s.store[h := c], applier := Dropping(h))
      case DeleteRow(h) => s.(store := s.store - {h}, applier := Dropping(h))
      case DropHandler => s.(lru := s.lru - {s.applier.host}, applier := Quiet)
  }

  ghost predicate Init(s: State) {
    && s.lru == map[] && s.calls == map[] && s.closed == {} && s.lock.None? && s.built == []
    && s.applier.Quiet? && forall t :: 0 <= t < |s.pc| ==> s.pc[t].Idle?
  }

  ghost predicate StepsTo(run: seq<State>, steps: seq<Step>, k: nat)
    requires k < |steps| < |run|
  {
    Enabled(run[k], steps[k]) && run[k + 1] == Apply(run[k], steps[k])
  }

  ghost predicate Run(run: seq<State>, steps: seq<Step>) {
    && |run| == |steps| + 1 && Init(run[0])
    && forall k :: 0 <= k < |steps| ==> StepsTo(run, steps, k)
  }

  // ----- single flight

  ghost predicate Owns(s: State, t: Tid, h: Host) {
    t < |s.pc| && IsOwner(s.pc[t]) && s.pc[t].host == h
  }

  /** The lock is held by the one thread that is inside a critical section. */
  ghost predicate LockInv(s: State) {
    && (forall t :: 0 <= t < |s.pc| ==> (HoldsLock(s.pc[t]) <==> s.lock == Some(t)))
    && (s.lock.Some? ==> s.lock.value < |s.pc|)
  }

  /** A host has a call exactly while one thread owns it; that thread knows its channel. */
  ghost predicate FlightInv(s: State) {
    && (forall t :: 0 <= t < |s.pc| && IsOwner(s.pc[t]) ==>
          s.pc[t].host in s.calls && s.calls[s.pc[t].host] == s.pc[t].ch)
    && (forall t, u, h :: Owns(s, t, h) && Owns(s, u, h) ==> t == u)
    && (forall h :: h in s.calls ==> exists t :: Owns(s, t, h))
  }

  /** Channels of running calls are open and distinct. */
  ghost predicate ChannelInv(s: State) {
    && (forall h :: h in s.calls ==> s.calls[h] < s.chans && s.calls[h] !in s.closed)
    && (forall g, h :: g in s.calls && h in s.calls && s.calls[g] == s.calls[h] ==> g == h)
    && (forall c :: c in s.closed ==> c < s.chans)
  }

  /** A follower waits on a closed channel or on that of the running call for its host. */
  ghost predicate WaitInv(s: State) {
    forall t :: 0 <= t < |s.pc| && s.pc[t].Waiting? ==>
      s.pc[t].ch in s.closed || (s.pc[t].host in s.calls && s.calls[s.pc[t].host] == s.pc[t].ch)
  }

  /** While a thread is claiming, its host's handler cannot become resident. */
  ghost predicate MissInv(s: State) {
    forall t :: 0 <= t < |s.pc| && s.pc[t].Claiming? ==> s.pc[t].host !in s.lru
  }

  /** The thread is loading a handler it has not published yet. */
  predicate Pending(p: Pc) {
    p.Loading? || p.Compiling? || p.Loaded?
  }

  /** Until a load is published its host has no handler in the cache. */
  ghost predicate AwayInv(s: State) {
    forall t :: 0 <= t < |s.pc| && Pending(s.pc[t]) ==> s.pc[t].host !in s.lru
  }

  ghost predicate Made(s: State, h: Host, id: HandlerId) {
    id < |s.built| && s.built[id].host == h
  }

  ghost predicate MadePc(s: State, p: Pc) {
    && (p.Serving? ==> Made(s, p.host, p.handler))
    && ((p.Loaded? || p.Publishing?) && p.result.Some? ==> Made(s, p.host, p.result.value))
  }

  /** Every handler in sight was compiled by a successful load of its host. */
  ghost predicate MadeInv(s: State) {
    (forall h :: h in s.lru ==> Made(s, h, s.lru[h])) && forall t :: 0 <= t < |s.pc| ==> MadePc(s, s.pc[t])
  }

  ghost predicate Inv(s: State) {
    LockInv(s) && FlightInv(s) && ChannelInv(s) && WaitInv(s) && MissInv(s) && AwayInv(s) && MadeInv(s)
  }

  // Only the thread of a step moves.
  lemma OthersStay(s: State, step: Step, t: Tid)
    requires Enabled(s, step) && t < |s.pc|
    ensures |Apply(s, step).pc| == |s.pc|
    ensures Apply(s, step).pc[t] == if ByThread(step) && step.t == t then Moved(s, step, s.pc[t]) else s.pc[t]
  {
  }

  lemma LockAfter(s: State, step: Step)
    requires Enabled(s, step) && LockInv(s)
    ensures var r := Apply(s, step);
            if ByThread(step) && HoldsLock(r.pc[step.t]) then r.lock == Some(step.t)
            else if ByThread(step) && HoldsLock(s.pc[step.t]) then r.lock == None
            else r.lock == s.lock
    ensures ByThread(step) && HoldsLock(Apply(s, step).pc[step.t]) ==> s.lock.None? || s.lock == Some(step.t)
  {
  }

  lemma StepKeepsLock(s: State, step: Step)
    requires Enabled(s, step) && LockInv(s)
    ensures LockInv(Apply(s, step))
  {
    var r := Apply(s, step);
    LockAfter(s, step);
    forall t: Tid | t < |r.pc|
      ensures HoldsLock(r.pc[t]) <==> r.lock == Some(t)
    {
      OthersStay(s, step, t);
    }
  }

  ghost predicate Starts(s: State, step: Step, h: Host)
    requires Enabled(s, step)
  {
    step.Claim? && s.pc[step.t].host == h && h !in s.calls
  }

  lemma OwnersAfter(s: State, step: Step, t: Tid, h: Host)
    requires Enabled(s, step)
    ensures Owns(Apply(s, step), t, h) <==>
            (Owns(s, t, h) && step != Release(t)) || (Starts(s, step, h) && t == step.t)
  {
  }

  lemma CallsAfter(s: State, step: Step, h: Host)
    requires Enabled(s, step)
    ensures h in Apply(s, step).calls <==>
            (h in s.calls && !(step.Release? && s.pc[step.t].host == h)) || Starts(s, step, h)
  {
  }

  // An owner's channel is the one its call records.
  lemma ChannelKnown(s: State, step: Step, t: Tid)
    requires Enabled(s, step) && FlightInv(s) && t < |Apply(s, step).pc| && IsOwner(Apply(s, step).pc[t])
    ensures var r := Apply(s, step); r.pc[t].host in r.calls && r.calls[r.pc[t].host] == r.pc[t].ch
  {
    var r := Apply(s, step);
    var h := r.pc[t].host;
    assert Owns(r, t, h);
    OwnersAfter(s, step, t, h);
    if !Starts(s, step, h) {
      assert Owns(s, t, h) && IsOwner(s.pc[t]);
      SameChannel(s, step, t);
      OldCallStays(s, step, t, h);
    }
  }

  lemma SameChannel(s: State, step: Step, t: Tid)
    requires Enabled(s, step) && t < |s.pc| && IsOwner(s.pc[t]) && step != Release(t)
    ensures IsOwner(Apply(s, step).pc[t]) && Apply(s, step).pc[t].ch == s.pc[t].ch
  {
    OthersStay(s, step, t);
  }

  lemma OldCallStays(s: State, step: Step, t: Tid, h: Host)
    requires Enabled(s, step) && FlightInv(s) && Owns(s, t, h) && step != Release(t)
    ensures h in Apply(s, step).calls && Apply(s, step).calls[h] == s.calls[h]
  {
    assert IsOwner(s.pc[t]);
    if step.Release? {
      assert Owns(s, step.t, s.pc[step.t].host);
    }
  }

  lemma StepKeepsFlight(s: State, step: Step)
    requires Enabled(s, step) && FlightInv(s)
    ensures FlightInv(Apply(s, step))
  {
    var r := Apply(s, step);
    forall t | 0 <= t < |r.pc| && IsOwner(r.pc[t])
      ensures r.pc[t].host in r.calls && r.calls[r.pc[t].host] == r.pc[t].ch
    {
      ChannelKnown(s, step, t);
    }
    forall h | h in r.calls
      ensures exists t :: Owns(r, t, h)
    {
      CallsAfter(s, step, h);
      if h in s.calls {
        var t :| Owns(s, t, h);
        OwnersAfter(s, step, t, h);
      } else {
        OwnersAfter(s, step, step.t, h);
      }
    }
    forall t: Tid, u: Tid, h | Owns(r, t, h) && Owns(r, u, h)
      ensures t == u
    {
      OwnersAfter(s, step, t, h);
      OwnersAfter(s, step, u, h);
      assert Owns(s, t, h) ==> IsOwner(s.pc[t]);
      assert Owns(s, u, h) ==> IsOwner(s.pc[u]);
    }
  }

  lemma ChannelsElsewhere(s: State, step: Step)
    requires Enabled(s, step) && !step.Claim? && !step.Release?
    ensures var r := Apply(s, step); r.calls == s.calls && r.chans == s.chans && r.closed == s.closed
  {
  }

  lemma StepKeepsChannels(s: State, step: Step)
    requires Enabled(s, step) && FlightInv(s) && ChannelInv(s)
    ensures ChannelInv(Apply(s, step))
  {
    if step.Release? {
      assert Owns(s, step.t, s.pc[step.t].host);
    } else if !step.Claim? {
      ChannelsElsewhere(s, step);
    }
  }

  ghost predicate WaitPc(s: State, p: Pc) {
    p.Waiting? ==> p.ch in s.closed || (p.host in s.calls && s.calls[p.host] == p.ch)
  }

  lemma StillWaits(s: State, step: Step, p: Pc)
    requires Enabled(s, step) && FlightInv(s) && WaitPc(s, p)
    ensures WaitPc(Apply(s, step), p)
  {
    if step.Release? {
      assert Owns(s, step.t, s.pc[step.t].host);
    } else if !step.Claim? {
      ChannelsElsewhere(s, step);
    }
  }

  lemma StepKeepsWaits(s: State, step: Step)
    requires Enabled(s, step) && FlightInv(s) && WaitInv(s)
    ensures WaitInv(Apply(s, step))
  {
    var r := Apply(s, step);
    forall t: Tid | t < |r.pc| && r.pc[t].Waiting?
      ensures WaitPc(r, r.pc[t])
    {
      OthersStay(s, step, t);
      if r.pc[t] == s.pc[t] {
        assert WaitPc(s, s.pc[t]);
        StillWaits(s, step, s.pc[t]);
      }
    }
  }

  lemma StepKeepsMisses(s: State, step: Step)
    requires Enabled(s, step) && LockInv(s) && MissInv(s)
    ensures MissInv(Apply(s, step))
  {
    var r := Apply(s, step);
    forall t: Tid | t < |r.pc| && r.pc[t].Claiming?
      ensures r.pc[t].host !in r.lru
    {
      OthersStay(s, step, t);
      if r.pc[t] == s.pc[t] {
        assert HoldsLock(s.pc[t]);
      }
    }
  }

  // A host without a handler gets one only from the thread that loads it.
  lemma StillAway(s: State, step: Step, h: Host)
    requires Enabled(s, step) && h !in s.lru && (step.Publish? ==> s.pc[step.t].host != h)
    ensures h !in Apply(s, step).lru
  {
  }

  lemma StepKeepsAway(s: State, step: Step)
    requires Enabled(s, step) && FlightInv(s) && MissInv(s) && AwayInv(s)
    ensures AwayInv(Apply(s, step))
  {
    var r := Apply(s, step);
    forall t: Tid | t < |r.pc| && Pending(r.pc[t])
      ensures r.pc[t].host !in r.lru
    {
      OthersStay(s, step, t);
      var h := r.pc[t].host;
      if step.Publish? && s.pc[step.t].host == h {
        assert Owns(s, step.t, h) && Owns(s, t, h);
      } else {
        StillAway(s, step, h);
      }
    }
  }

  lemma MovedIsMade(s: State, step: Step)
    requires Enabled(s, step) && MadeInv(s) && ByThread(step)
    ensures MadePc(Apply(s, step), Apply(s, step).pc[step.t])
  {
    assert MadePc(s, s.pc[step.t]);
  }

  lemma StillMade(s: State, step: Step, h: Host, id: HandlerId)
    requires Enabled(s, step) && Made(s, h, id)
    ensures Made(Apply(s, step), h, id)
  {
  }

  lemma CachedIsMade(s: State, step: Step, h: Host)
    requires Enabled(s, step) && MadeInv(s) && h in Apply(s, step).lru
    ensures Made(Apply(s, step), h, Apply(s, step).lru[h])
  {
    if ByThread(step) {
      assert MadePc(s, s.pc[step.t]);
    }
  }

  lemma StepKeepsMade(s: State, step: Step)
    requires Enabled(s, step) && MadeInv(s)
    ensures MadeInv(Apply(s, step))
  {
    var r := Apply(s, step);
    forall h | h in r.lru
      ensures Made(r, h, r.lru[h])
    {
      CachedIsMade(s, step, h);
    }
    forall t: Tid | t < |r.pc|
      ensures MadePc(r, r.pc[t])
    {
      OthersStay(s, step, t);
      if ByThread(step) && step.t == t {
        MovedIsMade(s, step);
      } else {
        StillMadePc(s, step, s.pc[t]);
      }
    }
  }

  lemma StillMadePc(s: State, step: Step, p: Pc)
    requires Enabled(s, step) && MadePc(s, p)
    ensures MadePc(Apply(s, step), p)
  {
    if p.Serving? {
      StillMade(s, step, p.host, p.handler);
    } else if (p.Loaded? || p.Publishing?) && p.result.Some? {
      StillMade(s, step, p.host, p.result.value);
    }
  }

  lemma {:induction false} InvHoldsThroughout(run: seq<State>, steps: seq<Step>, k: nat)
    requires Run(run, steps) && k < |run|
    ensures Inv(run[k])
  {
    if k > 0 {
      InvHoldsThroughout(run, steps, k - 1);
      assert StepsTo(run, steps, k - 1);
      var s, step := run[k - 1], steps[k - 1];
      StepKeepsLock(s, step);
      StepKeepsFlight(s, step);
      StepKeepsChannels(s, step);
      StepKeepsWaits(s, step);
      StepKeepsMisses(s, step);
      StepKeepsAway(s, step);
      StepKeepsMade(s, step);
    }
  }

  /** At every point of every run: a host has a call if and only if exactly one thread is
      loading it, and if no thread is loading then the table is empty. */
  lemma SingleFlight(run: seq<State>, steps: seq<Step>, k: nat, h: Host)
    requires Run(run, steps) && k < |run|
    ensures h in run[k].calls <==> exists t :: Owns(run[k], t, h)
    ensures forall t, u :: Owns(run[k], t, h) && Owns(run[k], u, h) ==> t == u
    ensures (forall t :: 0 <= t < |run[k].pc| ==> !IsOwner(run[k].pc[t])) ==> run[k].calls == map[]
  {
    InvHoldsThroughout(run, steps, k);
    var s := run[k];
    if forall t :: 0 <= t < |s.pc| ==> !IsOwner(s.pc[t]) {
      forall g
        ensures g !in s.calls
      {
        assert forall t :: !Owns(s, t, g);
      }
    }
  }

  /** The channel that a publishing thread is about to close is open, and of all running
      calls only its own uses it. */
  lemma ReleaseClosesOwnChannel(run: seq<State>, steps: seq<Step>, k: nat, t: Tid)
    requires Run(run, steps) && k < |run| && t < |run[k].pc| && run[k].pc[t].Publishing?
    ensures run[k].pc[t].ch !in run[k].closed
    ensures forall h :: h in run[k].calls ==> (run[k].calls[h] == run[k].pc[t].ch <==> h == run[k].pc[t].host)
  {
    InvHoldsThroughout(run, steps, k);
  }

  /** A follower is never stranded: its channel is closed, or a live thread will close it. */
  lemma FollowerHasOwner(run: seq<State>, steps: seq<Step>, k: nat, t: Tid)
    requires Run(run, steps) && k < |run| && t < |run[k].pc| && run[k].pc[t].Waiting?
    ensures run[k].pc[t].ch in run[k].closed ||
            exists u: Tid :: Owns(run[k], u, run[k].pc[t].host) && run[k].pc[u].ch == run[k].pc[t].ch
  {
    InvHoldsThroughout(run, steps, k);
    var p := run[k].pc[t];
    if p.ch !in run[k].closed {
      var u: Tid :| Owns(run[k], u, p.host);
      assert run[k].pc[u].ch == p.ch;
    }
  }

  // ----- no redundant loads

  /** The step takes the host's handler out of the cache. */
  ghost predicate Drops(s: State, step: Step, h: Host) {
    step == Evict(h) || (step.DropHandler? && s.applier == Dropping(h))
  }

  lemma StepKeepsResident(s: State, step: Step, h: Host)
    requires Enabled(s, step) && AwayInv(s) && h in s.lru && !Drops(s, step, h)
    ensures h in Apply(s, step).lru && Apply(s, step).lru[h] == s.lru[h]
  {
    assert step.Publish? ==> Pending(s.pc[step.t]);
  }

  lemma {:induction false} ResidentUntilDropped(run: seq<State>, steps: seq<Step>, i: nat, j: nat, h: Host)
    requires Run(run, steps) && i <= j < |run| && h in run[i].lru
    requires forall q :: i <= q < j ==> !Drops(run[q], steps[q], h)
    ensures h in run[j].lru && run[j].lru[h] == run[i].lru[h]
  {
    if i < j {
      ResidentUntilDropped(run, steps, i, j - 1, h);
      InvHoldsThroughout(run, steps, j - 1);
      assert StepsTo(run, steps, j - 1);
      StepKeepsResident(run[j - 1], steps[j - 1], h);
    }
  }

  /** Once a handler is resident, no thread starts to load its host, or even waits for a
      load, before the handler was dropped. */
  lemma NoRedundantLoad(run: seq<State>, steps: seq<Step>, i: nat, j: nat)
    requires Run(run, steps) && i <= j < |steps| && steps[j].Claim? && Enabled(run[j], steps[j])
    requires run[j].pc[steps[j].t].host in run[i].lru
    ensures exists q :: i <= q < j && Drops(run[q], steps[q], run[j].pc[steps[j].t].host)
  {
    var h := run[j].pc[steps[j].t].host;
    InvHoldsThroughout(run, steps, j);
    if forall q :: i <= q < j ==> !Drops(run[q], steps[q], h) {
      ResidentUntilDropped(run, steps, i, j, h);
    }
  }

  // ----- where handlers come from

  /** The host had this row in the store before step k. */
  ghost predicate WasRow(run: seq<State>, k: nat, h: Host, c: Config)
    requires k <= |run|
  {
    exists j :: 0 <= j < k && Row(run[j].store, h) == Some(c)
  }

  ghost predicate RowsWereRead(run: seq<State>, k: nat)
    requires k < |run|
  {
    && (forall t :: 0 <= t < |run[k].pc| && run[k].pc[t].Compiling? ==>
          WasRow(run, k, run[k].pc[t].host, run[k].pc[t].row))
    && (forall id :: 0 <= id < |run[k].built| ==> WasRow(run, k, run[k].built[id].host, run[k].built[id].config))
  }

  lemma WasRowLater(run: seq<State>, i: nat, k: nat, h: Host, c: Config)
    requires i <= k <= |run| && WasRow(run, i, h, c)
    ensures WasRow(run, k, h, c)
  {
  }

  lemma {:induction false} RunReadsRows(run: seq<State>, steps: seq<Step>, k: nat)
    requires Run(run, steps) && k < |run|
    ensures RowsWereRead(run, k)
  {
    if k > 0 {
      RunReadsRows(run, steps, k - 1);
      assert StepsTo(run, steps, k - 1);
      var s, r, step := run[k - 1], run[k], steps[k - 1];
      forall t | 0 <= t < |r.pc| && r.pc[t].Compiling?
        ensures WasRow(run, k, r.pc[t].host, r.pc[t].row)
      {
        if s.pc[t] == r.pc[t] {
          WasRowLater(run, k - 1, k, r.pc[t].host, r.pc[t].row);
        } else {
          assert Row(run[k - 1].store, r.pc[t].host) == Some(r.pc[t].row);
        }
      }
      forall id | 0 <= id < |r.built|
        ensures WasRow(run, k, r.built[id].host, r.built[id].config)
      {
        if id < |s.built| {
          assert r.built[id] == s.built[id];
        }
        WasRowLater(run, k - 1, k, r.built[id].host, r.built[id].config);
      }
    }
  }

  /** Whatever handler serves a request was compiled, by a successful load of the very host
      asked for, from a row the store held for that host. */
  lemma ServedHandlerWasLoaded(run: seq<State>, steps: seq<Step>, k: nat, t: Tid)
    requires Run(run, steps) && k < |run| && t < |run[k].pc| && run[k].pc[t].Serving?
    ensures var p := run[k].pc[t];
            && p.handler < |run[k].built| && run[k].built[p.handler].host == p.host
            && WasRow(run, k, p.host, run[k].built[p.handler].config)
  {
    InvHoldsThroughout(run, steps, k);
    RunReadsRows(run, steps, k);
  }

  // ----- progress

  function Rank(p: Pc): nat {
    match p
    case Idle => 0
    case Serving(_, _) => 1
    case Woken(_) => 2
    case Waiting(_, _) => 3
    case Publishing(_, _, _) => 2
    case Loaded(_, _, _) => 3
    case Compiling(_, _, _) => 4
    case Loading(_, _) => 5
    case Claiming(_) => 6
    case Missed(_) => 7
    case Resolved(_) => 8
  }

  /** The steps that the first n threads may still take. */
  function Work(pc: seq<Pc>, n: nat): nat
    requires n <= |pc|
  {
    if n == 0 then 0 else Work(pc, n - 1) + Rank(pc[n - 1])
  }

  lemma {:induction false} WorkAfterMove(pc: seq<Pc>, t: Tid, p: Pc, n: nat)
    requires t < |pc| && n <= |pc|
    ensures Work(pc[t := p], n) == if t < n then Work(pc, n) - Rank(pc[t]) + Rank(p) else Work(pc, n)
  {
    if n > 0 {
      WorkAfterMove(pc, t, p, n - 1);
    }
  }

  /** A step of a request already under way. */
  predicate Advances(step: Step) {
    ByThread(step) && !step.Resolve? && !step.NoRoute?
  }

  lemma StepUsesWork(s: State, step: Step)
    requires Enabled(s, step) && !step.Resolve?
    ensures var r := Apply(s, step);
            |r.pc| == |s.pc| && Work(r.pc, |r.pc|) + (if Advances(step) then 1 else 0) <= Work(s.pc, |s.pc|)
  {
    if ByThread(step) {
      var p := s.pc[step.t];
      WorkAfterMove(s.pc, step.t, Moved(s, step, p), |s.pc|);
    }
  }

  function Advanced(steps: seq<Step>, i: nat, j: nat): nat
    requires i <= j <= |steps|
  {
    if i == j then 0 else Advanced(steps, i, j - 1) + if Advances(steps[j - 1]) then 1 else 0
  }

  /** Requests under way finish within a fixed number of their own steps, whatever the
      interleaving with each other, evictions and events. */
  lemma {:induction false} RequestsFinish(run: seq<State>, steps: seq<Step>, i: nat, j: nat)
    requires Run(run, steps) && i <= j <= |steps| && forall q :: i <= q < j ==> !steps[q].Resolve?
    ensures Advanced(steps, i, j) + Work(run[j].pc, |run[j].pc|) <= Work(run[i].pc, |run[i].pc|)
  {
    if i < j {
      RequestsFinish(run, steps, i, j - 1);
      assert StepsTo(run, steps, j - 1);
      StepUsesWork(run[j - 1], steps[j - 1]);
    }
  }

  /** The steps a thread takes for the request it is at. */
  function OwnSteps(steps: seq<Step>, t: Tid, i: nat, j: nat): nat
    requires i <= j <= |steps|
  {
    if i == j then 0
    else OwnSteps(steps, t, i, j - 1) + if Advances(steps[j - 1]) && steps[j - 1].t == t then 1 else 0
  }

  lemma StepUsesRank(s: State, step: Step, t: Tid)
    requires Enabled(s, step) && t < |s.pc| && !(step.Resolve? && step.t == t)
    ensures |Apply(s, step).pc| == |s.pc|
    ensures Rank(Apply(s, step).pc[t]) + (if Advances(step) && step.t == t then 1 else 0) <= Rank(s.pc[t])
  {
    OthersStay(s, step, t);
  }

  lemma {:induction false} RankBoundsSteps(run: seq<State>, steps: seq<Step>, i: nat, j: nat, t: Tid)
    requires Run(run, steps) && i <= j <= |steps| && t < |run[i].pc|
    requires forall q :: i <= q < j ==> !(steps[q].Resolve? && steps[q].t == t)
    ensures t < |run[j].pc| && OwnSteps(steps, t, i, j) + Rank(run[j].pc[t]) <= Rank(run[i].pc[t])
  {
    if i < j {
      RankBoundsSteps(run, steps, i, j - 1, t);
      assert StepsTo(run, steps, j - 1);
      StepUsesRank(run[j - 1], steps[j - 1], t);
    }
  }

  /** From its own start a request takes at most eight steps, one fewer for each rank it still
      has to go, whatever other requests start or do meanwhile. */
  lemma RequestIsShort(run: seq<State>, steps: seq<Step>, i: nat, j: nat, t: Tid, h: Host)
    requires Run(run, steps) && i < j <= |steps| && steps[i] == Resolve(t, h)
    requires forall q :: i < q < j ==> !(steps[q].Resolve? && steps[q].t == t)
    ensures t < |run[j].pc| && OwnSteps(steps, t, i + 1, j) + Rank(run[j].pc[t]) <= 8
  {
    assert StepsTo(run, steps, i);
    RankBoundsSteps(run, steps, i + 1, j, t);
  }

  // The step by which a thread goes on if it is not blocked.
  function Onward(s: State, t: Tid): Step
    requires t < |s.pc|
  {
    match s.pc[t]
    case Idle => Resolve(t, "")
    case Resolved(_) => FastPath(t)
    case Missed(_) => Lock(t)
    case Claiming(_) => Claim(t)
    case Waiting(_, _) => Wake(t)
    case Woken(_) => Reread(t)
    case Loading(_, _) => Read(t)
    case Compiling(_, _, _) => Compile(t)
    case Loaded(_, _, _) => Publish(t)
    case Publishing(_, _, _) => Release(t)
    case Serving(_, _) => Finish(t)
  }

  /** No deadlock: while a request is under way some thread can take a step, and without
      giving up on a load. */
  lemma NeverStuck(run: seq<State>, steps: seq<Step>, k: nat, t: Tid)
    requires Run(run, steps) && k < |run| && t < |run[k].pc| && !run[k].pc[t].Idle?
    ensures exists step :: Enabled(run[k], step) && Advances(step) && !step.Cancel? && !step.Fail?
  {
    InvHoldsThroughout(run, steps, k);
    var s := run[k];
    if s.lock.Some? {
      assert Enabled(s, Onward(s, s.lock.value));
    } else if s.pc[t].Waiting? && s.pc[t].ch !in s.closed {
      var u: Tid :| Owns(s, u, s.pc[t].host);
      assert !HoldsLock(s.pc[u]);
      assert Enabled(s, Onward(s, u));
    } else {
      assert !HoldsLock(s.pc[t]);
      assert Enabled(s, Onward(s, t));
    }
  }

  // ----- agreement with the store

  /** The thread has read the host's row and not yet published what it compiles from it. */
  predicate InBetween(p: Pc, h: Host) {
    (p.Compiling? && p.host == h) || (p.Loaded? && p.host == h && p.result.Some?)
  }

  predicate Rewrites(step: Step, h: Host) {
    (step.WriteRow? || step.DeleteRow?) && step.host == h
  }

  /** No event for the host lands between a read of its row and the publication of that load. */
  ghost predicate Disciplined(run: seq<State>, steps: seq<Step>, h: Host)
    requires |steps| < |run|
  {
    forall k, t :: 0 <= k < |steps| && Rewrites(steps[k], h) && 0 <= t < |run[k].pc| ==> !InBetween(run[k].pc[t], h)
  }

  ghost predicate FromRow(s: State, h: Host, id: HandlerId) {
    id < |s.built| && Row(s.store, h) == Some(s.built[id].config)
  }

  ghost predicate FreshPc(s: State, h: Host, p: Pc) {
    && (p.Compiling? && p.host == h ==> Row(s.store, h) == Some(p.row))
    && (p.Loaded? && p.host == h && p.result.Some? ==> FromRow(s, h, p.result.value))
  }

  ghost predicate PendingFresh(s: State, h: Host) {
    forall t :: 0 <= t < |s.pc| ==> FreshPc(s, h, s.pc[t])
  }

  ghost predicate ResidentFresh(s: State, h: Host) {
    h in s.lru && s.applier != Dropping(h) ==> FromRow(s, h, s.lru[h])
  }

  lemma MovedIsFresh(s: State, step: Step, h: Host)
    requires Enabled(s, step) && ByThread(step) && FreshPc(s, h, s.pc[step.t])
    ensures FreshPc(Apply(s, step), h, Apply(s, step).pc[step.t])
  {
  }

  lemma StillFromRow(s: State, step: Step, h: Host, id: HandlerId)
    requires Enabled(s, step) && !Rewrites(step, h) && FromRow(s, h, id)
    ensures FromRow(Apply(s, step), h, id)
  {
  }

  lemma StillFreshPc(s: State, step: Step, h: Host, p: Pc)
    requires Enabled(s, step) && FreshPc(s, h, p) && (Rewrites(step, h) ==> !InBetween(p, h))
    ensures FreshPc(Apply(s, step), h, p)
  {
    if p.Loaded? && p.host == h && p.result.Some? {
      StillFromRow(s, step, h, p.result.value);
    }
  }

  lemma StepKeepsPendingFresh(s: State, step: Step, h: Host)
    requires Enabled(s, step) && PendingFresh(s, h)
    requires Rewrites(step, h) ==> forall t :: 0 <= t < |s.pc| ==> !InBetween(s.pc[t], h)
    ensures PendingFresh(Apply(s, step), h)
  {
    var r := Apply(s, step);
    forall t: Tid | t < |r.pc|
      ensures FreshPc(r, h, r.pc[t])
    {
      OthersStay(s, step, t);
      assert FreshPc(s, h, s.pc[t]);
      if ByThread(step) && step.t == t {
        MovedIsFresh(s, step, h);
      } else {
        StillFreshPc(s, step, h, s.pc[t]);
      }
    }
  }

  lemma StepKeepsResidentFresh(s: State, step: Step, h: Host)
    requires Enabled(s, step) && PendingFresh(s, h) && ResidentFresh(s, h)
    ensures ResidentFresh(Apply(s, step), h)
  {
  }

  lemma {:induction false} FreshThroughout(run: seq<State>, steps: seq<Step>, k: nat, h: Host)
    requires Run(run, steps) && Disciplined(run, steps, h) && k < |run|
    ensures PendingFresh(run[k], h) && ResidentFresh(run[k], h)
  {
    if k > 0 {
      FreshThroughout(run, steps, k - 1, h);
      assert StepsTo(run, steps, k - 1);
      StepKeepsPendingFresh(run[k - 1], steps[k - 1], h);
      StepKeepsResidentFresh(run[k - 1], steps[k - 1], h);
    }
  }

  /** The lazy router agrees with a table compiled eagerly from the store: while no event for
      the host is half applied, a resident handler is the one compiled from the host's row. */
  lemma AgreesWithStore(run: seq<State>, steps: seq<Step>, k: nat, h: Host)
    requires Run(run, steps) && Disciplined(run, steps, h) && k < |run| && run[k].applier != Dropping(h)
    ensures h in run[k].lru ==> FromRow(run[k], h, run[k].lru[h])
  {
    FreshThroughout(run, steps, k, h);
  }

  /** The thread asks for the host, and what it is about to serve it with is from the row. */
  ghost predicate ServesFresh(s: State, t: Tid, h: Host) {
    && t < |s.pc| && !s.pc[t].Idle? && s.pc[t].host == h
    && (s.pc[t].Publishing? && s.pc[t].result.Some? ==> FromRow(s, h, s.pc[t].result.value))
    && (s.pc[t].Serving? ==> FromRow(s, h, s.pc[t].handler))
  }

  lemma StepServesFresh(s: State, step: Step, t: Tid, h: Host)
    requires Enabled(s, step) && PendingFresh(s, h) && ResidentFresh(s, h) && s.applier != Dropping(h)
    requires !Rewrites(step, h) && t < |s.pc| && !Apply(s, step).pc[t].Idle?
    requires step == Resolve(t, h) || (ServesFresh(s, t, h) && !(step.Resolve? && step.t == t))
    ensures ServesFresh(Apply(s, step), t, h) && Apply(s, step).applier != Dropping(h)
  {
    assert FreshPc(s, h, s.pc[t]);
    OthersStay(s, step, t);
    if s.pc[t].Serving? {
      StillFromRow(s, step, h, s.pc[t].handler);
    }
    if s.pc[t].Publishing? && s.pc[t].result.Some? {
      StillFromRow(s, step, h, s.pc[t].result.value);
    }
  }

  /** From the i-th to the k-th step no event for the host is under way and the thread is
      about one request for it. */
  ghost predicate Undisturbed(run: seq<State>, steps: seq<Step>, i: nat, k: nat, t: Tid, h: Host)
    requires i < k < |run| && |steps| < |run|
  {
    && k <= |steps| && steps[i] == Resolve(t, h) && run[i].applier != Dropping(h)
    && (forall q :: i <= q < k ==> !Rewrites(steps[q], h))
    && forall q :: i < q <= k ==> t < |run[q].pc| && !run[q].pc[t].Idle?
  }

  lemma {:induction false} RequestStaysFresh(run: seq<State>, steps: seq<Step>, i: nat, k: nat, t: Tid, h: Host)
    requires Run(run, steps) && Disciplined(run, steps, h) && i < k < |run| && Undisturbed(run, steps, i, k, t, h)
    ensures ServesFresh(run[k], t, h) && run[k].applier != Dropping(h)
  {
    FreshThroughout(run, steps, k - 1, h);
    assert StepsTo(run, steps, k - 1);
    if i < k - 1 {
      RequestStaysFresh(run, steps, i, k - 1, t, h);
    }
    StepServesFresh(run[k - 1], steps[k - 1], t, h);
  }

  /** A request that resolves while no event for its host is half applied, and is served
      before the next one lands, is served by a handler compiled from the current row. */
  lemma ServedFromCurrentRow(run: seq<State>, steps: seq<Step>, i: nat, k: nat, t: Tid, h: Host)
    requires Run(run, steps) && Disciplined(run, steps, h) && i < k < |run| && Undisturbed(run, steps, i, k, t, h)
    requires t < |run[k].pc| && run[k].pc[t].Serving?
    ensures run[k].pc[t].host == h && FromRow(run[k], h, run[k].pc[t].handler)
  {
    RequestStaysFresh(run, steps, i, k, t, h);
  }

  // ----- when it does not agree

  /** What the thread carries was made from this row. */
  ghost predicate Carries(s: State, t: Tid, h: Host, c: Config) {
    && t < |s.pc| && InBetween(s.pc[t], h)
    && (s.pc[t].Compiling? ==> s.pc[t].row == c)
    && (s.pc[t].Loaded? ==> s.pc[t].result.value < |s.built| && s.built[s.pc[t].result.value].config == c)
  }

  lemma StepCarries(s: State, step: Step, t: Tid, h: Host, c: Config)
    requires Enabled(s, step) && Carries(s, t, h, c)
    requires t < |Apply(s, step).pc| && InBetween(Apply(s, step).pc[t], h)
    ensures Carries(Apply(s, step), t, h, c)
  {
  }

  lemma {:induction false} CarriesRow(run: seq<State>, steps: seq<Step>, i: nat, j: nat, t: Tid, h: Host)
    requires Run(run, steps) && i < j < |steps| && steps[i] == Read(t)
    requires forall q :: i < q <= j ==> t < |run[q].pc| && InBetween(run[q].pc[t], h)
    ensures h in run[i].store && Carries(run[j], t, h, run[i].store[h])
  {
    assert StepsTo(run, steps, j - 1);
    assert InBetween(run[j].pc[t], h);
    if i < j - 1 {
      CarriesRow(run, steps, i, j - 1, t, h);
      StepCarries(run[j - 1], steps[j - 1], t, h, run[i].store[h]);
    }
  }

  /** In every run, disciplined or not: a load that read its row at step i and publishes at
      step j makes the handler compiled from the current row resident, exactly if the row
      is then the one that was read. */
  lemma PublicationIsFreshIff(run: seq<State>, steps: seq<Step>, i: nat, j: nat, t: Tid, h: Host)
    requires Run(run, steps) && i < j < |steps| && steps[i] == Read(t) && steps[j] == Publish(t)
    requires forall q :: i < q <= j ==> t < |run[q].pc| && InBetween(run[q].pc[t], h)
    ensures h in run[j + 1].lru
    ensures FromRow(run[j + 1], h, run[j + 1].lru[h]) <==> Row(run[j].store, h) == Row(run[i].store, h)
  {
    CarriesRow(run, steps, i, j, t, h);
    assert StepsTo(run, steps, j);
  }

  lemma Extend(run: seq<State>, steps: seq<Step>, step: Step) returns (run': seq<State>, steps': seq<Step>)
    requires Run(run, steps) && Enabled(run[|steps|], step)
    ensures Run(run', steps') && |steps'| == |steps| + 1 && run'[|steps'|] == Apply(run[|steps|], step)
  {
    run', steps' := run + [Apply(run[|steps|], step)], steps + [step];
    forall k | 0 <= k < |steps'|
      ensures StepsTo(run', steps', k)
    {
      if k < |steps| {
        assert StepsTo(run, steps, k);
        assert run'[k] == run[k] && run'[k + 1] == run[k + 1] && steps'[k] == steps[k];
      }
    }
  }

  // One thread, about to compile the row it read.
  lemma LoadUnderWay(h: Host, c: Config) returns (run: seq<State>, steps: seq<Step>)
    ensures Run(run, steps)
    ensures run[|steps|] == State(map[h := c], map[], map[h := 0], 1, {}, None, [], Quiet, [Compiling(h, 0, c)])
  {
    var s := State(map[h := c], map[], map[], 0, {}, None, [], Quiet, [Idle]);
    run, steps := [s], [];
    run, steps := Extend(run, steps, Resolve(0, h));
    run, steps := Extend(run, steps, FastPath(0));
    run, steps := Extend(run, steps, Lock(0));
    run, steps := Extend(run, steps, Claim(0));
    run, steps := Extend(run, steps, Read(0));
  }

  /** Without the discipline an update can be missed: it lands while its host is being
      loaded, and the handler compiled from the old row stays resident after it. */
  lemma StaleHandler(h: Host, c: Config, d: Config) returns (run: seq<State>, steps: seq<Step>)
    requires c != d
    ensures Run(run, steps)
    ensures run[|steps|].applier.Quiet? && Row(run[|steps|].store, h) == Some(d) && Stale(run[|steps|], h)
  {
    run, steps := LoadUnderWay(h, c);
    run, steps := Extend(run, steps, WriteRow(h, d));
    run, steps := Extend(run, steps, DropHandler);
    run, steps := Extend(run, steps, Compile(0));
    run, steps := Extend(run, steps, Publish(0));
  }

  /** The handler of a host is resident and not the one compiled from its row, with no event for
      the host half applied. */
  ghost predicate Stale(s: State, h: Host) {
    s.applier != Dropping(h) && h in s.lru && !FromRow(s, h, s.lru[h])
  }

  lemma StepKeepsStale(s: State, step: Step, h: Host)
    requires Enabled(s, step) && AwayInv(s) && MadeInv(s) && Stale(s, h) && step != Evict(h) && !Rewrites(step, h)
    ensures Stale(Apply(s, step), h) && Apply(s, step).lru[h] == s.lru[h]
  {
    StepKeepsResident(s, step, h);
    assert Made(s, h, s.lru[h]);
  }

  /** A stale handler stays resident until it is evicted or the next event for its host lands,
      however many requests it serves. */
  lemma {:induction false} StaleStays(run: seq<State>, steps: seq<Step>, i: nat, k: nat, h: Host)
    requires Run(run, steps) && i <= k < |run| && Stale(run[i], h)
    requires forall q :: i <= q < k ==> steps[q] != Evict(h) && !Rewrites(steps[q], h)
    ensures Stale(run[k], h) && run[k].lru[h] == run[i].lru[h]
  {
    if i < k {
      StaleStays(run, steps, i, k - 1, h);
      InvHoldsThroughout(run, steps, k - 1);
      assert StepsTo(run, steps, k - 1);
      StepKeepsStale(run[k - 1], steps[k - 1], h);
    }
  }

  // ----- requests are served

  /** The thread has a load of the host at hand that failed or found no row. */
  predicate LoadFailed(p: Pc, h: Host) {
    (p.Loaded? || p.Publishing?) && p.host == h && p.result.None?
  }

  ghost predicate NoFailure(s: State, h: Host) {
    forall t :: 0 <= t < |s.pc| ==> !LoadFailed(s.pc[t], h)
  }

  ghost predicate Publishes(s: State, h: Host) {
    exists u :: 0 <= u < |s.pc| && s.pc[u].Publishing? && s.pc[u].host == h
  }

  /** The request is under way to its host's handler: if it waits for a load that has published,
      or no longer waits, the handler is resident. */
  ghost predicate UnderWay(s: State, t: Tid, h: Host) {
    && t < |s.pc| && !s.pc[t].Idle? && s.pc[t].host == h
    && (s.pc[t].Waiting? && (s.pc[t].ch in s.closed || Publishes(s, h)) ==> h in s.lru)
    && (s.pc[t].Woken? ==> h in s.lru)
  }

  // The thread of the request takes a step itself.
  lemma OwnStepGoesOn(s: State, step: Step, t: Tid, h: Host)
    requires Enabled(s, step) && Inv(s) && UnderWay(s, t, h) && !s.pc[t].Serving? && NoFailure(s, h)
    requires ByThread(step) && step.t == t && !step.Cancel?
    ensures UnderWay(Apply(s, step), t, h)
  {
    var r := Apply(s, step);
    OthersStay(s, step, t);
    if step.Claim? && r.pc[t].Waiting? {
      assert s.lock == Some(t) && r.pc[t].ch !in r.closed;
      forall u: Tid | u < |r.pc|
        ensures !r.pc[u].Publishing?
      {
        OthersStay(s, step, u);
        assert u != t ==> !HoldsLock(s.pc[u]);
      }
    }
  }

  // Another thread, an eviction or an event comes between.
  lemma OtherStepGoesOn(s: State, step: Step, t: Tid, h: Host)
    requires Enabled(s, step) && Inv(s) && UnderWay(s, t, h) && NoFailure(s, h)
    requires !(ByThread(step) && step.t == t) && !Drops(s, step, h)
    ensures UnderWay(Apply(s, step), t, h)
  {
    var r := Apply(s, step);
    OthersStay(s, step, t);
    if h in s.lru {
      StepKeepsResident(s, step, h);
    } else if r.pc[t].Waiting? {
      NothingPublishedYet(s, step, t, h);
    }
  }

  // A load that the request waits for is published with its handler or not at all.
  lemma NothingPublishedYet(s: State, step: Step, t: Tid, h: Host)
    requires Enabled(s, step) && Inv(s) && UnderWay(s, t, h) && NoFailure(s, h) && h !in s.lru && s.pc[t].Waiting?
    requires !(ByThread(step) && step.t == t)
    ensures var r := Apply(s, step); r.pc[t].ch in r.closed || Publishes(r, h) ==> h in r.lru
  {
    var r := Apply(s, step);
    OthersStay(s, step, t);
    assert s.pc[t].ch !in s.closed && !Publishes(s, h);
    if step.Release? {
      var u := step.t;
      assert Owns(s, u, s.pc[u].host) && s.pc[u].host != h;
    }
    if u :| 0 <= u < |r.pc| && r.pc[u].Publishing? && r.pc[u].host == h {
      OthersStay(s, step, u);
      assert step == Publish(u) && !LoadFailed(s.pc[u], h);
    }
  }

  /** At this point the thread serves the host. */
  ghost predicate ServesHost(s: State, t: Tid, h: Host) {
    t < |s.pc| && s.pc[t].Serving? && s.pc[t].host == h
  }

  /** Nothing comes between the request and its handler from the i-th step up to the k-th: it is
      not cancelled, no load of its host has failed, and no handler of its host is dropped. */
  ghost predicate Unhindered(run: seq<State>, steps: seq<Step>, i: nat, k: nat, t: Tid, h: Host)
    requires i <= k <= |steps| < |run|
  {
    forall q :: i <= q < k ==> steps[q] != Cancel(t) && NoFailure(run[q], h) && !Drops(run[q], steps[q], h)
  }

  lemma {:induction false} ServedOrUnderWay(run: seq<State>, steps: seq<Step>, i: nat, k: nat, t: Tid, h: Host)
    requires Run(run, steps) && i < k <= |steps| && steps[i] == Resolve(t, h) && Unhindered(run, steps, i, k, t, h)
    ensures UnderWay(run[k], t, h) || exists q :: i < q < k && ServesHost(run[q], t, h)
  {
    assert StepsTo(run, steps, k - 1);
    if i < k - 1 {
      ServedOrUnderWay(run, steps, i, k - 1, t, h);
      if !exists q :: i < q < k && ServesHost(run[q], t, h) {
        InvHoldsThroughout(run, steps, k - 1);
        assert UnderWay(run[k - 1], t, h) && !ServesHost(run[k - 1], t, h);
        if ByThread(steps[k - 1]) && steps[k - 1].t == t {
          OwnStepGoesOn(run[k - 1], steps[k - 1], t, h);
        } else {
          OtherStepGoesOn(run[k - 1], steps[k - 1], t, h);
        }
      }
    }
  }

  /** Every request that ends unhindered was served: between its start and its end its thread
      was serving the host it asked for. */
  lemma RequestIsServed(run: seq<State>, steps: seq<Step>, i: nat, k: nat, t: Tid, h: Host)
    requires Run(run, steps) && i < k <= |steps| && steps[i] == Resolve(t, h) && Unhindered(run, steps, i, k, t, h)
    requires t < |run[k].pc| && run[k].pc[t].Idle?
    ensures exists q :: i < q < k && ServesHost(run[q], t, h)
  {
    ServedOrUnderWay(run, steps, i, k, t, h);
  }
}
