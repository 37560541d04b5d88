/** The control plane's reconciliation of a configuration directory with the retained
    event stream, and its composition with replay on the edges. */
module ControlPlane {
  import opened Basics
  import opened EdgeStore

  /** The directory's hostname map: of several targets that list a host the last wins. */
  function HostMap(targets: seq<Config>, k: nat): map<Host, Config>
    requires k <= |targets|
  {
    if k == 0 then map[]
    else
      var t := targets[k - 1];
      PutFirst(HostMap(targets, k - 1), t.names, |t.names|, t)
  }

  function Directory(targets: seq<Config>): map<Host, Config> {
    HostMap(targets, |targets|)
  }

  /** The i-th target lists the host and no later one does. */
  ghost predicate IsLastToList(targets: seq<Config>, n: nat, i: nat, h: Host)
    requires n <= |targets|
  {
    i < n && h in targets[i].names && forall j :: i < j < n ==> h !in targets[j].names
  }

  lemma NextTarget(targets: seq<Config>, n: nat, h: Host)
    requires n < |targets|
    ensures Row(HostMap(targets, n + 1), h) ==
            if h in targets[n].names then Some(targets[n]) else Row(HostMap(targets, n), h)
  {
    var t := targets[n];
    RowAfterPuts(HostMap(targets, n), t.names, |t.names|, t, h);
    assert t.names[..|t.names|] == t.names;
  }

  /** A host has an entry exactly if some target lists it, and it is the last of these. */
  lemma {:induction false} LastToListWins(targets: seq<Config>, n: nat, h: Host)
    requires n <= |targets|
    ensures h !in HostMap(targets, n) ==> forall i :: 0 <= i < n ==> h !in targets[i].names
    ensures h in HostMap(targets, n) ==>
              exists i: nat :: IsLastToList(targets, n, i, h) && HostMap(targets, n)[h] == targets[i]
  {
    if n > 0 {
      var t := targets[n - 1];
      LastToListWins(targets, n - 1, h);
      NextTarget(targets, n - 1, h);
      if h in t.names {
        assert IsLastToList(targets, n, n - 1, h);
      } else if h in HostMap(targets, n) {
        var i: nat :| IsLastToList(targets, n - 1, i, h) && HostMap(targets, n - 1)[h] == targets[i];
        assert IsLastToList(targets, n, i, h);
      }
    }
  }

  /** Names whose entry in two maps differs: added, changed or removed. */
  function Changed(from: map<Host, Config>, to: map<Host, Config>): (names: set<Host>)
    ensures forall n :: n in names <==> Row(from, n) != Row(to, n)
  {
    set n | n in from.Keys + to.Keys && Row(from, n) != Row(to, n)
  }

  function EventFor(n: Host, next: map<Host, Config>): Event {
    if n in next then Update(n, [n], next[n]) else Delete(n)
  }

  function Message(stream: Retained, n: Host): Option<Event> {
    if n in stream then Some(stream[n]) else None
  }

  /** The stream's change is that, for each of some names, its entry in next was published. */
  ghost predicate Publishes(before: Retained, after: Retained, next: map<Host, Config>, names: set<Host>) {
    forall n {:trigger Message(after, n)} ::
      Message(after, n) == if n in names then Some(EventFor(n, next)) else Message(before, n)
  }

  lemma PublishOne(before: Retained, after: Retained, next: map<Host, Config>, names: set<Host>, n: Host)
    requires Publishes(before, after, next, names)
    ensures Publishes(before, after[n := EventFor(n, next)], next, names + {n})
  {
    forall m
      ensures Message(after[n := EventFor(n, next)], m) ==
              if m in names + {n} then Some(EventFor(m, next)) else Message(before, m)
    {
      assert m != n ==> Message(after[n := EventFor(n, next)], m) == Message(after, m);
    }
  }

  lemma PublishTwice(
      first: Retained, second: Retained, third: Retained, next: map<Host, Config>, a: set<Host>, b: set<Host>)
    requires Publishes(first, second, next, a) && Publishes(second, third, next, b)
    ensures Publishes(first, third, next, a + b)
  {
    forall n
      ensures Message(third, n) == if n in a + b then Some(EventFor(n, next)) else Message(first, n)
    {
      assert Message(second, n) == if n in a then Some(EventFor(n, next)) else Message(first, n);
    }
  }

  function Updated(from: map<Host, Config>, to: map<Host, Config>): (names: set<Host>)
    ensures forall n :: n in names <==> n in to && Row(from, n) != Row(to, n)
  {
    set n | n in to && Row(from, n) != Row(to, n)
  }

  function Removed(from: map<Host, Config>, to: map<Host, Config>): (names: set<Host>)
    ensures forall n {:trigger n in names} :: n in names <==> n in from && n !in to
  {
    set n | n in from && n !in to
  }

  lemma ChangedParts(from: map<Host, Config>, to: map<Host, Config>)
    ensures Changed(from, to) == Updated(from, to) + Removed(from, to)
    ensures Updated(from, to) !! Removed(from, to)
    ensures |Changed(from, to)| == |Updated(from, to)| + |Removed(from, to)|
  {
    var changed, updated, removed := Changed(from, to), Updated(from, to), Removed(from, to);
    forall n
      ensures n in changed <==> n in updated || n in removed
      ensures !(n in updated && n in removed)
    {
    }
    assert changed == updated + removed;
  }

  /** A publishing loop under way: of all the names to publish those no longer to do have been
      published, and so many messages are still accepted. */
  ghost predicate Midway(
      before: Retained, after: Retained, next: map<Host, Config>, all: set<Host>, rest: set<Host>, names: set<Host>,
      left: nat, budget: nat)
  {
    Publishes(before, after, next, names) && all - rest == names && |names| + left == budget
  }

  lemma Skip(
      before: Retained, after: Retained, next: map<Host, Config>, all: set<Host>, rest: set<Host>, names: set<Host>,
      left: nat, budget: nat, n: Host)
    requires Midway(before, after, next, all, rest, names, left, budget) && n !in all
    ensures Midway(before, after, next, all, rest - {n}, names, left, budget)
  {
    assert all - (rest - {n}) == all - rest;
  }

  lemma Send(
      before: Retained, after: Retained, next: map<Host, Config>, all: set<Host>, rest: set<Host>, names: set<Host>,
      left: nat, budget: nat, n: Host)
    requires Midway(before, after, next, all, rest, names, left, budget) && n in all && n in rest
    ensures names + {n} <= all && Publishes(before, after[n := EventFor(n, next)], next, names + {n})
    ensures left > 0 ==>
              Midway(before, after[n := EventFor(n, next)], next, all, rest - {n}, names + {n}, left - 1, budget)
  {
    PublishOne(before, after, next, names, n);
    assert all - (rest - {n}) == names + {n};
  }

  lemma RunsOut(all: set<Host>, rest: set<Host>, n: Host)
    requires n in all && n in rest
    ensures |all - rest| < |all|
  {
    FewerInSubset(all - rest, all);
  }

  class Publisher {
    var byName: map<Host, Config>
    var stream: Retained

    constructor ()
      ensures byName == map[] && stream == map[]
    {
      byName, stream := map[], map[];
    }

    method BuildNext(targets: seq<Config>) returns (next: map<Host, Config>)
      ensures next == Directory(targets)
    {
      next := map[];
      for i := 0 to |targets|
        invariant next == HostMap(targets, i)
      {
        var t := targets[i];
        for j := 0 to |t.names|
          invariant next == PutFirst(HostMap(targets, i), t.names, j, t)
        {
          next := next[t.names[j] := t];
        }
      }
    }

    // The first publishing loop: what is new or changed, in an arbitrary order.
    method PublishUpdates(next: map<Host, Config>, budget: nat, stored: bool)
        returns (ok: bool, left: nat, ghost names: set<Host>)
      modifies this`stream
      ensures Publishes(old(stream), stream, next, names) && names <= Updated(byName, next)
      ensures ok <==> |Updated(byName, next)| <= budget
      ensures ok ==> names == Updated(byName, next) && left == budget - |names|
    {
      ghost var updated, before := Updated(byName, next), stream;
      var rest := next.Keys;
      names, left := {}, budget;
      while rest != {}
        invariant rest <= next.Keys && Midway(before, stream, next, updated, rest, names, left, budget)
        decreases |rest|
      {
        var n :| n in rest;
        if n in byName && byName[n] == next[n] {
          Skip(before, stream, next, updated, rest, names, left, budget, n);
        } else {
          Send(before, stream, next, updated, rest, names, left, budget, n);
          if left == 0 {
            RunsOut(updated, rest, n);
            if stored {
              stream := stream[n := Update(n, [n], next[n])];
              names := names + {n};
            }
            return false, 0, names;
          }
          stream := stream[n := Update(n, [n], next[n])];
          left := left - 1;
          names := names + {n};
        }
        rest := rest - {n};
      }
      return true, left, names;
    }

    // The second publishing loop: a deletion for every name that disappeared.
    method PublishDeletes(next: map<Host, Config>, budget: nat, stored: bool) returns (ok: bool, ghost names: set<Host>)
      modifies this`stream
      ensures Publishes(old(stream), stream, next, names) && names <= Removed(byName, next)
      ensures ok <==> |Removed(byName, next)| <= budget
      ensures ok ==> names == Removed(byName, next)
    {
      ghost var removed, before := Removed(byName, next), stream;
      var rest := byName.Keys;
      var left := budget;
      names := {};
      while rest != {}
        invariant rest <= byName.Keys && Midway(before, stream, next, removed, rest, names, left, budget)
        decreases |rest|
      {
        var n :| n in rest;
        if n in next {
          Skip(before, stream, next, removed, rest, names, left, budget, n);
        } else {
          Send(before, stream, next, removed, rest, names, left, budget, n);
          if left == 0 {
            RunsOut(removed, rest, n);
            if stored {
              stream := stream[n := Delete(n)];
              names := names + {n};
            }
            return false, names;
          }
          stream := stream[n := Delete(n)];
          left := left - 1;
          names := names + {n};
        }
        rest := rest - {n};
      }
      return true, names;
    }

    /** Loads the directory, unless it cannot be read or a target cannot be encoded, and
        publishes what changed since the last successful call, one message a name. The stream
        accepts so many messages and then fails, perhaps after it stored the message. */
    method SyncAll(dir: Option<seq<Config>>, accepted: nat, stored: bool) returns (ok: bool, ghost names: set<Host>)
      modifies this
      ensures dir.None? ==> !ok && stream == old(stream) && byName == old(byName)
      ensures dir.Some? ==> Syncs(old(byName), old(stream), Directory(dir.value), names, ok, byName, stream)
      ensures dir.Some? ==> (ok <==> |Changed(old(byName), Directory(dir.value))| <= accepted)
    {
      if dir.None? {
        return false, {};
      }
      var next := BuildNext(dir.value);
      ChangedParts(byName, next);
      var left;
      ok, left, names := PublishUpdates(next, accepted, stored);
      if !ok {
        return;
      }
      ghost var more, between := {}, stream;
      ok, more := PublishDeletes(next, left, stored);
      PublishTwice(old(stream), between, stream, next, names, more);
      names := names + more;
      if ok {
        byName := next;
      }
    }
  }

  lemma FewerInSubset<T>(a: set<T>, b: set<T>)
    requires a <= b && a != b
    ensures |a| < |b|
  {
    var x :| x in b && x !in a;
    var rest := b - {x};
    assert b == rest + {x} && rest == a + (rest - a);
  }

  /** One call with a readable directory, as a relation on the publisher's state: names are
      published, all that changed if the call succeeds and some of them if it fails. */
  ghost predicate Syncs(byName: map<Host, Config>, stream: Retained, next: map<Host, Config>, names: set<Host>,
                        ok: bool, byName': map<Host, Config>, stream': Retained) {
    && names <= Changed(byName, next)
    && Publishes(stream, stream', next, names)
    && (ok ==> names == Changed(byName, next) && byName' == next)
    && (!ok ==> byName' == byName)
  }

  // ----- the retained live state

  /** The configuration a reader of the stream sees. */
  function Live(stream: Retained): map<Host, Config> {
    map n | n in stream && stream[n].Update? :: stream[n].config
  }

  lemma LiveAfter(before: Retained, after: Retained, next: map<Host, Config>, names: set<Host>, n: Host)
    requires Publishes(before, after, next, names)
    ensures Row(Live(after), n) == if n in names then Row(next, n) else Row(Live(before), n)
  {
    assert Message(after, n) == if n in names then Some(EventFor(n, next)) else Message(before, n);
  }

  lemma SameEntries(a: map<Host, Config>, b: map<Host, Config>)
    requires forall n :: Row(a, n) == Row(b, n)
    ensures a == b
  {
    SameRows(a, b);
  }

  /** After a successful call the stream shows exactly the directory, if and only if it was
      not out of step on a name the call took to be unchanged. */
  lemma SyncedIff(byName: map<Host, Config>, stream: Retained, next: map<Host, Config>, names: set<Host>,
                  byName': map<Host, Config>, stream': Retained)
    requires Syncs(byName, stream, next, names, true, byName', stream')
    ensures Live(stream') == next <==>
            forall n :: Row(next, n) == Row(byName, n) ==> Row(Live(stream), n) == Row(byName, n)
  {
    forall n
      ensures Row(Live(stream'), n) == if Row(next, n) != Row(byName, n) then Row(next, n) else Row(Live(stream), n)
    {
      LiveAfter(stream, stream', next, names, n);
    }
    if forall n :: Row(next, n) == Row(byName, n) ==> Row(Live(stream), n) == Row(byName, n) {
      SameEntries(Live(stream'), next);
    }
    if Live(stream') == next {
      forall n | Row(next, n) == Row(byName, n)
        ensures Row(Live(stream), n) == Row(byName, n)
      {
        assert Row(Live(stream'), n) == Row(Live(stream), n);
      }
    }
  }

  // ----- runs

  datatype State = State(byName: map<Host, Config>, stream: Retained)

  /** A call with a readable directory and its outcome, or a restart, which keeps the stream
      and forgets what was published. */
  datatype Call = Sync(targets: seq<Config>, ok: bool, names: set<Host>) | Restart

  ghost predicate Steps(run: seq<State>, calls: seq<Call>, k: nat)
    requires k < |calls| < |run|
  {
    var s, t := run[k], run[k + 1];
    match calls[k]
    case Sync(targets, ok, names) => Syncs(s.byName, s.stream, Directory(targets), names, ok, t.byName, t.stream)
    case Restart => t == State(map[], s.stream)
  }

  ghost predicate IsRun(run: seq<State>, calls: seq<Call>) {
    && |run| == |calls| + 1 && run[0] == State(map[], map[])
    && forall k :: 0 <= k < |calls| ==> Steps(run, calls, k)
  }

  ghost predicate Follows(run: seq<State>, calls: seq<Call>, k: nat)
    requires k + 1 < |calls| < |run|
  {
    calls[k + 1].Sync? ==>
      match calls[k]
      case Sync(targets, ok, _) => ok || Directory(calls[k + 1].targets) == Directory(targets)
      case Restart => Live(run[k + 1].stream).Keys <= Directory(calls[k + 1].targets).Keys
  }

  /** A failed call is followed by calls on the same directory contents until one succeeds,
      and a restart by a call on contents that still have every live name. */
  ghost predicate Retried(run: seq<State>, calls: seq<Call>)
    requires |calls| < |run|
  {
    forall k :: 0 <= k < |calls| - 1 ==> Follows(run, calls, k)
  }

  /** The stream agrees with what was last published, except, after a failed call, on names
      that the retry will publish. */
  ghost predicate InStep(s: State, next: map<Host, Config>) {
    forall n :: Row(Live(s.stream), n) != Row(s.byName, n) ==> Row(next, n) != Row(s.byName, n)
  }

  lemma StepKeepsInStep(run: seq<State>, calls: seq<Call>, k: nat)
    requires k < |calls| < |run| && Steps(run, calls, k) && calls[k].Sync? &&
             InStep(run[k], Directory(calls[k].targets))
    ensures calls[k].ok ==> Live(run[k + 1].stream) == run[k + 1].byName == Directory(calls[k].targets)
    ensures !calls[k].ok ==> InStep(run[k + 1], Directory(calls[k].targets))
  {
    var s, c, t := run[k], calls[k], run[k + 1];
    var next := Directory(c.targets);
    if c.ok {
      SyncedIff(s.byName, s.stream, next, c.names, t.byName, t.stream);
    } else {
      forall n
        ensures Row(Live(t.stream), n) == if n in c.names then Row(next, n) else Row(Live(s.stream), n)
      {
        LiveAfter(s.stream, t.stream, next, c.names, n);
      }
    }
  }

  // After a restart nothing counts as published, so live names must all be published again.
  lemma RestartedInStep(s: State, next: map<Host, Config>)
    requires s.byName == map[]
    ensures InStep(s, next) <==> Live(s.stream).Keys <= next.Keys
  {
    if InStep(s, next) {
      forall n | n in Live(s.stream)
        ensures n in next
      {
        assert Row(Live(s.stream), n) != Row(s.byName, n);
      }
    }
  }

  lemma {:induction false} RunStaysInStep(run: seq<State>, calls: seq<Call>, k: nat)
    requires IsRun(run, calls) && Retried(run, calls) && k < |calls| && calls[k].Sync?
    ensures InStep(run[k], Directory(calls[k].targets))
  {
    if k > 0 {
      assert Steps(run, calls, k - 1) && Follows(run, calls, k - 1);
      if calls[k - 1].Sync? {
        RunStaysInStep(run, calls, k - 1);
        StepKeepsInStep(run, calls, k - 1);
      } else {
        RestartedInStep(run[k], Directory(calls[k].targets));
      }
    }
  }

  /** After every successful call of every run the stream's live state is the directory. */
  lemma LiveStateIsDirectory(run: seq<State>, calls: seq<Call>, k: nat)
    requires IsRun(run, calls) && Retried(run, calls) && k < |calls| && calls[k].Sync? && calls[k].ok
    ensures Live(run[k + 1].stream) == Directory(calls[k].targets)
  {
    RunStaysInStep(run, calls, k);
    assert Steps(run, calls, k);
    StepKeepsInStep(run, calls, k);
  }

  /** After a restart a successful call brings the stream to the directory exactly if no live
      name is missing from it: what was removed in between is not deleted. */
  lemma RestartedIff(
      stream: Retained, next: map<Host, Config>, names: set<Host>, byName': map<Host, Config>, stream': Retained)
    requires Syncs(map[], stream, next, names, true, byName', stream')
    ensures Live(stream') == next <==> Live(stream).Keys <= next.Keys
  {
    SyncedIff(map[], stream, next, names, byName', stream');
    RestartedInStep(State(map[], stream), next);
  }

  /** A call after a successful one publishes only names whose entry differs between the two
      directories, and all of them if it succeeds. */
  lemma PublishesTheDifference(run: seq<State>, calls: seq<Call>, k: nat)
    requires IsRun(run, calls) && k + 1 < |calls| && calls[k].Sync? && calls[k].ok && calls[k + 1].Sync?
    ensures var changed := Changed(Directory(calls[k].targets), Directory(calls[k + 1].targets));
            calls[k + 1].names <= changed && (calls[k + 1].ok ==> calls[k + 1].names == changed)
  {
    assert Steps(run, calls, k) && Steps(run, calls, k + 1);
  }

  lemma OneTarget(c: Config)
    requires |c.names| == 1
    ensures Directory([c]) == map[c.names[0] := c]
  {
    assert HostMap([c], 0) == map[];
    assert PutFirst(map[], c.names, 0, c) == map[];
  }

  /** Without the retry the stream can stay wrong: a name published by a failed call and gone
      from the directory before the next one is never deleted. */
  lemma LostDeletion(a: Config)
    requires a.names == ["a"]
    ensures var lost := State(map[], map["a" := Update("a", ["a"], a)]);
            var b := Config(["b"], "");
            && Syncs(map[], map[], Directory([a, b]), {"a"}, false, lost.byName, lost.stream)
            && exists stream' ::
                 Syncs(lost.byName, lost.stream, Directory([b]), {"b"}, true, Directory([b]), stream') &&
                 Live(stream') != Directory([b])
  {
    var b := Config(["b"], "");
    OneTarget(a);
    OneTarget(b);
    var next := Directory([a, b]);
    assert HostMap([a, b], 1) == PutFirst(HostMap([a, b], 0), ["a"], 1, a) == map["a" := a] by {
      assert PutFirst(map[], ["a"], 0, a) == map[];
    }
    assert next == PutFirst(map["a" := a], ["b"], 1, b);
    assert PutFirst(map["a" := a], ["b"], 0, b) == map["a" := a];
    assert next == map["a" := a, "b" := b];
    assert Changed(map[], next) == {"a", "b"};
    var s1: Retained := map["a" := Update("a", ["a"], a)];
    assert Publishes(map[], s1, next, {"a"});
    assert Changed(map[], Directory([b])) == {"b"};
    var s2 := s1["b" := Update("b", ["b"], b)];
    assert Publishes(s1, s2, Directory([b]), {"b"});
    assert Syncs(map[], s1, Directory([b]), {"b"}, true, Directory([b]), s2);
    assert "a" in Live(s2);
  }

  // ----- all the way to the edges

  /** A map as the directory builds it: targets are filed under names that they list, and all
      the names they list have an entry. */
  ghost predicate Filed(dir: map<Host, Config>) {
    && (forall n :: n in dir ==> n in dir[n].names)
    && forall n, h :: n in dir && h in dir[n].names ==> h in dir
  }

  /** No listed name was taken over by another target. */
  ghost predicate Undisputed(dir: map<Host, Config>) {
    forall n, h :: n in dir && h in dir[n].names ==> Row(dir, h) == Some(dir[n])
  }

  lemma {:induction false} FiledUnder(targets: seq<Config>, k: nat, n: Host) returns (i: nat)
    requires k <= |targets| && n in HostMap(targets, k)
    ensures i < k && HostMap(targets, k)[n] == targets[i] && n in targets[i].names
  {
    var t := targets[k - 1];
    RowAfterPuts(HostMap(targets, k - 1), t.names, |t.names|, t, n);
    assert t.names[..|t.names|] == t.names;
    if n in t.names {
      assert Row(HostMap(targets, k), n) == Some(t);
      i := k - 1;
    } else {
      assert Row(HostMap(targets, k), n) == Row(HostMap(targets, k - 1), n);
      i := FiledUnder(targets, k - 1, n);
    }
  }

  /** A stream as the publisher leaves it: a deletion or an update of its own subject. */
  ghost predicate WellFormed(stream: Retained) {
    forall n :: n in stream ==> stream[n] == Delete(n) || stream[n].Update?
  }

  lemma {:induction false} RunIsWellFormed(run: seq<State>, calls: seq<Call>, k: nat)
    requires IsRun(run, calls) && k < |run|
    ensures WellFormed(run[k].stream)
  {
    if k > 0 {
      RunIsWellFormed(run, calls, k - 1);
      assert Steps(run, calls, k - 1);
      var before, after := run[k - 1].stream, run[k].stream;
      forall n | n in after
        ensures after[n] == Delete(n) || after[n].Update?
      {
        assert Message(after, n) == Some(after[n]);
        assert Message(before, n).Some? ==> n in before;
      }
    }
  }

  // Every message is right about every host it speaks of.
  lemma MessageIsRight(stream: Retained, s: Host, h: Host)
    requires WellFormed(stream) && Filed(Live(stream)) && Undisputed(Live(stream))
    requires s in stream && Speaks(stream[s], h)
    ensures Verdict(stream[s]) == Row(Live(stream), h)
  {
    if stream[s].Update? {
      assert s in Live(stream) && Live(stream)[s] == stream[s].config;
      assert h in stream[s].config.names;
    } else {
      assert stream[s] == Delete(s);
    }
  }

  /** The published stream is consistent exactly if no target lost a listed name to another. */
  lemma ConsistentIff(stream: Retained)
    requires WellFormed(stream) && Filed(Live(stream))
    ensures Consistent(stream) <==> Undisputed(Live(stream))
  {
    var live := Live(stream);
    if Undisputed(live) {
      forall s, t, h | s in stream && t in stream && Speaks(stream[s], h) && Speaks(stream[t], h)
        ensures Verdict(stream[s]) == Verdict(stream[t])
      {
        MessageIsRight(stream, s, h);
        MessageIsRight(stream, t, h);
      }
    } else {
      var n, h :| n in live && h in live[n].names && Row(live, h) != Some(live[n]);
      assert h in live;
      assert Speaks(stream[n], h) && Speaks(stream[h], h);
      assert Verdict(stream[n]) != Verdict(stream[h]);
    }
  }

  lemma TargetIsLive(stream: Retained)
    requires WellFormed(stream) && Filed(Live(stream)) && Undisputed(Live(stream))
    ensures TargetStore(stream) == Live(stream)
  {
    forall h
      ensures Row(TargetStore(stream), h) == Row(Live(stream), h)
    {
      if h in Live(stream) {
        assert Speaks(stream[h], h);
        assert Affected(stream, h);
      }
      if Affected(stream, h) {
        var s :| s in stream && Speaks(stream[s], h) && Verdict(stream[s]) == TargetRow(stream, h);
        MessageIsRight(stream, s, h);
      }
    }
    SameRows(TargetStore(stream), Live(stream));
  }

  lemma {:induction false} ListedIsFiled(targets: seq<Config>, k: nat, i: nat, h: Host)
    requires i < k <= |targets| && h in targets[i].names
    ensures h in HostMap(targets, k)
  {
    var t := targets[k - 1];
    RowAfterPuts(HostMap(targets, k - 1), t.names, |t.names|, t, h);
    assert t.names[..|t.names|] == t.names;
    if i < k - 1 {
      ListedIsFiled(targets, k - 1, i, h);
      assert Row(HostMap(targets, k - 1), h).Some?;
    }
    assert Row(HostMap(targets, k), h).Some?;
  }

  lemma DirectoryIsFiled(targets: seq<Config>)
    ensures Filed(Directory(targets))
  {
    var dir := Directory(targets);
    forall n | n in dir
      ensures n in dir[n].names
    {
      var i := FiledUnder(targets, |targets|, n);
    }
    forall n, h | n in dir && h in dir[n].names
      ensures h in dir
    {
      var i := FiledUnder(targets, |targets|, n);
      ListedIsFiled(targets, |targets|, i, h);
    }
  }

  /** From the directory to an edge: after a successful call, replaying the stream gives the
      same store in every order exactly if no target lost a listed name to another, and then
      every complete replay gives the directory, exactly if the edge started without rows
      the stream knows nothing of. */
  lemma EdgesFollowDirectory(run: seq<State>, calls: seq<Call>, k: nat)
    requires IsRun(run, calls) && Retried(run, calls) && k < |calls| && calls[k].Sync? && calls[k].ok
    ensures OrderIndependent(run[k + 1].stream) <==> Undisputed(Directory(calls[k].targets))
    ensures Undisputed(Directory(calls[k].targets)) ==>
            forall s, ds :: Complete(run[k + 1].stream, ds) ==>
              (Replayed(s, ds) == Directory(calls[k].targets) <==> s.Keys <= AffectedHosts(run[k + 1].stream))
  {
    var stream := run[k + 1].stream;
    LiveStateIsDirectory(run, calls, k);
    DirectoryIsFiled(calls[k].targets);
    RunIsWellFormed(run, calls, k + 1);
    ConsistentIff(stream);
    OrderIndependentIff(stream);
    if Undisputed(Live(stream)) {
      TargetIsLive(stream);
      forall s, ds | Complete(stream, ds)
        ensures Replayed(s, ds) == Live(stream) <==> s.Keys <= AffectedHosts(stream)
      {
        ReplayConverges(stream, s, ds);
      }
    }
  }
}
