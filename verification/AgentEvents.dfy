/** What the outside sees of a run: which states an agent activates and
    deactivates, and the readiness events it sends. */
module AgentEvents {
  import opened Wrappers
  import opened Tree
  import opened Agents
  import opened AgentAggregate

  /** What an observer of agent `i` knows after part of the log: the state the
      agent last activated and has not deactivated since, activations minus
      deactivations, and the last readiness announced. */
  datatype Watch = Watch(open: Option<State>, balance: int, paired: bool, ready: bool, alternating: bool)

  function Observe(v: Watch, e: Event, i: nat): Watch {
    if e.agent != i then v
    else
      match e
      case Activated(_, s) => v.(open := Some(s), balance := v.balance + 1)
      case Deactivated(_, s) =>
        v.(open := None, balance := v.balance - 1, paired := v.paired && v.open == Some(s))
      case Notified(_, READY_AGAIN) => v.(ready := true, alternating := v.alternating && !v.ready)
      case Notified(_, NOT_READY) => v.(ready := false, alternating := v.alternating && v.ready)
      case Notified(_, _) => v
  }

  function Replay(log: seq<Event>, i: nat, ready: bool): Watch {
    if log == [] then Watch(None, 0, true, ready, true)
    else Observe(Replay(log[..|log| - 1], i, ready), log[|log| - 1], i)
  }

  function ReplayOn(v: Watch, events: seq<Event>, i: nat): Watch
    decreases |events|
  {
    if events == [] then v else ReplayOn(Observe(v, events[0], i), events[1..], i)
  }

  lemma {:induction false} ReplayAppend(log: seq<Event>, more: seq<Event>, i: nat, ready: bool)
    ensures Replay(log + more, i, ready) == ReplayOn(Replay(log, i, ready), more, i)
    decreases |more|
  {
    if more == [] {
      assert log + more == log;
    } else {
      assert log + more == (log + [more[0]]) + more[1..];
      assert (log + [more[0]])[..|log|] == log;
      ReplayAppend(log + [more[0]], more[1..], i, ready);
    }
  }

  // ----- what the flags of the observer mean

  /** The event is an activation or deactivation by `i`. */
  predicate Switches(e: Event, i: nat) {
    e.agent == i && !e.Notified?
  }

  /** Every deactivation by `i` names the state `i` activated last, with no
      other activation or deactivation by `i` in between. */
  ghost predicate DeactivatesOnlyItsOwn(log: seq<Event>, i: nat) {
    forall n :: 0 <= n < |log| && log[n].agent == i && log[n].Deactivated? ==>
      exists m :: 0 <= m < n && log[m] == Activated(i, log[n].state) && QuietBetween(log, i, m, n)
  }

  ghost predicate QuietBetween(log: seq<Event>, i: nat, m: nat, n: nat)
    requires n <= |log|
  {
    forall k :: m < k < n ==> !Switches(log[k], i)
  }

  predicate Announces(e: Event, i: nat) {
    e == Notified(i, READY_AGAIN) || e == Notified(i, NOT_READY)
  }

  /** `i` announces readiness and its loss in strict turns, starting with the
      opposite of `ready`. */
  ghost predicate AnnouncesInTurns(log: seq<Event>, i: nat, ready: bool) {
    && (forall n :: 0 <= n < |log| && Announces(log[n], i) && FirstAnnouncement(log, i, n) ==>
          log[n] == Notified(i, if ready then NOT_READY else READY_AGAIN))
    && (forall m, n :: 0 <= m < n < |log| && Announces(log[m], i) && Announces(log[n], i) && NoneBetween(log, i, m, n) ==>
          log[m] != log[n])
  }

  ghost predicate FirstAnnouncement(log: seq<Event>, i: nat, n: nat)
    requires n <= |log|
  {
    forall k :: 0 <= k < n ==> !Announces(log[k], i)
  }

  ghost predicate NoneBetween(log: seq<Event>, i: nat, m: nat, n: nat)
    requires n <= |log|
  {
    forall k :: m < k < n ==> !Announces(log[k], i)
  }

  lemma {:induction false} OpenWasActivated(log: seq<Event>, i: nat, ready: bool)
    ensures Replay(log, i, ready).open.Some? ==>
      exists m :: 0 <= m < |log| && log[m] == Activated(i, Replay(log, i, ready).open.value)
        && QuietBetween(log, i, m, |log|)
  {
    if log != [] {
      var n := |log| - 1;
      OpenWasActivated(log[..n], i, ready);
      var open := Replay(log, i, ready).open;
      if open.Some? {
        if log[n].agent == i && log[n].Activated? {
          assert QuietBetween(log, i, n, |log|);
        } else {
          var m :| 0 <= m < n && log[..n][m] == Activated(i, open.value) && QuietBetween(log[..n], i, m, n);
          assert log[m] == Activated(i, open.value);
          forall k | m < k < |log| ensures !Switches(log[k], i) {
            if k < n { assert log[..n][k] == log[k]; }
          }
          assert QuietBetween(log, i, m, |log|);
        }
      }
    }
  }

  lemma {:induction false} PairedMeans(log: seq<Event>, i: nat, ready: bool)
    requires Replay(log, i, ready).paired
    ensures DeactivatesOnlyItsOwn(log, i)
  {
    if log != [] {
      var n := |log| - 1;
      PairedMeans(log[..n], i, ready);
      forall k | 0 <= k < |log| && log[k].agent == i && log[k].Deactivated?
        ensures exists m :: 0 <= m < k && log[m] == Activated(i, log[k].state) && QuietBetween(log, i, m, k)
      {
        if k == n {
          OpenWasActivated(log[..n], i, ready);
          var m :| 0 <= m < n && log[..n][m] == Activated(i, log[n].state) && QuietBetween(log[..n], i, m, n);
          assert log[m] == log[..n][m];
          assert forall j :: m < j < n ==> log[..n][j] == log[j];
          assert QuietBetween(log, i, m, n);
        } else {
          assert log[..n][k] == log[k];
          var m :| 0 <= m < k && log[..n][m] == Activated(i, log[k].state) && QuietBetween(log[..n], i, m, k);
          assert log[m] == log[..n][m];
          assert forall j :: m < j < k ==> log[..n][j] == log[j];
          assert QuietBetween(log, i, m, k);
        }
      }
    }
  }

  /** `ready` of the observer is the last announcement, or the initial value. */
  lemma {:induction false} ReadyMeans(log: seq<Event>, i: nat, ready: bool)
    ensures FirstAnnouncement(log, i, |log|) ==> Replay(log, i, ready).ready == ready
    ensures forall m :: 0 <= m < |log| && Announces(log[m], i) && NoneBetween(log, i, m, |log|) ==>
      (Replay(log, i, ready).ready <==> log[m] == Notified(i, READY_AGAIN))
  {
    if log != [] {
      var n := |log| - 1;
      ReadyMeans(log[..n], i, ready);
      assert forall j :: 0 <= j < n ==> log[..n][j] == log[j];
      if FirstAnnouncement(log, i, |log|) {
        assert !Announces(log[n], i);
        assert FirstAnnouncement(log[..n], i, n);
      }
      forall m | 0 <= m < |log| && Announces(log[m], i) && NoneBetween(log, i, m, |log|)
        ensures Replay(log, i, ready).ready <==> log[m] == Notified(i, READY_AGAIN)
      {
        if m < n {
          assert !Announces(log[n], i);
          assert NoneBetween(log[..n], i, m, n);
          assert Announces(log[..n][m], i);
        }
      }
    }
  }

  lemma {:induction false} AlternatingMeans(log: seq<Event>, i: nat, ready: bool)
    requires Replay(log, i, ready).alternating
    ensures AnnouncesInTurns(log, i, ready)
  {
    if log != [] {
      var n := |log| - 1;
      var init := log[..n];
      AlternatingMeans(init, i, ready);
      ReadyMeans(init, i, ready);
      assert forall j :: 0 <= j < n ==> init[j] == log[j];
      forall k | 0 <= k < |log| && Announces(log[k], i) && FirstAnnouncement(log, i, k)
        ensures log[k] == Notified(i, if ready then NOT_READY else READY_AGAIN)
      {
        assert FirstAnnouncement(init, i, k);
      }
      forall m, k | 0 <= m < k < |log| && Announces(log[m], i) && Announces(log[k], i) && NoneBetween(log, i, m, k)
        ensures log[m] != log[k]
      {
        assert NoneBetween(init, i, m, k);
        assert Announces(init[m], i);
      }
    }
  }

  // ----- one state change

  /** Activations not yet undone by a deactivation, beyond the one in force. */
  function Leaked(w: World, x: nat): int
    requires x < |w.agents|
  {
    Replay(w.log, x, true).balance - (if w.agents[x].mode.WasActivated? then 1 else 0)
  }

  lemma {:induction false} ObserveChange(v: Watch, a: Agent, i: nat, s: State, activate: bool, x: nat)
    ensures var r := ReplayOn(v, ChangeEvents(a, i, s, activate), x);
      if x != i then r == v
      else
        var undone := a.mode.WasActivated?;
        var flips := a.selected.Ready() != s.Ready();
        r == Watch(
          if activate then Some(s) else if undone then None else v.open,
          v.balance + (if activate then 1 else 0) - (if undone then 1 else 0),
          v.paired && (undone ==> v.open == Some(a.selected)),
          if flips then s.Ready() else v.ready,
          v.alternating && (flips ==> v.ready != s.Ready()))
  {
    var undo := if a.mode.WasActivated? then [Deactivated(i, a.selected)] else [];
    var make := if activate then [Activated(i, s)] else [];
    var signals := Signals(i, a.selected, s);
    if x != i {
      OthersReplay(v, ChangeEvents(a, i, s, activate), x);
    } else {
      ReplayOnAppend(v, undo, make, x);
      ReplayOnAppend(v, undo + make, signals, x);
      ObserveSignals(ReplayOn(v, undo + make, x), i, a.selected, s);
    }
  }

  lemma {:induction false} ObserveSignals(v: Watch, i: nat, was: State, to: State)
    ensures ReplayOn(v, Signals(i, was, to), i) ==
      if was.Ready() == to.Ready() then v
      else v.(ready := to.Ready(), alternating := v.alternating && v.ready != to.Ready())
  {
    var changed, level := [Notified(i, STATE_CHANGED)], [Notified(i, LEVEL_CHANGED)];
    if was.Ready() != to.Ready() {
      var e := Notified(i, if to.Ready() then READY_AGAIN else NOT_READY);
      assert Signals(i, was, to) == changed + (level + [e]);
      ReplayOnAppend(v, changed, level + [e], i);
      ReplayOnAppend(v, level, [e], i);
    } else if was.level != to.level {
      assert Signals(i, was, to) == changed + level;
      SilentReplay(v, changed + level, i);
    } else {
      assert Signals(i, was, to) == changed;
    }
  }

  lemma {:induction false} OthersReplay(v: Watch, events: seq<Event>, x: nat)
    requires forall k :: 0 <= k < |events| ==> events[k].agent != x
    ensures ReplayOn(v, events, x) == v
    decreases |events|
  {
    if events != [] {
      OthersReplay(v, events[1..], x);
    }
  }

  lemma {:induction false} ReplayOnAppend(v: Watch, first: seq<Event>, second: seq<Event>, i: nat)
    ensures ReplayOn(v, first + second, i) == ReplayOn(ReplayOn(v, first, i), second, i)
    decreases |first|
  {
    if first == [] {
      assert first + second == second;
    } else {
      assert (first + second)[1..] == first[1..] + second;
      ReplayOnAppend(Observe(v, first[0], i), first[1..], second, i);
    }
  }

  /** A state change loses track of an activation exactly when it silently
      releases a descendant that had activated the forwarded state itself. */
  lemma {:induction false} ChangeLeaks(links: seq<Link>, w: World, i: nat, s: State, activate: bool, now: int, x: nat)
    requires Fits(links, w.agents) && i < |links| && x < |links|
    ensures Leaked(Change(links, w, i, s, activate, now), x) == Leaked(w, x)
      + (if w.agents[i].selected.forward && Below(links, i, x)
            && w.agents[x].selected == w.agents[i].selected && w.agents[x].mode.WasActivated?
         then 1 else 0)
  {
    ReplayAppend(w.log, ChangeEvents(w.agents[i], i, s, activate), x, true);
    ObserveChange(Replay(w.log, x, true), w.agents[i], i, s, activate, x);
    if Below(links, i, i) {
      BelowIsLater(links, i, i);
    }
  }

  // ----- invariants of runs

  ghost predicate WatchedAt(w: World, x: nat, ready: bool, quiet: bool)
    requires x < |w.agents|
  {
    var v := Replay(w.log, x, ready);
    var a := w.agents[x];
    && v.paired
    && (a.mode.WasActivated? ==> v.open == Some(a.selected))
    && (quiet ==>
          && v.balance == (if a.mode.WasActivated? then 1 else 0)
          && v.ready == a.selected.Ready()
          && v.alternating)
  }

  /** What every run keeps; `quiet` adds what holds without forwarding states. */
  ghost predicate Watched(w: World, ready: seq<bool>, quiet: bool) {
    && |ready| == |w.agents|
    && (quiet ==> Quiet(w.agents))
    && forall x :: 0 <= x < |w.agents| ==> WatchedAt(w, x, ready[x], quiet)
  }

  lemma {:induction false} ChangeKeepsWatch(links: seq<Link>, w: World, i: nat, s: State, activate: bool, now: int,
                         ready: seq<bool>, quiet: bool)
    requires Fits(links, w.agents) && i < |links| && Watched(w, ready, quiet)
    requires quiet ==> !s.forward
    ensures Watched(Change(links, w, i, s, activate, now), ready, quiet)
  {
    var r := Change(links, w, i, s, activate, now);
    if Below(links, i, i) {
      BelowIsLater(links, i, i);
    }
    assert quiet ==> QuietAgent(w.agents[i]);
    forall x | 0 <= x < |r.agents| ensures WatchedAt(r, x, ready[x], quiet) {
      assert WatchedAt(w, x, ready[x], quiet);
      ReplayAppend(w.log, ChangeEvents(w.agents[i], i, s, activate), x, ready[x]);
      ObserveChange(Replay(w.log, x, ready[x]), w.agents[i], i, s, activate, x);
    }
    if quiet {
      forall x | 0 <= x < |r.agents| ensures QuietAgent(r.agents[x]) {
        assert QuietAgent(w.agents[x]);
      }
    }
  }

  lemma {:induction false} ForwardKeepsWatch(links: seq<Link>, w: World, i: nat, k: nat, s: State, now: int,
                                             ready: seq<bool>, whole: bool)
    requires Fits(links, w.agents) && i < |links| && k <= |links[i].children|
    requires Watched(w, ready, false)
    ensures Watched(if whole then ForwardTo(links, w, i, s, now) else ForwardFrom(links, w, i, k, s, now), ready, false)
    decreases |links| - i, if whole then |links[i].children| + 1 else |links[i].children| - k
  {
    if whole {
      if w.agents[i].selected != s {
        ChangeKeepsWatch(links, w, i, s, false, now, ready, false);
        var w1 := Change(links, w, i, s, false, now);
        var w2 := w1.(agents := w1.agents[i := w1.agents[i].(mode := WasForwarded, next := 0)]);
        forall x | 0 <= x < |w2.agents| ensures WatchedAt(w2, x, ready[x], false) {
          assert WatchedAt(w1, x, ready[x], false);
        }
        ForwardKeepsWatch(links, w2, i, 0, s, now, ready, false);
      }
    } else if k < |links[i].children| {
      ChildIsBelow(links, i, k);
      var c := links[i].children[k];
      ForwardKeepsWatch(links, w, c, 0, s, now, ready, true);
      ForwardKeepsWatch(links, ForwardTo(links, w, c, s, now), i, k + 1, s, now, ready, false);
    }
  }

  lemma {:induction false} ClimbKeepsWatch(links: seq<Link>, w: World, i: nat, now: int, ready: seq<bool>, quiet: bool)
    requires Fits(links, w.agents) && i < |links| && Watched(w, ready, quiet)
    ensures Watched(Climb(links, w, i, now), ready, quiet)
    decreases i
  {
    if links[i].parent.Some? {
      assert LinkedAt(links, i);
      var p := links[i].parent.value;
      var s := Aggregate(links, w.agents, p);
      if s != w.agents[p].selected {
        if quiet { FoldIsQuiet(links, w.agents, p); }
        ChangeKeepsWatch(links, w, p, s, false, now, ready, quiet);
        ClimbKeepsWatch(links, Change(links, w, p, s, false, now), p, now, ready, quiet);
      }
    }
  }

  lemma {:induction false} SetKeepsWatch(links: seq<Link>, w: World, i: nat, s: State, now: int, ready: seq<bool>, quiet: bool)
    requires Fits(links, w.agents) && i < |links| && Watched(w, ready, quiet)
    requires quiet ==> !s.forward
    ensures Watched(SetState(links, w, i, s, now), ready, quiet)
  {
    if Takes(links, w.agents, i, s) {
      ChangeKeepsWatch(links, w, i, s, true, now, ready, quiet);
      var w1 := Change(links, w, i, s, true, now);
      if s.forward {
        ForwardKeepsWatch(links, w1, i, 0, s, now, ready, false);
        ClimbKeepsWatch(links, ForwardFrom(links, w1, i, 0, s, now), i, now, ready, quiet);
      } else {
        ClimbKeepsWatch(links, w1, i, now, ready, quiet);
      }
    }
  }

  /** Rewriting fields the observer does not see, and logging updates. */
  lemma {:induction false} TouchKeepsWatch(w: World, i: nat, a: Agent, more: seq<Event>, ready: seq<bool>, quiet: bool)
    requires i < |w.agents| && Watched(w, ready, quiet)
    requires a.selected == w.agents[i].selected && a.mode == w.agents[i].mode && a.states == w.agents[i].states
    requires forall k :: 0 <= k < |more| ==>
      more[k].Notified? && more[k].signal != READY_AGAIN && more[k].signal != NOT_READY
    ensures Watched(World(w.agents[i := a], w.log + more), ready, quiet)
  {
    var r := World(w.agents[i := a], w.log + more);
    forall x | 0 <= x < |r.agents| ensures WatchedAt(r, x, ready[x], quiet) {
      assert WatchedAt(w, x, ready[x], quiet);
      ReplayAppend(w.log, more, x, ready[x]);
      SilentReplay(Replay(w.log, x, ready[x]), more, x);
    }
    if quiet {
      forall x | 0 <= x < |r.agents| ensures QuietAgent(r.agents[x]) {
        assert QuietAgent(w.agents[x]);
      }
    }
  }

  lemma {:induction false} SilentReplay(v: Watch, more: seq<Event>, x: nat)
    requires forall k :: 0 <= k < |more| ==>
      more[k].Notified? && more[k].signal != READY_AGAIN && more[k].signal != NOT_READY
    ensures ReplayOn(v, more, x) == v
    decreases |more|
  {
    if more != [] {
      SilentReplay(v, more[1..], x);
    }
  }

  lemma {:induction false} UpdatedKeepsWatch(links: seq<Link>, w: World, i: nat, changed: bool, now: int, ready: seq<bool>, quiet: bool)
    requires Fits(links, w.agents) && i < |links| && Watched(w, ready, quiet)
    ensures Watched(Updated(links, w, i, changed, now), ready, quiet)
  {
    var more := [Notified(i, if changed then VALUE_CHANGED else VALUE_NOT_CHANGED)];
    TouchKeepsWatch(w, i, Stamped(w.agents[i], now), more, ready, quiet);
    if changed {
      var w1 := World(w.agents[i := Stamped(w.agents[i], now)], w.log + more);
      if quiet { FoldIsQuiet(links, w1.agents, i); }
      SetKeepsWatch(links, w1, i, Wanted(links, w1.agents, i), now, ready, quiet);
    }
  }

  lemma {:induction false} StepKeepsWatch(links: seq<Link>, w: World, op: Op, ready: seq<bool>, quiet: bool)
    requires Fits(links, w.agents) && OpFits(links, op) && Watched(w, ready, quiet)
    ensures Watched(Step(links, w, op), ready, quiet)
  {
    assert w.log + [] == w.log;
    match op
    case SetValueOp(i, value, now) =>
      if value == w.agents[i].value {
        UpdatedKeepsWatch(links, w, i, false, now, ready, quiet);
      } else {
        TouchKeepsWatch(w, i, w.agents[i].(value := value), [], ready, quiet);
        UpdatedKeepsWatch(links, w.(agents := w.agents[i := w.agents[i].(value := value)]), i, true, now, ready, quiet);
      }
    case RefreshedOp(i, changed, now) =>
      UpdatedKeepsWatch(links, w, i, changed, now, ready, quiet);
    case FailOp(i, error, now) =>
      var a := w.agents[i];
      var a1 := if a.failDelay > 0 then a.(next := now + a.failDelay) else a;
      TouchKeepsWatch(w, i, a1, [], ready, quiet);
      SetKeepsWatch(links, w.(agents := w.agents[i := a1]), i, error, now, ready, quiet);
  }

  lemma {:induction false} RunKeepsWatch(links: seq<Link>, w: World, ops: seq<Op>, ready: seq<bool>, quiet: bool)
    requires Fits(links, w.agents) && Watched(w, ready, quiet)
    requires forall k :: 0 <= k < |ops| ==> OpFits(links, ops[k])
    ensures Watched(Run(links, w, ops), ready, quiet)
    decreases |ops|
  {
    if ops != [] {
      StepKeepsWatch(links, w, ops[0], ready, quiet);
      RunKeepsWatch(links, Step(links, w, ops[0]), ops[1..], ready, quiet);
    }
  }

  // ----- start

  /** Agents as they are before `start`: nothing activated, nothing logged. */
  ghost predicate Fresh(w: World) {
    w.log == [] && forall x :: 0 <= x < |w.agents| ==> w.agents[x].mode == WasSet
  }

  lemma {:induction false} StartKeepsWatch(links: seq<Link>, w: World, i: nat, k: nat, now: int,
                                           ready: seq<bool>, whole: bool)
    requires Fits(links, w.agents) && i < |links| && k <= |links[i].children|
    requires Watched(w, ready, false)
    ensures Watched(Started(links, w, i, k, now, whole), ready, false)
    decreases |links| - i, if whole then |links[i].children| + 1 else |links[i].children| - k
  {
    if whole {
      StartKeepsWatch(links, w, i, 0, now, ready, false);
      var w1 := StartFrom(links, w, i, 0, now);
      var own := Own(w1.agents[i]);
      var w2 := if own.forward then ForwardFrom(links, w1, i, 0, own, now) else w1;
      if own.forward {
        ForwardKeepsWatch(links, w1, i, 0, own, now, ready, false);
      }
      var r := Started(links, w, i, k, now, whole);
      assert r.log == w2.log + [Notified(i, STARTED)];
      forall x | 0 <= x < |r.agents| ensures WatchedAt(r, x, ready[x], false) {
        assert WatchedAt(w2, x, ready[x], false);
        ReplayAppend(w2.log, [Notified(i, STARTED)], x, ready[x]);
      }
    } else if k < |links[i].children| {
      ChildIsBelow(links, i, k);
      var c := links[i].children[k];
      StartKeepsWatch(links, w, c, 0, now, ready, true);
      StartKeepsWatch(links, StartAt(links, w, c, now), i, k + 1, now, ready, false);
    }
  }

  /** Without forwarding, starting activates nothing and announces nothing. */
  lemma {:induction false} StartIsSilent(links: seq<Link>, w: World, i: nat, k: nat, now: int, whole: bool)
    requires Fits(links, w.agents) && i < |links| && k <= |links[i].children| && Quiet(w.agents)
    requires forall x :: 0 <= x < |links| ==> w.agents[x].mode == WasSet
    ensures var r := Started(links, w, i, k, now, whole);
      && (forall x :: 0 <= x < |links| ==> r.agents[x].mode == WasSet)
      && (forall x: nat, ready: bool :: Replay(r.log, x, ready) == Replay(w.log, x, ready))
    decreases |links| - i, if whole then |links[i].children| + 1 else |links[i].children| - k
  {
    if whole {
      StartIsSilent(links, w, i, 0, now, false);
      StartFrame(links, w, i, 0, now, false);
      var w1 := StartFrom(links, w, i, 0, now);
      FoldIsQuiet(links, w1.agents, i);
      forall x: nat, ready: bool
        ensures Replay(w1.log + [Notified(i, STARTED)], x, ready) == Replay(w1.log, x, ready)
      {
        ReplayAppend(w1.log, [Notified(i, STARTED)], x, ready);
      }
    } else if k < |links[i].children| {
      ChildIsBelow(links, i, k);
      var c := links[i].children[k];
      StartIsSilent(links, w, c, 0, now, true);
      StartFrame(links, w, c, 0, now, true);
      var w1 := StartAt(links, w, c, now);
      assert w1 == Started(links, w, c, 0, now, true);
      StartIsSilent(links, w1, i, k + 1, now, false);
      assert Started(links, w, i, k, now, whole) == Started(links, w1, i, k + 1, now, false);
    }
  }

  // ----- main results

  /** In every run, forwarding or not, an agent deactivates only the state it
      activated last. */
  lemma {:induction false} NoStrayDeactivation(links: seq<Link>, w: World, now: int, ops: seq<Op>, i: nat)
    requires Fits(links, w.agents) && Fresh(w) && i < |links|
    requires forall k :: 0 <= k < |ops| ==> OpFits(links, ops[k])
    ensures DeactivatesOnlyItsOwn(Run(links, StartAt(links, w, 0, now), ops).log, i)
  {
    var ready := seq(|links|, _ => true);
    assert Watched(w, ready, false);
    StartKeepsWatch(links, w, 0, 0, now, ready, true);
    var r := Run(links, StartAt(links, w, 0, now), ops);
    RunKeepsWatch(links, StartAt(links, w, 0, now), ops, ready, false);
    assert WatchedAt(r, i, ready[i], false);
    PairedMeans(r.log, i, ready[i]);
  }

  lemma {:induction false} QuietRunIsWatched(links: seq<Link>, w: World, now: int, ops: seq<Op>) returns (ready: seq<bool>)
    requires Fits(links, w.agents) && Fresh(w) && Quiet(w.agents)
    requires forall k :: 0 <= k < |ops| ==> OpFits(links, ops[k])
    ensures |ready| == |links|
    ensures forall x :: 0 <= x < |links| ==> ready[x] == StartAt(links, w, 0, now).agents[x].selected.Ready()
    ensures Watched(Run(links, StartAt(links, w, 0, now), ops), ready, true)
  {
    var s := StartAt(links, w, 0, now);
    StartSettles(links, w, now);
    StartIsSilent(links, w, 0, 0, now, true);
    assert s == Started(links, w, 0, 0, now, true);
    ready := seq(|links|, x requires 0 <= x < |links| => s.agents[x].selected.Ready());
    forall x | 0 <= x < |links| ensures WatchedAt(s, x, ready[x], true) {
      assert Replay(s.log, x, ready[x]) == Replay([], x, ready[x]);
    }
    RunKeepsWatch(links, s, ops, ready, true);
  }

  /** Without forwarding states, activations minus deactivations is one exactly
      while the agent's state is one it activated. */
  lemma {:induction false} ActivationsBalance(links: seq<Link>, w: World, now: int, ops: seq<Op>, i: nat)
    requires Fits(links, w.agents) && Fresh(w) && Quiet(w.agents) && i < |links|
    requires forall k :: 0 <= k < |ops| ==> OpFits(links, ops[k])
    ensures Leaked(Run(links, StartAt(links, w, 0, now), ops), i) == 0
  {
    var ready := QuietRunIsWatched(links, w, now, ops);
    var r := Run(links, StartAt(links, w, 0, now), ops);
    assert WatchedAt(r, i, ready[i], true);
    InitialReadinessIsForgotten(r.log, i, ready[i]);
  }

  lemma {:induction false} InitialReadinessIsForgotten(log: seq<Event>, i: nat, ready: bool)
    ensures Replay(log, i, ready).balance == Replay(log, i, true).balance
  {
    if log != [] {
      InitialReadinessIsForgotten(log[..|log| - 1], i, ready);
    }
  }

  /** Without forwarding states, READY and NOT_READY of an agent strictly
      alternate from its readiness at start, and the last one sent matches its
      current readiness. */
  lemma {:induction false} ReadinessAlternates(links: seq<Link>, w: World, now: int, ops: seq<Op>, i: nat)
    requires Fits(links, w.agents) && Fresh(w) && Quiet(w.agents) && i < |links|
    requires forall k :: 0 <= k < |ops| ==> OpFits(links, ops[k])
    ensures var s := StartAt(links, w, 0, now);
      var r := Run(links, s, ops);
      && AnnouncesInTurns(r.log, i, s.agents[i].selected.Ready())
      && (FirstAnnouncement(r.log, i, |r.log|) ==> r.agents[i].selected.Ready() == s.agents[i].selected.Ready())
      && (forall m :: 0 <= m < |r.log| && Announces(r.log[m], i) && NoneBetween(r.log, i, m, |r.log|) ==>
            (r.agents[i].selected.Ready() <==> r.log[m] == Notified(i, READY_AGAIN)))
  {
    var ready := QuietRunIsWatched(links, w, now, ops);
    var r := Run(links, StartAt(links, w, 0, now), ops);
    assert WatchedAt(r, i, ready[i], true);
    AlternatingMeans(r.log, i, ready[i]);
    ReadyMeans(r.log, i, ready[i]);
  }
}
