/** What one operation does to the fields of the agents and to the log, in terms
    of those fields. */
module AgentEffects {
  import opened Wrappers
  import opened Tree
  import opened Agents
  import opened AgentAggregate
  import opened AgentForward
  import opened AgentSchedule

  // ----- one state change

  /** The settings of an agent, which no state change touches. */
  predicate SameSettings(a: Agent, r: Agent) {
    && r.value == a.value && r.states == a.states && r.timer == a.timer
    && r.failDelay == a.failDelay && r.last == a.last
  }

  /** A state change gives `i` the state, takes the old one away from every
      descendant that holds it if it was forwarded, and touches nobody else. */
  lemma {:induction false} ChangeMoves(links: seq<Link>, w: World, i: nat, s: State, activate: bool, now: int, x: nat)
    requires Fits(links, w.agents) && i < |links| && x < |links|
    ensures var a := w.agents[x];
      var r := Change(links, w, i, s, activate, now).agents[x];
      && SameSettings(a, r)
      && (x == i ==> r.selected == s && r.next == a.next && r.mode == if activate then WasActivated else WasSet)
      && (x != i && Below(links, i, x) && w.agents[i].selected.forward && a.selected == w.agents[i].selected ==>
            && (forall k: nat :: FirstAt(a.states, a.value, k) ==> r.selected == a.states[k].state)
            && (NoneHolds(a.states, a.value) ==> r.selected == State(0, 1, false))
            && r.mode == WasSet && r.next == if a.timer > 0 then now + a.timer else a.next)
      && (x != i && !(Below(links, i, x) && w.agents[i].selected.forward && a.selected == w.agents[i].selected) ==>
            r == a)
  {
    FirstMatchIsFirst(w.agents[x].states, w.agents[x].value);
    if Below(links, i, i) { BelowIsLater(links, i, i); }
  }

  /** It says so: the old state deactivated if it was activated, the new one
      activated if asked, the change, and then the change of level and the gain
      or loss of readiness when there is one. Levels up to 2 are ready. */
  lemma {:induction false} ChangeSays(links: seq<Link>, w: World, i: nat, s: State, activate: bool, now: int)
    returns (news: seq<Event>)
    requires Fits(links, w.agents) && i < |links|
    ensures Change(links, w, i, s, activate, now).log == w.log + news
    ensures var a := w.agents[i];
      var d := if a.mode == WasActivated then 1 else 0;
      var c := if activate then d + 1 else d;
      var steps := a.selected.level != s.level;
      var flips := (a.selected.level <= 2 && s.level > 2) || (a.selected.level > 2 && s.level <= 2);
      && |news| == c + 1 + (if steps then 1 else 0) + (if flips then 1 else 0)
      && (d == 1 ==> news[0] == Deactivated(i, a.selected))
      && (activate ==> news[d] == Activated(i, s))
      && news[c] == Notified(i, STATE_CHANGED)
      && (steps ==> news[c + 1] == Notified(i, LEVEL_CHANGED))
      && (flips ==> news[c + 2] == Notified(i, if s.level <= 2 then READY_AGAIN else NOT_READY))
  {
    news := ChangeEvents(w.agents[i], i, s, activate);
  }

  // ----- set

  /** The parent holds a forwarding state that it activated. The state and the
      mode of the agent itself do not matter. */
  predicate ParentForbids(links: seq<Link>, agents: seq<Agent>, i: nat)
    requires |agents| == |links| && i < |links|
  {
    exists p :: 0 <= p < |agents| && links[i].parent == Some(p)
      && agents[p].mode == WasActivated && agents[p].selected.forward
  }

  /** `set` changes nothing at all exactly when the parent forbids it or the
      state is held already. Otherwise the log grows by what the agent says. */
  lemma {:induction false} SetActsExactly(links: seq<Link>, w: World, i: nat, s: State, now: int)
    requires Fits(links, w.agents) && i < |links|
    ensures SetState(links, w, i, s, now) == w <==> ParentForbids(links, w.agents, i) || w.agents[i].selected == s
    ensures SetState(links, w, i, s, now) == w || |SetState(links, w, i, s, now).log| > |w.log|
  {
    assert LinkedAt(links, i);
    if SetState(links, w, i, s, now) != w || !(ParentForbids(links, w.agents, i) || w.agents[i].selected == s) {
      assert Takes(links, w.agents, i, s);
      SetLogs(links, w, i, s, now);
      var _ := ChangeSays(links, w, i, s, true, now);
    }
  }

  /** Then the agent holds the state and has activated it, unless that state is
      forwarded and an ancestor that holds it leaves it. */
  lemma {:induction false} SetTakesHold(links: seq<Link>, w: World, i: nat, s: State, now: int)
    requires Fits(links, w.agents) && i < |links|
    requires !ParentForbids(links, w.agents, i) && w.agents[i].selected != s
    requires s.forward ==> forall p :: 0 <= p < |links| && Below(links, p, i) ==> w.agents[p].selected != s
    ensures SetState(links, w, i, s, now).agents[i] == w.agents[i].(selected := s, mode := WasActivated)
  {
    assert LinkedAt(links, i);
    var w1 := Change(links, w, i, s, true, now);
    var w2 := if s.forward then ForwardFrom(links, w1, i, 0, s, now) else w1;
    if Below(links, i, i) { BelowIsLater(links, i, i); }
    if s.forward {
      ForwardFrame(links, w1, i, 0, s, now, false);
      UnderIsBelow(links, i, i);
      OthersUntouched(links, w, i, s, now);
      NobodyTakesBack(links, w2.agents, i, s);
    }
    ClimbBelow(links, w2, i, now, i);
  }

  /** A set only adds to the log, and first what the agent itself says. */
  lemma {:induction false} SetLogs(links: seq<Link>, w: World, i: nat, s: State, now: int)
    requires Fits(links, w.agents) && i < |links| && Takes(links, w.agents, i, s)
    ensures Change(links, w, i, s, true, now).log <= SetState(links, w, i, s, now).log
  {
    var w1 := Change(links, w, i, s, true, now);
    var w2 := if s.forward then ForwardFrom(links, w1, i, 0, s, now) else w1;
    if s.forward { ForwardLogs(links, w1, i, 0, s, now, false); }
    ClimbLogs(links, w2, i, now);
  }

  lemma {:induction false} ForwardLogs(links: seq<Link>, w: World, i: nat, k: nat, s: State, now: int, whole: bool)
    requires Fits(links, w.agents) && i < |links| && k <= |links[i].children|
    ensures w.log <= Sent(links, w, i, k, s, now, whole).log
    decreases |links| - i, if whole then |links[i].children| + 1 else |links[i].children| - k
  {
    if whole {
      if w.agents[i].selected != s {
        ForwardLogs(links, Entered(links, w, i, s, now), i, 0, s, now, false);
      }
    } else if k < |links[i].children| {
      ChildIsBelow(links, i, k);
      var c := links[i].children[k];
      ForwardLogs(links, w, c, 0, s, now, true);
      ForwardLogs(links, ForwardTo(links, w, c, s, now), i, k + 1, s, now, false);
    }
  }

  lemma {:induction false} ClimbLogs(links: seq<Link>, w: World, i: nat, now: int)
    requires Fits(links, w.agents) && i < |links|
    ensures w.log <= Climb(links, w, i, now).log
    decreases i
  {
    if links[i].parent.Some? {
      assert LinkedAt(links, i);
      var p := links[i].parent.value;
      var t := Aggregate(links, w.agents, p);
      if t != w.agents[p].selected {
        ClimbLogs(links, Change(links, w, p, t, false, now), p, now);
      }
    }
  }

  // ----- the loops, without recursion

  /** What the parent asks of its children: its own state, unless a child is worse. */
  ghost predicate Computes(links: seq<Link>, agents: seq<Agent>, i: nat, s: State)
    requires |agents| == |links| && i < |links| && forall k :: 0 <= k < |links[i].children| ==> links[i].children[k] < |links|
  {
    exists own: State :: OwnStateIs(agents[i], own) && (
      || (s == own && NoneWorse(agents, links[i].children, own))
      || (exists k: nat :: WorstAt(agents, links[i].children, own, k) && s == agents[links[i].children[k]].selected))
  }

  ghost predicate OwnStateIs(a: Agent, s: State) {
    || (NoneHolds(a.states, a.value) && s == State(0, 1, false))
    || (exists k: nat :: FirstAt(a.states, a.value, k) && s == a.states[k].state)
  }

  lemma {:induction false} OwnIsUnique(a: Agent, s: State)
    ensures OwnStateIs(a, s) <==> s == Own(a)
  {
    FirstMatchIsFirst(a.states, a.value);
  }

  lemma {:induction false} AggregateComputes(links: seq<Link>, agents: seq<Agent>, i: nat, s: State)
    requires Fits(links, agents) && i < |links|
    ensures forall k :: 0 <= k < |links[i].children| ==> links[i].children[k] < |links|
    ensures Computes(links, agents, i, s) <==> s == Aggregate(links, agents, i)
  {
    assert LinkedAt(links, i);
    var own := Own(agents[i]);
    FoldIsFirstWorst(agents, links[i].children, own);
    forall t ensures OwnStateIs(agents[i], t) <==> t == own {
      OwnIsUnique(agents[i], t);
    }
  }

  /** The worlds the loop up the parents goes through: one state change for each
      parent in turn, each to what that parent computes then, up to the root or
      to the first parent that holds it already. */
  lemma {:induction false} ClimbIsChanges(links: seq<Link>, w: World, i: nat, now: int)
    returns (path: seq<nat>, worlds: seq<World>)
    requires Fits(links, w.agents) && i < |links|
    ensures |path| == |worlds| >= 1 && path[0] == i && worlds[0] == w
    ensures worlds[|worlds| - 1] == Climb(links, w, i, now)
    ensures forall k :: 1 <= k < |path| ==> ClimbsOnce(links, worlds[k - 1], path[k - 1], path[k], worlds[k], now)
    ensures ClimbEnds(links, worlds[|path| - 1], path[|path| - 1])
    decreases i
  {
    hide Climb, ClimbsOnce, ClimbEnds, Change, Aggregate;
    path, worlds := [i], [w];
    if ClimbMoves(links, w, i) {
      var p := links[i].parent.value;
      var w1 := ClimbTurn(links, w, i, p, now);
      var rest, more := ClimbIsChanges(links, w1, p, now);
      path, worlds := [i] + rest, [w] + more;
      forall k | 1 <= k < |path|
        ensures ClimbsOnce(links, worlds[k - 1], path[k - 1], path[k], worlds[k], now)
      {
        if k > 1 {
          assert ClimbsOnce(links, more[k - 2], rest[k - 2], rest[k - 1], more[k - 1], now);
        }
      }
    } else {
      ClimbStops(links, w, i, now);
    }
  }

  /** The parent does not hold what it computes. */
  ghost predicate ClimbMoves(links: seq<Link>, w: World, i: nat)
    requires Fits(links, w.agents) && i < |links|
  {
    assert LinkedAt(links, i);
    links[i].parent.Some? &&
      Aggregate(links, w.agents, links[i].parent.value) != w.agents[links[i].parent.value].selected
  }

  lemma {:induction false} ClimbTurn(links: seq<Link>, w: World, i: nat, p: nat, now: int) returns (w1: World)
    requires Fits(links, w.agents) && i < |links| && ClimbMoves(links, w, i) && links[i].parent == Some(p)
    ensures p < i && Fits(links, w1.agents)
    ensures ClimbsOnce(links, w, i, p, w1, now)
    ensures Climb(links, w, i, now) == Climb(links, w1, p, now)
  {
    assert LinkedAt(links, i);
    var t := Aggregate(links, w.agents, p);
    AggregateComputes(links, w.agents, p, t);
    w1 := Change(links, w, p, t, false, now);
  }

  lemma {:induction false} ClimbStops(links: seq<Link>, w: World, i: nat, now: int)
    requires Fits(links, w.agents) && i < |links| && !ClimbMoves(links, w, i)
    ensures ClimbEnds(links, w, i) && Climb(links, w, i, now) == w
  {
    assert LinkedAt(links, i);
    if links[i].parent.Some? {
      var p := links[i].parent.value;
      AggregateComputes(links, w.agents, p, w.agents[p].selected);
    }
  }

  ghost predicate ClimbsOnce(links: seq<Link>, w: World, i: nat, p: nat, r: World, now: int) {
    && Fits(links, w.agents) && i < |links| && p < |links| && links[i].parent == Some(p)
    && (forall k :: 0 <= k < |links[p].children| ==> links[p].children[k] < |links|)
    && exists t :: Computes(links, w.agents, p, t) && t != w.agents[p].selected
         && r == Change(links, w, p, t, false, now)
  }

  ghost predicate ClimbEnds(links: seq<Link>, w: World, i: nat) {
    && Fits(links, w.agents) && i < |links|
    && forall p :: 0 <= p < |links| && links[i].parent == Some(p) ==>
         && (forall k :: 0 <= k < |links[p].children| ==> links[p].children[k] < |links|)
         && Computes(links, w.agents, p, w.agents[p].selected)
  }

  /** The loop of a forward over the children, first to last. */
  lemma {:induction false} ForwardGoesInOrder(links: seq<Link>, w: World, i: nat, k: nat, s: State, now: int)
    returns (worlds: seq<World>)
    requires Fits(links, w.agents) && i < |links| && k <= |links[i].children|
    ensures |worlds| == |links[i].children| - k + 1 && worlds[0] == w
    ensures worlds[|links[i].children| - k] == ForwardFrom(links, w, i, k, s, now)
    ensures forall m :: 0 <= m < |links[i].children| - k ==>
      ForwardsTo(links, worlds[m], links[i].children[k + m], s, now, worlds[m + 1])
    decreases |links[i].children| - k
  {
    hide ForwardTo, ForwardsTo;
    worlds := [w];
    if k < |links[i].children| {
      ChildIsBelow(links, i, k);
      var w1 := ForwardTo(links, w, links[i].children[k], s, now);
      assert ForwardsTo(links, w, links[i].children[k], s, now, w1) by {
        OneForward(links, w, links[i].children[k], s, now);
      }
      var more := ForwardGoesInOrder(links, w1, i, k + 1, s, now);
      worlds := [w] + more;
      forall m | 0 <= m < |links[i].children| - k
        ensures ForwardsTo(links, worlds[m], links[i].children[k + m], s, now, worlds[m + 1])
      {
        if m > 0 {
          assert ForwardsTo(links, more[m - 1], links[i].children[k + 1 + (m - 1)], s, now, more[m]);
        }
      }
    }
  }

  ghost predicate ForwardsTo(links: seq<Link>, w: World, c: nat, s: State, now: int, r: World) {
    Fits(links, w.agents) && c < |links| && r == ForwardTo(links, w, c, s, now)
  }

  lemma {:induction false} OneForward(links: seq<Link>, w: World, c: nat, s: State, now: int)
    requires Fits(links, w.agents) && c < |links|
    ensures ForwardsTo(links, w, c, s, now, ForwardTo(links, w, c, s, now))
  {
  }

  /** A forward stops at an agent that holds the state; any other says so before
      its subtree does, and is flagged and off the schedule. */
  lemma {:induction false} ForwardStopsExactly(links: seq<Link>, w: World, i: nat, s: State, now: int)
    requires Fits(links, w.agents) && i < |links|
    ensures var r := ForwardTo(links, w, i, s, now);
      && (w.agents[i].selected == s ==> r == w)
      && (w.agents[i].selected != s ==>
            && r.agents[i] == w.agents[i].(selected := s, mode := WasForwarded, next := 0)
            && Change(links, w, i, s, false, now).log <= r.log)
  {
    if w.agents[i].selected != s {
      var w2 := Entered(links, w, i, s, now);
      ForwardFrame(links, w2, i, 0, s, now, false);
      UnderIsBelow(links, i, i);
      if Below(links, i, i) { BelowIsLater(links, i, i); }
      ForwardLogs(links, w2, i, 0, s, now, false);
    }
  }

  // ----- updates and failures

  /** An update without change: the stamps, one notification, nothing else. */
  lemma {:induction false} UnchangedUpdate(links: seq<Link>, w: World, op: Op)
    requires Fits(links, w.agents) && OpFits(links, op)
    requires (op.SetValueOp? && op.value == w.agents[op.agent].value) || (op.RefreshedOp? && !op.changed)
    ensures var a := w.agents[op.agent];
      Step(links, w, op) == World(
        w.agents[op.agent := Agent(a.value, a.states, a.selected, a.mode, a.timer, a.failDelay, op.now,
          if a.timer > 0 && a.next <= op.now then op.now + a.timer else a.next)],
        w.log + [Notified(op.agent, VALUE_NOT_CHANGED)])
  {
  }

  /** What an update asks for: the agent's own state if that is forwarded,
      whatever its children hold, and what it computes otherwise. */
  ghost predicate AsksFor(links: seq<Link>, agents: seq<Agent>, i: nat, s: State)
    requires Fits(links, agents) && i < |links|
  {
    assert LinkedAt(links, i);
    exists own :: OwnStateIs(agents[i], own) && if own.forward then s == own else Computes(links, agents, i, s)
  }

  lemma {:induction false} WantedIsAskedFor(links: seq<Link>, agents: seq<Agent>, i: nat)
    requires Fits(links, agents) && i < |links|
    ensures AsksFor(links, agents, i, Wanted(links, agents, i))
  {
    OwnIsUnique(agents[i], Own(agents[i]));
    AggregateComputes(links, agents, i, Wanted(links, agents, i));
  }

  /** An update with a change, or a failure: the stamps, the notification, and a
      `set` of the state asked for. */
  lemma {:induction false} ChangedUpdate(links: seq<Link>, w: World, op: Op) returns (agents: seq<Agent>, s: State)
    requires Fits(links, w.agents) && OpFits(links, op)
    requires op.FailOp? || (op.SetValueOp? && op.value != w.agents[op.agent].value) || (op.RefreshedOp? && op.changed)
    ensures var a := w.agents[op.agent];
      agents == w.agents[op.agent :=
        if op.FailOp? then
          Agent(a.value, a.states, a.selected, a.mode, a.timer, a.failDelay, a.last,
            if a.failDelay > 0 then op.now + a.failDelay else a.next)
        else
          Agent(if op.SetValueOp? then op.value else a.value, a.states, a.selected, a.mode, a.timer, a.failDelay, op.now,
            if a.timer > 0 && a.next <= op.now then op.now + a.timer else a.next)]
    ensures if op.FailOp? then s == op.error else AsksFor(links, agents, op.agent, s)
    ensures Step(links, w, op) ==
      SetState(links, World(agents, if op.FailOp? then w.log else w.log + [Notified(op.agent, VALUE_CHANGED)]),
        op.agent, s, op.now)
  {
    hide SetState, Wanted, Step, AsksFor;
    StepIsSet(links, w, op);
    agents := PreparedAll(w, op);
    s := Asked(links, w, op);
    WantedIsAskedFor(links, agents, op.agent);
  }

  ghost predicate ComputesAt(links: seq<Link>, agents: seq<Agent>, i: nat, s: State)
    requires Fits(links, agents) && i < |links|
  {
    assert LinkedAt(links, i);
    Computes(links, agents, i, s)
  }

  /** The times an operation leaves on its own agent: a failure reschedules it
      after the failure delay, an update whose time has come after the timer.
      Only an ancestor that takes its state back can rearm the timer instead. */
  lemma {:induction false} TimesAfterStep(links: seq<Link>, w: World, op: Op)
    requires Fits(links, w.agents) && OpFits(links, op)
    ensures var a := w.agents[op.agent];
      var r := Step(links, w, op).agents[op.agent];
      && (op.FailOp? ==> r.last == a.last && r.next == if a.failDelay > 0 then op.now + a.failDelay else a.next)
      && (!op.FailOp? ==> r.last == op.now)
      && (!op.FailOp? && a.timer == 0 ==> r.next == a.next)
      && (!op.FailOp? && a.timer > 0 && a.next <= op.now ==> r.next == op.now + a.timer)
      && (!op.FailOp? && a.timer > 0 && a.next > op.now ==> r.next == a.next || r.next == op.now + a.timer)
      && (!op.FailOp? && a.timer > 0 && a.next > op.now && r.next != a.next ==>
            exists p :: 0 <= p < |links| && Below(links, p, op.agent) && w.agents[p].selected.forward)
  {
    hide Wanted, Step, TakenBack, Aggregate;
    StepIsSet(links, w, op);
    var i, s, w0 := op.agent, Asked(links, w, op), Logged(w, op);
    if Asks(w, op) && Takes(links, w0.agents, i, s) {
      var w1 := Change(links, w0, i, s, true, op.now);
      var w2 := if s.forward then ForwardFrom(links, w1, i, 0, s, op.now) else w1;
      if Below(links, i, i) { BelowIsLater(links, i, i); }
      if s.forward {
        ForwardFrame(links, w1, i, 0, s, op.now, false);
        UnderIsBelow(links, i, i);
        OthersUntouched(links, w0, i, s, op.now);
        if forall p :: 0 <= p < |links| && Below(links, p, i) ==> !w.agents[p].selected.forward {
          NobodyTakesBack(links, w2.agents, i, s);
        }
      }
      ClimbBelow(links, w2, i, op.now, i);
    }
  }

  // ----- start

  /** Starting changes no value and no table. */
  lemma {:induction false} StartKeepsValues(links: seq<Link>, w: World, i: nat, k: nat, now: int, whole: bool)
    requires Fits(links, w.agents) && i < |links| && k <= |links[i].children|
    ensures forall x :: 0 <= x < |links| ==>
      var r := Started(links, w, i, k, now, whole).agents[x];
      r.value == w.agents[x].value && r.states == w.agents[x].states
    decreases |links| - i, if whole then |links[i].children| + 1 else |links[i].children| - k
  {
    if whole {
      StartKeepsValues(links, w, i, 0, now, false);
      var w1 := StartFrom(links, w, i, 0, now);
      if Own(w1.agents[i]).forward {
        ForwardKeepsValues(links, w1, i, 0, Own(w1.agents[i]), now, false);
      }
    } else if k < |links[i].children| {
      ChildIsBelow(links, i, k);
      var c := links[i].children[k];
      StartKeepsValues(links, w, c, 0, now, true);
      StartKeepsValues(links, StartAt(links, w, c, now), i, k + 1, now, false);
    }
  }

  lemma {:induction false} ForwardKeepsValues(links: seq<Link>, w: World, i: nat, k: nat, s: State, now: int, whole: bool)
    requires Fits(links, w.agents) && i < |links| && k <= |links[i].children|
    ensures forall x :: 0 <= x < |links| ==>
      var r := Sent(links, w, i, k, s, now, whole).agents[x];
      r.value == w.agents[x].value && r.states == w.agents[x].states
    decreases |links| - i, if whole then |links[i].children| + 1 else |links[i].children| - k
  {
    if whole {
      if w.agents[i].selected != s {
        var w2 := Entered(links, w, i, s, now);
        ForwardKeepsValues(links, w2, i, 0, s, now, false);
        assert Sent(links, w, i, k, s, now, whole) == Sent(links, w2, i, 0, s, now, false);
      }
    } else if k < |links[i].children| {
      ChildIsBelow(links, i, k);
      var c := links[i].children[k];
      ForwardKeepsValues(links, w, c, 0, s, now, true);
      ForwardKeepsValues(links, ForwardTo(links, w, c, s, now), i, k + 1, s, now, false);
    }
  }

  /** The children start one after the other, each with its whole subtree. */
  lemma {:induction false} StartGoesInOrder(links: seq<Link>, w: World, i: nat, k: nat, now: int)
    returns (worlds: seq<World>)
    requires Fits(links, w.agents) && i < |links| && k <= |links[i].children|
    ensures |worlds| == |links[i].children| - k + 1 && worlds[0] == w
    ensures worlds[|links[i].children| - k] == StartFrom(links, w, i, k, now)
    ensures forall m :: 0 <= m < |links[i].children| - k ==>
      StartsAt(links, worlds[m], links[i].children[k + m], now, worlds[m + 1])
    decreases |links[i].children| - k
  {
    hide StartAt, StartsAt;
    worlds := [w];
    if k < |links[i].children| {
      ChildIsBelow(links, i, k);
      var w1 := StartAt(links, w, links[i].children[k], now);
      assert StartsAt(links, w, links[i].children[k], now, w1) by {
        OneStart(links, w, links[i].children[k], now);
      }
      var more := StartGoesInOrder(links, w1, i, k + 1, now);
      worlds := [w] + more;
      forall m | 0 <= m < |links[i].children| - k
        ensures StartsAt(links, worlds[m], links[i].children[k + m], now, worlds[m + 1])
      {
        if m > 0 {
          assert StartsAt(links, more[m - 1], links[i].children[k + 1 + (m - 1)], now, more[m]);
        }
      }
    }
  }

  ghost predicate StartsAt(links: seq<Link>, w: World, c: nat, now: int, r: World) {
    Fits(links, w.agents) && c < |links| && r == StartAt(links, w, c, now)
  }

  lemma {:induction false} OneStart(links: seq<Link>, w: World, c: nat, now: int)
    requires Fits(links, w.agents) && c < |links|
    ensures StartsAt(links, w, c, now, StartAt(links, w, c, now))
  {
  }

  /** An agent whose own state is forwarded starts with it, and forwards it into
      the tree that the starts of its children left: afterwards a descendant
      carries it if and only if the forward hits it there, or it carried it. */
  lemma {:induction false} StartForwardsExactly(links: seq<Link>, w: World, i: nat, now: int, f: State)
    requires Fits(links, w.agents) && i < |links| && OwnStateIs(w.agents[i], f) && f.forward
    ensures var started := StartFrom(links, w, i, 0, now).agents;
      var r := StartAt(links, w, i, now).agents;
      && r[i] == started[i].(selected := f, mode := WasSet)
      && (forall x :: 0 <= x < |links| && x != i && !Below(links, i, x) ==> r[x] == started[x])
      && forall m, x :: 0 <= m < |links[i].children| && 0 <= x < |links| && In(links, links[i].children[m], x) ==>
           (Carries(r[x], f) <==> Hit(links, started, links[i].children[m], f, x) || Carries(started[x], f))
    ensures var log := StartAt(links, w, i, now).log;
      log != [] && log[|log| - 1] == Notified(i, STARTED)
  {
    OwnIsUnique(w.agents[i], f);
    StartKeepsValues(links, w, i, 0, now, false);
    var w1 := StartFrom(links, w, i, 0, now);
    assert w1 == Started(links, w, i, 0, now, false);
    var r := StartAt(links, w, i, now).agents;
    ForwardFrame(links, w1, i, 0, f, now, false);
    forall x | 0 <= x < |links| && !Below(links, i, x) ensures !Under(links, i, 0, x) {
      UnderIsBelow(links, i, x);
    }
    if Below(links, i, i) { BelowIsLater(links, i, i); }
    forall m, x | 0 <= m < |links[i].children| && 0 <= x < |links| && In(links, links[i].children[m], x)
      ensures Carries(r[x], f) <==> Hit(links, w1.agents, links[i].children[m], f, x) || Carries(w1.agents[x], f)
    {
      ChildIsBelow(links, i, m);
      if x != links[i].children[m] { BelowIsLater(links, links[i].children[m], x); }
      ForwardFromVisits(links, w1, i, 0, f, now, m, x);
    }
  }

  /** When its own state is not forwarded it starts with what it computes from
      the started children, and nobody else changes. */
  lemma {:induction false} StartComputes(links: seq<Link>, w: World, i: nat, now: int)
    requires Fits(links, w.agents) && i < |links|
    requires forall f :: OwnStateIs(w.agents[i], f) ==> !f.forward
    ensures var started := StartFrom(links, w, i, 0, now);
      var r := StartAt(links, w, i, now);
      && ComputesAt(links, started.agents, i, r.agents[i].selected)
      && r.agents == started.agents[i := started.agents[i].(selected := r.agents[i].selected, mode := WasSet)]
      && r.log == started.log + [Notified(i, STARTED)]
  {
    OwnIsUnique(w.agents[i], Own(w.agents[i]));
    StartKeepsValues(links, w, i, 0, now, false);
    var w1 := StartFrom(links, w, i, 0, now);
    assert w1 == Started(links, w, i, 0, now, false);
    assert Own(w1.agents[i]) == Own(w.agents[i]);
    AggregateComputes(links, w1.agents, i, Aggregate(links, w1.agents, i));
  }

  /** A start selects only states that some agent of the subtree computes. */
  lemma {:induction false} StartSelectsNoOther(links: seq<Link>, w: World, i: nat, k: nat, now: int, whole: bool, f: State)
    requires Fits(links, w.agents) && i < |links| && k <= |links[i].children|
    requires forall x :: 0 <= x < |links| && Starts(links, i, k, whole, x) ==> Own(w.agents[x]) != f
    ensures var r := Started(links, w, i, k, now, whole).agents;
      forall x :: 0 <= x < |links| ==>
        if Starts(links, i, k, whole, x) then r[x].selected != f else r[x] == w.agents[x]
    decreases |links| - i, (if whole then |links[i].children| + 1 else |links[i].children| - k), 0
  {
    if whole {
      StartOfOneSelectsNoOther(links, w, i, now, f);
    } else if k < |links[i].children| {
      ChildIsBelow(links, i, k);
      var c := links[i].children[k];
      var w1 := StartAt(links, w, c, now);
      forall x | 0 <= x < |links|
        ensures Starts(links, i, k, false, x) <==> Starts(links, c, 0, true, x) || Starts(links, i, k + 1, false, x)
        ensures Starts(links, c, 0, true, x) ==> !Starts(links, i, k + 1, false, x)
      {
        UnderStep(links, i, k, x);
        UnderIsBelow(links, c, x);
      }
      StartSelectsNoOther(links, w, c, 0, now, true, f);
      StartKeepsValues(links, w, c, 0, now, true);
      assert w1 == Started(links, w, c, 0, now, true);
      StartSelectsNoOther(links, w1, i, k + 1, now, false, f);
    }
  }

  /** Agent `x` is started with `i`, or with its children from the `k`-th on. */
  ghost predicate Starts(links: seq<Link>, i: nat, k: nat, whole: bool, x: nat)
    requires i < |links|
  {
    if whole then x == i || Below(links, i, x) else Under(links, i, k, x)
  }

  lemma {:induction false} StartOfOneSelectsNoOther(links: seq<Link>, w: World, i: nat, now: int, f: State)
    requires Fits(links, w.agents) && i < |links|
    requires forall x :: 0 <= x < |links| && In(links, i, x) ==> Own(w.agents[x]) != f
    ensures var r := StartAt(links, w, i, now).agents;
      forall x :: 0 <= x < |links| ==> if In(links, i, x) then r[x].selected != f else r[x] == w.agents[x]
    decreases |links| - i, |links[i].children|, 1
  {
    forall x | 0 <= x < |links| ensures Under(links, i, 0, x) <==> Below(links, i, x) {
      UnderIsBelow(links, i, x);
    }
    if Below(links, i, i) { BelowIsLater(links, i, i); }
    StartSelectsNoOther(links, w, i, 0, now, false, f);
    StartKeepsValues(links, w, i, 0, now, false);
    var w1 := StartFrom(links, w, i, 0, now);
    assert w1 == Started(links, w, i, 0, now, false);
    var own := Own(w1.agents[i]);
    if own.forward {
      ForwardFrame(links, w1, i, 0, own, now, false);
      forall x | 0 <= x < |links| && Below(links, i, x)
        ensures ForwardFrom(links, w1, i, 0, own, now).agents[x].selected != f
      {
        var m := BelowGoesThroughChild(links, i, x);
        ForwardFromVisits(links, w1, i, 0, own, now, m, x);
      }
    } else {
      assert LinkedAt(links, i);
      FoldIsWorst(w1.agents, links[i].children, own);
      if Aggregate(links, w1.agents, i) != own {
        var k :| 0 <= k < |links[i].children| && Aggregate(links, w1.agents, i) == w1.agents[links[i].children[k]].selected;
        ChildIsBelow(links, i, k);
      }
    }
  }

  /** So a forwarding state that no descendant computes is carried by all of
      them after the start, whatever they selected before. */
  lemma {:induction false} StartCovers(links: seq<Link>, w: World, i: nat, now: int, f: State)
    requires Fits(links, w.agents) && i < |links| && OwnStateIs(w.agents[i], f) && f.forward
    requires forall x :: 0 <= x < |links| && Below(links, i, x) ==> !OwnStateIs(w.agents[x], f)
    ensures var r := StartAt(links, w, i, now).agents;
      && r[i].selected == f
      && forall x :: 0 <= x < |links| && Below(links, i, x) ==>
           r[x].selected == f && r[x].mode == WasForwarded && r[x].next == 0
  {
    forall x | 0 <= x < |links| && Below(links, i, x) ensures Own(w.agents[x]) != f {
      OwnIsUnique(w.agents[x], f);
    }
    forall x | 0 <= x < |links| ensures Under(links, i, 0, x) <==> Below(links, i, x) {
      UnderIsBelow(links, i, x);
    }
    StartSelectsNoOther(links, w, i, 0, now, false, f);
    StartKeepsValues(links, w, i, 0, now, false);
    var w1 := StartFrom(links, w, i, 0, now);
    assert w1 == Started(links, w, i, 0, now, false);
    StartForwardsExactly(links, w, i, now, f);
    forall x | 0 <= x < |links| && Below(links, i, x) ensures Carries(StartAt(links, w, i, now).agents[x], f) {
      var m := BelowGoesThroughChild(links, i, x);
      var c := links[i].children[m];
      ChildIsBelow(links, i, m);
      forall y | 0 <= y < |links| && Below(links, c, y) ensures w1.agents[y].selected != f && Own(w1.agents[y]) != f {
        BelowTransitive(links, i, c, y);
      }
      ForeignIsHit(links, w1.agents, c, f, x);
    }
  }
}
