/** What state changes do to the update schedule: which of them leave an agent
    that has a timer without a next update. */
module AgentSchedule {
  import opened Wrappers
  import opened Tree
  import opened Agents
  import opened AgentAggregate
  import opened AgentEvents
  import opened AgentForward

  /** The agent has a timer, and its next update is scheduled. */
  predicate Timed(a: Agent) {
    a.timer > 0 && a.next != 0
  }

  // ----- the call of `set` that an operation comes down to

  predicate Asks(w: World, op: Op)
    requires op.agent < |w.agents|
  {
    match op
    case SetValueOp(i, value, _) => value != w.agents[i].value
    case RefreshedOp(_, changed, _) => changed
    case FailOp(_, _, _) => true
  }

  /** The agent when `set` is called. */
  function Prepared(w: World, op: Op): Agent
    requires op.agent < |w.agents|
  {
    var a := w.agents[op.agent];
    match op
    case SetValueOp(_, value, now) => Stamped(a.(value := value), now)
    case RefreshedOp(_, _, now) => Stamped(a, now)
    case FailOp(_, _, now) => if a.failDelay > 0 then a.(next := now + a.failDelay) else a
  }

  function PreparedAll(w: World, op: Op): (r: seq<Agent>)
    requires op.agent < |w.agents|
    ensures |r| == |w.agents|
  {
    w.agents[op.agent := Prepared(w, op)]
  }

  function Asked(links: seq<Link>, w: World, op: Op): State
    requires Fits(links, w.agents) && op.agent < |links|
  {
    if op.FailOp? then op.error else Wanted(links, PreparedAll(w, op), op.agent)
  }

  function Logged(w: World, op: Op): World
    requires op.agent < |w.agents|
  {
    World(
      PreparedAll(w, op),
      if op.FailOp? then w.log else w.log + [Notified(op.agent, if Asks(w, op) then VALUE_CHANGED else VALUE_NOT_CHANGED)])
  }

  lemma {:induction false} StepIsSet(links: seq<Link>, w: World, op: Op)
    requires Fits(links, w.agents) && OpFits(links, op)
    ensures Step(links, w, op) ==
      if Asks(w, op) then SetState(links, Logged(w, op), op.agent, Asked(links, w, op), op.now) else Logged(w, op)
  {
    hide SetState, Wanted;
    match op
    case SetValueOp(i, value, now) =>
      var w1 := w.(agents := w.agents[i := w.agents[i].(value := value)]);
      assert w1.agents[i := Stamped(w1.agents[i], now)] == PreparedAll(w, op);
      assert value == w.agents[i].value ==> w1.agents == w.agents;
    case _ =>
  }

  // ----- one state change

  /** Setting `s` on `a` reaches `x` with a forward that nobody above takes back. */
  predicate SwitchesOff(links: seq<Link>, agents: seq<Agent>, a: nat, s: State, x: nat)
    requires Fits(links, agents) && a < |links| && x < |links|
  {
    && s.forward && Takes(links, agents, a, s)
    && Below(links, a, x) && Hit(links, agents, a, s, x)
    && !TakenBack(links, agents[a := agents[a].(selected := s)], a, s)
  }

  /** Recomputing ancestors can rearm a timer but not stop one. */
  lemma {:induction false} ClimbRearms(links: seq<Link>, w: World, i: nat, now: int, x: nat)
    requires Fits(links, w.agents) && i < |links| && x < |links|
    ensures var r := Climb(links, w, i, now).agents[x];
      && r.timer == w.agents[x].timer
      && (r.next == w.agents[x].next || (r.timer > 0 && r.next == now + r.timer))
    decreases i
  {
    if links[i].parent.Some? {
      assert LinkedAt(links, i);
      var p := links[i].parent.value;
      var t := Aggregate(links, w.agents, p);
      if t != w.agents[p].selected {
        ClimbRearms(links, Change(links, w, p, t, false, now), p, now, x);
      }
    }
  }

  /** A state change takes an agent with a timer off the schedule if and only if
      it reaches that agent with a forward. */
  lemma {:induction false} SetUnschedulesExactly(links: seq<Link>, w: World, a: nat, s: State, now: int, x: nat)
    requires Fits(links, w.agents) && a < |links| && x < |links| && now > 0 && Timed(w.agents[x])
    ensures !Timed(SetState(links, w, a, s, now).agents[x]) <==> SwitchesOff(links, w.agents, a, s, x)
  {
    if Takes(links, w.agents, a, s) {
      if s.forward && Below(links, a, x) {
        var v := SetVisits(links, w, a, s, now, x);
      } else {
        var w1 := Change(links, w, a, s, true, now);
        var w2 := if s.forward then ForwardFrom(links, w1, a, 0, s, now) else w1;
        if s.forward {
          ForwardFrame(links, w1, a, 0, s, now, false);
          UnderIsBelow(links, a, x);
        }
        ClimbRearms(links, w2, a, now, x);
      }
    }
  }

  /** The parent of a changed agent, when it changes too, is not flagged as
      forwarded any more, but its timer is rearmed only if an ancestor takes
      the state back that it has just selected. */
  lemma {:induction false} ClimbUnflags(links: seq<Link>, w: World, i: nat, p: nat, now: int)
    requires Fits(links, w.agents) && i < |links| && links[i].parent == Some(p) && p < |links|
    requires Aggregate(links, w.agents, p) != w.agents[p].selected
    ensures var t := Aggregate(links, w.agents, p);
      var a := w.agents[p].(selected := t, mode := WasSet);
      Climb(links, w, i, now).agents[p] ==
        if t.forward && TakenBack(links, w.agents[p := w.agents[p].(selected := t)], p, t)
        then Released(a, now)
        else a
  {
    assert LinkedAt(links, i);
    var t := Aggregate(links, w.agents, p);
    var w1 := Change(links, w, p, t, false, now);
    if Below(links, p, p) { BelowIsLater(links, p, p); }
    ClimbBelow(links, w1, p, now, p);
    TakenBackFrame(links, w1.agents, w.agents[p := w.agents[p].(selected := t)], p, t);
  }

  // ----- steps and runs

  predicate StepSwitchesOff(links: seq<Link>, w: World, op: Op, x: nat)
    requires Fits(links, w.agents) && op.agent < |links| && x < |links|
  {
    Asks(w, op) && SwitchesOff(links, PreparedAll(w, op), op.agent, Asked(links, w, op), x)
  }

  lemma {:induction false} StepUnschedulesExactly(links: seq<Link>, w: World, op: Op, x: nat)
    requires Fits(links, w.agents) && OpFits(links, op) && x < |links| && op.now > 0 && Timed(w.agents[x])
    ensures !Timed(Step(links, w, op).agents[x]) <==> StepSwitchesOff(links, w, op, x)
  {
    hide SetState, SwitchesOff, Step, Asked;
    StepIsSet(links, w, op);
    if Asks(w, op) {
      SetUnschedulesExactly(links, Logged(w, op), op.agent, Asked(links, w, op), op.now, x);
    }
  }

  /** The agent keeps a next update all through the run. */
  predicate StaysTimed(links: seq<Link>, w: World, ops: seq<Op>, x: nat)
    requires Fits(links, w.agents) && x < |links|
    requires forall k :: 0 <= k < |ops| ==> OpFits(links, ops[k])
    decreases |ops|
  {
    Timed(w.agents[x]) && (ops == [] || StaysTimed(links, Step(links, w, ops[0]), ops[1..], x))
  }

  predicate NeverSwitchedOff(links: seq<Link>, w: World, ops: seq<Op>, x: nat)
    requires Fits(links, w.agents) && x < |links|
    requires forall k :: 0 <= k < |ops| ==> OpFits(links, ops[k])
    decreases |ops|
  {
    ops == [] ||
      assert OpFits(links, ops[0]);
      !StepSwitchesOff(links, w, ops[0], x) && NeverSwitchedOff(links, Step(links, w, ops[0]), ops[1..], x)
  }

  /** In every run, an agent with a timer keeps its place on the schedule if and
      only if no forward reaches it. */
  lemma {:induction false} TimedAgentsStayExactly(links: seq<Link>, w: World, ops: seq<Op>, x: nat)
    requires Fits(links, w.agents) && x < |links| && Timed(w.agents[x])
    requires forall k :: 0 <= k < |ops| ==> OpFits(links, ops[k]) && ops[k].now > 0
    ensures StaysTimed(links, w, ops, x) <==> NeverSwitchedOff(links, w, ops, x)
    decreases |ops|
  {
    hide Step, StepSwitchesOff;
    if ops != [] {
      StepUnschedulesExactly(links, w, ops[0], x);
      if Timed(Step(links, w, ops[0]).agents[x]) {
        TimedAgentsStayExactly(links, Step(links, w, ops[0]), ops[1..], x);
      }
    }
  }

  /** Without forwarding states no run takes it off. */
  lemma {:induction false} QuietTreesKeepTheirTimers(links: seq<Link>, w: World, now: int, ops: seq<Op>, x: nat)
    requires Fits(links, w.agents) && Fresh(w) && Quiet(w.agents) && x < |links|
    requires forall k :: 0 <= k < |ops| ==> OpFits(links, ops[k]) && ops[k].now > 0
    requires Timed(StartAt(links, w, 0, now).agents[x])
    ensures StaysTimed(links, StartAt(links, w, 0, now), ops, x)
  {
    var ready := QuietRunIsWatched(links, w, now, []);
    WatchedRunsKeepTimers(links, StartAt(links, w, 0, now), ops, ready, x);
  }

  lemma {:induction false} WatchedRunsKeepTimers(links: seq<Link>, w: World, ops: seq<Op>, ready: seq<bool>, x: nat)
    requires Fits(links, w.agents) && Watched(w, ready, true) && x < |links| && Timed(w.agents[x])
    requires forall k :: 0 <= k < |ops| ==> OpFits(links, ops[k]) && ops[k].now > 0
    ensures StaysTimed(links, w, ops, x)
    decreases |ops|
  {
    hide Step, StepSwitchesOff;
    if ops != [] {
      QuietStepSwitchesNothingOff(links, w, ops[0], x);
      StepUnschedulesExactly(links, w, ops[0], x);
      StepKeepsWatch(links, w, ops[0], ready, true);
      WatchedRunsKeepTimers(links, Step(links, w, ops[0]), ops[1..], ready, x);
    }
  }

  lemma {:induction false} QuietStepSwitchesNothingOff(links: seq<Link>, w: World, op: Op, x: nat)
    requires Fits(links, w.agents) && OpFits(links, op) && Quiet(w.agents) && x < |links|
    ensures !StepSwitchesOff(links, w, op, x)
  {
    hide Hit, TakenBack, Below, Aggregate;
    if !op.FailOp? {
      var agents := PreparedAll(w, op);
      forall y | 0 <= y < |agents| ensures QuietAgent(agents[y]) {
        assert QuietAgent(w.agents[y]);
      }
      FoldIsQuiet(links, agents, op.agent);
    }
  }

  /** A finished refresh, changed, unchanged or failed, leaves the agent's own
      next time in the future if and only if it has a delay for that outcome,
      or had a later time already. */
  lemma {:induction false} RefreshReschedules(links: seq<Link>, w: World, op: Op)
    requires Fits(links, w.agents) && OpFits(links, op) && op.now > 0
    ensures var a := w.agents[op.agent];
      Step(links, w, op).agents[op.agent].next > op.now <==>
        a.next > op.now || (if op.FailOp? then a.failDelay > 0 else a.timer > 0)
  {
    hide Wanted, Step, TakenBack, Aggregate;
    StepIsSet(links, w, op);
    var i, s, w0 := op.agent, Asked(links, w, op), Logged(w, op);
    if Asks(w, op) && Takes(links, w0.agents, i, s) {
      var w1 := Change(links, w0, i, s, true, op.now);
      var w2 := if s.forward then ForwardFrom(links, w1, i, 0, s, op.now) else w1;
      if Below(links, i, i) { BelowIsLater(links, i, i); }
      if s.forward {
        ForwardFrame(links, w1, i, 0, s, op.now, false);
        UnderIsBelow(links, i, i);
      }
      ClimbBelow(links, w2, i, op.now, i);
    }
  }
}
