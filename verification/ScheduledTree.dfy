/** The scheduler and the agent tree together, under every interleaving: passes,
    tasks, on-demand checks, and state changes asked for from outside.

    The clocks that a refresh writes are those the state machine leaves. */
module ScheduledTree {
  import opened Tree
  import A = Agents
  import G = AgentAggregate
  import F = AgentForward
  import T = AgentSchedule
  import P = SchedulerPass
  import S = Scheduler

  datatype Joint = Joint(system: S.System, world: A.World)

  /** A step of the scheduler by itself, or one that ends an operation on an agent. */
  datatype Move =
    | Runs(act: S.Action)
    | Updates(act: S.Action, op: A.Op)

  function ClocksOf(agents: seq<A.Agent>): (r: seq<P.Clock>)
    ensures |r| == |agents|
  {
    seq(|agents|, x requires 0 <= x < |agents| => P.Clock(agents[x].next, agents[x].mode.WasForwarded?))
  }

  /** Both halves describe the same agents. */
  ghost predicate Mirrors(links: seq<Link>, j: Joint) {
    && P.Fits(links, j.system.slots) && A.Fits(links, j.world.agents)
    && P.Clocks(j.system.slots) == ClocksOf(j.world.agents)
    && forall x :: 0 <= x < |links| ==> j.system.slots[x].timer == j.world.agents[x].timer
  }

  predicate Writes(act: S.Action) {
    act.EndRefresh? || act.EndDemandRefresh? || act.ChangeState?
  }

  /** A finished refresh reports an update or a failure of its own agent; an
      on-demand refresh need not report anything. */
  ghost predicate Possible(links: seq<Link>, j: Joint, m: Move)
    requires A.Fits(links, j.world.agents)
  {
    && S.Enabled(links, j.system, m.act)
    && match m
       case Runs(act) => Writes(act) ==> act.written == P.Clocks(j.system.slots)
       case Updates(act, op) =>
         && Writes(act) && A.OpFits(links, op) && op.now > 0
         && act.written == ClocksOf(A.Step(links, j.world, op).agents)
         && (act.EndRefresh? ==> op.agent == act.agent)
         && (act.EndDemandRefresh? ==> op.agent == S.Top(j.system).agent)
  }

  function Timing(agents: seq<A.Agent>, slots: seq<P.Slot>): (r: seq<A.Agent>)
    requires |slots| == |agents|
    ensures |r| == |agents|
  {
    seq(|agents|, x requires 0 <= x < |agents| => agents[x].(next := slots[x].next))
  }

  ghost function After(links: seq<Link>, j: Joint, m: Move): Joint
    requires Mirrors(links, j) && Possible(links, j, m)
  {
    var s := S.Next(links, j.system, m.act);
    match m
    case Runs(_) =>
      SlotsStay(links, j.system, m.act);
      Joint(s, j.world.(agents := Timing(j.world.agents, s.slots)))
    case Updates(_, op) => Joint(s, A.Step(links, j.world, op))
  }

  lemma {:induction false} SlotsStay(links: seq<Link>, s: S.System, act: S.Action)
    requires P.Fits(links, s.slots) && S.Enabled(links, s, act)
    ensures var r := S.Next(links, s, act).slots;
      && |r| == |s.slots|
      && forall x :: 0 <= x < |r| ==>
           && r[x].timer == s.slots[x].timer
           && (!Writes(act) ==> r[x].forwarded == s.slots[x].forwarded)
  {
    hide P.Queue, P.Pass, P.Fits, S.Demanded, P.Rewritten;
    if Writes(act) {
      WritingKeepsTimers(s.slots, act.written);
    } else {
      OthersStay(links, s, act);
    }
  }

  lemma {:induction false} WritingKeepsTimers(slots: seq<P.Slot>, written: seq<P.Clock>)
    ensures forall x :: 0 <= x < |slots| ==> P.Rewritten(slots, written)[x].timer == slots[x].timer
  {
  }

  lemma {:induction false} OthersStay(links: seq<Link>, s: S.System, act: S.Action)
    requires P.Fits(links, s.slots) && S.Enabled(links, s, act) && !Writes(act)
    ensures SameSettings(s.slots, S.Next(links, s, act).slots)
  {
    hide P.Queue, P.Pass, S.Demanded, P.Rewritten, SameSettings;
    match act
    case ClearRunning(a) => ClearingStays(s.slots, a);
    case ReturnDemand => ClearingStays(s.slots, S.Top(s).agent);
    case MarkDue(_, now) => PassStays(links, s.slots, now);
    case CheckOnDemand(a, forward, now) => DemandedStays(s, a, forward, now);
    case DescendDemand(now) =>
      var f := S.Top(s);
      var s1 := s.(demand := s.demand[|s.demand| - 1 := f.(child := f.child + 1)]);
      DemandedStays(s1, links[f.agent].children[f.child], true, now);
    case _ => NothingStays(s.slots);
  }

  lemma {:induction false} NothingStays(slots: seq<P.Slot>)
    ensures SameSettings(slots, slots)
  {
  }

  lemma {:induction false} ClearingStays(slots: seq<P.Slot>, a: nat)
    requires a < |slots|
    ensures SameSettings(slots, slots[a := slots[a].(running := 0)])
  {
  }

  predicate SameSettings(was: seq<P.Slot>, slots: seq<P.Slot>) {
    && |slots| == |was|
    && forall x :: 0 <= x < |was| ==> slots[x].timer == was[x].timer && slots[x].forwarded == was[x].forwarded
  }

  lemma {:induction false} PassStays(links: seq<Link>, slots: seq<P.Slot>, now: int)
    ensures SameSettings(slots, P.Pass(links, slots, now))
  {
    hide Below;
  }

  lemma {:induction false} DemandedStays(s: S.System, a: nat, forward: bool, now: int)
    requires a < |s.slots|
    ensures SameSettings(s.slots, S.Demanded(s, a, forward, now).slots)
  {
  }

  ghost predicate Leads(links: seq<Link>, j: Joint, moves: seq<Move>, j': Joint)
    decreases |moves|
  {
    if moves == [] then j' == j
    else Mirrors(links, j) && Possible(links, j, moves[0]) && Leads(links, After(links, j, moves[0]), moves[1..], j')
  }

  // ----- both halves keep describing the same agents

  lemma {:induction false} SetKeepsTimer(links: seq<Link>, w: A.World, a: nat, s: A.State, now: int, x: nat)
    requires A.Fits(links, w.agents) && a < |links| && x < |links|
    ensures A.SetState(links, w, a, s, now).agents[x].timer == w.agents[x].timer
  {
    if A.Takes(links, w.agents, a, s) {
      var w1 := A.Change(links, w, a, s, true, now);
      var w2 := if s.forward then A.ForwardFrom(links, w1, a, 0, s, now) else w1;
      if s.forward {
        F.ForwardFrame(links, w1, a, 0, s, now, false);
        assert w2 == F.Sent(links, w1, a, 0, s, now, false);
      }
      T.ClimbRearms(links, w2, a, now, x);
    }
  }

  lemma {:induction false} StepKeepsTimer(links: seq<Link>, w: A.World, op: A.Op, x: nat)
    requires A.Fits(links, w.agents) && A.OpFits(links, op) && x < |links|
    ensures A.Step(links, w, op).agents[x].timer == w.agents[x].timer
  {
    T.StepIsSet(links, w, op);
    if T.Asks(w, op) {
      SetKeepsTimer(links, T.Logged(w, op), op.agent, T.Asked(links, w, op), op.now, x);
    }
  }

  lemma {:induction false} MoveMirrors(links: seq<Link>, j: Joint, m: Move)
    requires Mirrors(links, j) && Possible(links, j, m)
    ensures Mirrors(links, After(links, j, m))
  {
    var r := After(links, j, m);
    SlotsStay(links, j.system, m.act);
    match m
    case Runs(act) =>
      forall x | 0 <= x < |links|
        ensures P.Clocks(r.system.slots)[x] == ClocksOf(r.world.agents)[x]
      {
        assert P.Clocks(j.system.slots)[x] == ClocksOf(j.world.agents)[x];
      }
    case Updates(act, op) =>
      forall x | 0 <= x < |links| ensures r.system.slots[x].timer == r.world.agents[x].timer {
        StepKeepsTimer(links, j.world, op, x);
      }
      assert P.Clocks(P.Rewritten(j.system.slots, act.written)) == act.written;
  }

  function Acts(moves: seq<Move>): (r: seq<S.Action>)
    ensures |r| == |moves|
  {
    seq(|moves|, k requires 0 <= k < |moves| => moves[k].act)
  }

  /** A joint run is a run of the scheduler, so all that the scheduler promises
      holds of it; and the two halves agree at its end. */
  lemma {:induction false} JointRunsAreRuns(links: seq<Link>, j: Joint, moves: seq<Move>, j': Joint)
    requires Mirrors(links, j) && Leads(links, j, moves, j')
    ensures Mirrors(links, j') && S.Leads(links, j.system, Acts(moves), j'.system)
    decreases |moves|
  {
    if moves != [] {
      MoveMirrors(links, j, moves[0]);
      JointRunsAreRuns(links, After(links, j, moves[0]), moves[1..], j');
      assert Acts(moves)[1..] == Acts(moves[1..]);
    }
  }

  /** While the tree changes under it, no agent has two refreshes in flight. */
  lemma {:induction false} OneRefreshInTheTree(links: seq<Link>, j: Joint, moves: seq<Move>, j': Joint, a: nat)
    requires Mirrors(links, j) && S.Start(links, j.system) && Leads(links, j, moves, j')
    ensures S.InFlight(j'.system, a) <= 1
    ensures j'.system.demand == [] && a < |j'.system.slots| ==>
      S.TasksOf(j'.system, a) == if j'.system.slots[a].running != 0 then 1 else 0
  {
    JointRunsAreRuns(links, j, moves, j');
    S.AtMostOneRefresh(links, j.system, Acts(moves), j'.system, a);
    if j'.system.demand == [] && a < |j'.system.slots| {
      S.RunningMeansOneTask(links, j.system, Acts(moves), j'.system, a);
    }
  }

  // ----- agents on the schedule

  lemma {:induction false} ClocksAgree(links: seq<Link>, j: Joint, a: nat)
    requires Mirrors(links, j) && a < |links|
    ensures a < |j.system.slots| && a < |j.world.agents|
    ensures j.system.slots[a].next == j.world.agents[a].next && j.system.slots[a].timer == j.world.agents[a].timer
  {
    assert P.Clocks(j.system.slots)[a] == ClocksOf(j.world.agents)[a];
  }

  /** Passes, tasks and checks by themselves never take an agent with a timer
      off the schedule. */
  lemma {:induction false} SchedulerKeepsTimed(links: seq<Link>, s: S.System, act: S.Action, a: nat)
    requires P.Fits(links, s.slots) && S.Enabled(links, s, act) && (Writes(act) ==> act.written == P.Clocks(s.slots))
    requires a < |links| && s.slots[a].timer > 0 && s.slots[a].next != 0
    ensures S.Next(links, s, act).slots[a].next != 0
  {
    hide Below, P.Queue;
  }

  predicate SwitchesOff(links: seq<Link>, j: Joint, m: Move, a: nat)
    requires A.Fits(links, j.world.agents) && a < |links|
  {
    m.Updates? && m.op.agent < |links| && T.StepSwitchesOff(links, j.world, m.op, a)
  }

  /** A move takes an agent with a timer off the schedule if and only if it is a
      state change whose forward reaches that agent. */
  lemma {:induction false} MoveUnschedulesExactly(links: seq<Link>, j: Joint, m: Move, a: nat)
    requires Mirrors(links, j) && Possible(links, j, m) && a < |links| && T.Timed(j.world.agents[a])
    ensures a < |After(links, j, m).world.agents|
    ensures !T.Timed(After(links, j, m).world.agents[a]) <==> SwitchesOff(links, j, m, a)
  {
    ClocksAgree(links, j, a);
    match m
    case Runs(act) =>
      SlotsStay(links, j.system, act);
      SchedulerKeepsTimed(links, j.system, act, a);
    case Updates(_, op) => T.StepUnschedulesExactly(links, j.world, op, a);
  }

  ghost predicate StaysTimed(links: seq<Link>, j: Joint, moves: seq<Move>, j': Joint, a: nat)
    requires Leads(links, j, moves, j')
    decreases |moves|
  {
    && a < |j.world.agents| && T.Timed(j.world.agents[a])
    && (moves == [] || StaysTimed(links, After(links, j, moves[0]), moves[1..], j', a))
  }

  ghost predicate NeverSwitchedOff(links: seq<Link>, j: Joint, moves: seq<Move>, j': Joint, a: nat)
    requires Leads(links, j, moves, j') && a < |links|
    decreases |moves|
  {
    moves == []
    || (!SwitchesOff(links, j, moves[0], a) && NeverSwitchedOff(links, After(links, j, moves[0]), moves[1..], j', a))
  }

  /** Over every interleaving an agent with a timer stays on the schedule if and
      only if no forward reaches it. */
  lemma {:induction false} TimedAgentsStayScheduled(links: seq<Link>, j: Joint, moves: seq<Move>, j': Joint, a: nat)
    requires Mirrors(links, j) && Leads(links, j, moves, j') && a < |links| && T.Timed(j.world.agents[a])
    ensures StaysTimed(links, j, moves, j', a) <==> NeverSwitchedOff(links, j, moves, j', a)
    decreases |moves|
  {
    hide Possible, After, SwitchesOff, T.Timed;
    if moves != [] {
      MoveMirrors(links, j, moves[0]);
      MoveUnschedulesExactly(links, j, moves[0], a);
      var j1 := After(links, j, moves[0]);
      if T.Timed(j1.world.agents[a]) {
        TimedAgentsStayScheduled(links, j1, moves[1..], j', a);
      } else {
        assert !StaysTimed(links, j1, moves[1..], j', a);
      }
    }
  }

  // ----- the aggregate

  /** The agents that failed and have not been given a new value since. */
  ghost function FailedAfterMoves(links: seq<Link>, j: Joint, moves: seq<Move>, j': Joint, failed: set<nat>): set<nat>
    requires Leads(links, j, moves, j')
    decreases |moves|
  {
    if moves == [] then failed
    else
      FailedAfterMoves(links, After(links, j, moves[0]), moves[1..], j',
        if moves[0].Updates? then G.FailedAfter(j.world, moves[0].op, failed) else failed)
  }

  /** Rewriting times disturbs no state. */
  lemma {:induction false} TimingSettles(links: seq<Link>, agents: seq<A.Agent>, slots: seq<P.Slot>, failed: set<nat>)
    requires A.Fits(links, agents) && |slots| == |agents| && G.Quiet(agents) && G.SettledBut(links, agents, failed, -1)
    ensures G.Quiet(Timing(agents, slots)) && G.SettledBut(links, Timing(agents, slots), failed, -1)
  {
    var after := Timing(agents, slots);
    forall x | 0 <= x < |links| ensures G.QuietAgent(after[x]) {
      assert G.QuietAgent(agents[x]);
    }
    forall x | 0 <= x < |links| ensures G.Settled(links, after, failed, x) {
      assert G.Settled(links, agents, failed, x);
      assert LinkedAt(links, x);
      G.FoldFrame(agents, after, links[x].children, A.Own(agents[x]));
    }
  }

  /** Without forwarding states, every agent that has not failed since its last
      new value agrees with its children all through every interleaving. */
  lemma {:induction false} InterleavingsKeepAgreement(links: seq<Link>, j: Joint, moves: seq<Move>, j': Joint, failed: set<nat>)
    requires Mirrors(links, j) && Leads(links, j, moves, j')
    requires G.Quiet(j.world.agents) && G.SettledBut(links, j.world.agents, failed, -1)
    ensures Mirrors(links, j')
    ensures G.SettledBut(links, j'.world.agents, FailedAfterMoves(links, j, moves, j', failed), -1)
    decreases |moves|
  {
    hide G.SettledBut, G.Quiet, S.Next, S.Enabled;
    if moves != [] {
      MoveMirrors(links, j, moves[0]);
      var j1 := After(links, j, moves[0]);
      match moves[0] {
        case Runs(act) =>
          SlotsStay(links, j.system, act);
          TimingSettles(links, j.world.agents, j1.system.slots, failed);
          InterleavingsKeepAgreement(links, j1, moves[1..], j', failed);
        case Updates(_, op) =>
          G.StepSettles(links, j.world, op, failed);
          InterleavingsKeepAgreement(links, j1, moves[1..], j', G.FailedAfter(j.world, op, failed));
      }
    }
  }

  /** So from start, through every interleaving, each agent selects the full
      recomputation of its subtree whenever no failure is outstanding. */
  lemma {:induction false} InterleavingsKeepTheRecomputation(links: seq<Link>, w: A.World, now: int, j: Joint,
                                                             moves: seq<Move>, j': Joint)
    requires A.Fits(links, w.agents) && G.Quiet(w.agents) && j.world == A.StartAt(links, w, 0, now)
    requires Mirrors(links, j) && Leads(links, j, moves, j') && FailedAfterMoves(links, j, moves, j', {}) == {}
    ensures A.Fits(links, j'.world.agents)
    ensures forall i :: 0 <= i < |links| ==> j'.world.agents[i].selected == G.Recompute(links, j'.world.agents, i)
  {
    G.StartSettles(links, w, now);
    InterleavingsKeepAgreement(links, j, moves, j', {});
    forall i | 0 <= i < |links| ensures G.Exact(links, j'.world.agents, i) {
      assert G.Settled(links, j'.world.agents, {}, i);
    }
    G.ExactIsRecompute(links, j'.world.agents);
  }
}
