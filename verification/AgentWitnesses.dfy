/** Runs from `start` in which the agent state machine does what its
    documentation does not lead one to expect. */
module AgentWitnesses {
  import opened Wrappers
  import opened Tree
  import opened Agents
  import opened AgentAggregate
  import opened AgentEvents
  import opened AgentForward
  import opened AgentSchedule

  const FORWARDED := State(1, WARNING, true)
  const PLAIN := State(2, CRITICAL, false)
  const INNER := State(3, ERROR, false)
  const OTHER := State(4, CRITICAL, true)

  /** An agent before `start`, with these states for the values one and two. */
  function NewAgent(value: int, one: State, two: State, timer: nat, next: int): Agent {
    Agent(value, [StateRange(1, 1, one), StateRange(2, 2, two)], DEFAULT_STATE, WasSet, timer, 300, 0, next)
  }

  lemma {:induction false} OwnOfTable(a: Agent, one: State, two: State)
    requires a.states == [StateRange(1, 1, one), StateRange(2, 2, two)]
    ensures Own(a) == if a.value == 1 then one else if a.value == 2 then two else DEFAULT_STATE
  {
    var rest := [StateRange(2, 2, two)];
    assert a.states[1..] == rest && rest[1..] == [];
    assert FirstMatch(rest, a.value) == if a.value == 2 then two else DEFAULT_STATE;
  }

  const PAIR: seq<Link> := [Link(None, [1]), Link(Some(0), [])]
  const CHAIN: seq<Link> := [Link(None, [1]), Link(Some(0), [2]), Link(Some(1), [])]

  lemma {:induction false} PairIsLinked()
    ensures WellLinked(PAIR) && LinkedAt(PAIR, 0) && LinkedAt(PAIR, 1)
    ensures Below(PAIR, 0, 1) && !Below(PAIR, 0, 0) && !Below(PAIR, 1, 0) && !Below(PAIR, 1, 1)
  {
    assert LinkedAt(PAIR, 0) && LinkedAt(PAIR, 1);
  }

  lemma {:induction false} ChainIsLinked()
    ensures WellLinked(CHAIN) && LinkedAt(CHAIN, 0) && LinkedAt(CHAIN, 1) && LinkedAt(CHAIN, 2)
    ensures Below(CHAIN, 0, 1) && Below(CHAIN, 0, 2) && Below(CHAIN, 1, 2)
    ensures !Below(CHAIN, 0, 0) && !Below(CHAIN, 1, 0) && !Below(CHAIN, 1, 1)
    ensures !Below(CHAIN, 2, 0) && !Below(CHAIN, 2, 1) && !Below(CHAIN, 2, 2)
  {
    assert LinkedAt(CHAIN, 0) && LinkedAt(CHAIN, 1) && LinkedAt(CHAIN, 2);
    assert Below(CHAIN, 0, 1);
  }

  /** Starting a tree that agrees with its children already changes no agent. */
  lemma {:induction false} StartOfExact(links: seq<Link>, w: World, i: nat, k: nat, now: int, whole: bool)
    requires Fits(links, w.agents) && i < |links| && k <= |links[i].children| && AllExact(links, w.agents)
    requires forall x :: 0 <= x < |links| ==> w.agents[x].mode == WasSet && !Own(w.agents[x]).forward
    ensures Started(links, w, i, k, now, whole).agents == w.agents
    decreases |links| - i, if whole then |links[i].children| + 1 else |links[i].children| - k
  {
    if whole {
      StartOfExact(links, w, i, 0, now, false);
      assert Exact(links, w.agents, i);
    } else if k < |links[i].children| {
      ChildIsBelow(links, i, k);
      var c := links[i].children[k];
      StartOfExact(links, w, c, 0, now, true);
      StartOfExact(links, StartAt(links, w, c, now), i, k + 1, now, false);
    }
  }

  lemma {:induction false} StartOfNew(links: seq<Link>, w: World, now: int)
    requires Fits(links, w.agents)
    requires forall x :: 0 <= x < |links| ==> Own(w.agents[x]) == w.agents[x].selected == DEFAULT_STATE && w.agents[x].mode == WasSet
    ensures StartAt(links, w, 0, now).agents == w.agents
  {
    forall i | 0 <= i < |links| ensures Exact(links, w.agents, i) {
      assert LinkedAt(links, i);
      FoldKeeps(w.agents, links[i].children, DEFAULT_STATE);
    }
    StartOfExact(links, w, 0, 0, now, true);
    assert StartAt(links, w, 0, now) == Started(links, w, 0, 0, now, true);
  }

  lemma {:induction false} OnlyChild(links: seq<Link>, agents: seq<Agent>, i: nat)
    requires Fits(links, agents) && i < |links|
    ensures links[i].children == [] ==> Aggregate(links, agents, i) == Own(agents[i])
    ensures |links[i].children| == 1 ==>
      assert LinkedAt(links, i);
      var s := agents[links[i].children[0]].selected;
      Aggregate(links, agents, i) == if s.level > Own(agents[i]).level then s else Own(agents[i])
  {
    assert LinkedAt(links, i);
    if |links[i].children| == 1 {
      var s := agents[links[i].children[0]].selected;
      var acc := if s.level > Own(agents[i]).level then s else Own(agents[i]);
      assert Fold(agents, links[i].children[1..], acc) == acc;
    }
  }

  /** A state change of an agent below which nobody holds its old state. */
  lemma {:induction false} ChangeAlone(links: seq<Link>, w: World, i: nat, s: State, activate: bool, now: int)
    requires Fits(links, w.agents) && i < |links|
    requires forall x :: 0 <= x < |links| && Below(links, i, x) ==> w.agents[x].selected != w.agents[i].selected
    ensures Change(links, w, i, s, activate, now).agents ==
      w.agents[i := w.agents[i].(selected := s, mode := if activate then WasActivated else WasSet)]
  {
    assert Free(links, w.agents, i, now) == w.agents;
  }

  lemma {:induction false} TwoSteps(links: seq<Link>, w: World, ops: seq<Op>)
    requires Fits(links, w.agents) && |ops| == 2 && OpFits(links, ops[0]) && OpFits(links, ops[1])
    ensures Run(links, w, ops) == Step(links, Step(links, w, ops[0]), ops[1])
  {
    assert ops[1..] == [ops[1]];
    var w1 := Step(links, w, ops[0]);
    assert Run(links, w1, [ops[1]]) == Run(links, Step(links, w1, ops[1]), []);
  }

  lemma {:induction false} ThreeSteps(links: seq<Link>, w: World, ops: seq<Op>)
    requires Fits(links, w.agents) && |ops| == 3
    requires OpFits(links, ops[0]) && OpFits(links, ops[1]) && OpFits(links, ops[2])
    ensures Run(links, w, ops) == Step(links, Step(links, Step(links, w, ops[0]), ops[1]), ops[2])
  {
    assert ops[1..] == [ops[1], ops[2]];
    TwoSteps(links, Step(links, w, ops[0]), [ops[1], ops[2]]);
  }

  // ----- the runs

  /** Log entries that are no switches leave the count of lost activations. */
  lemma {:induction false} NoticesLoseNothing(w: World, w1: World, more: seq<Event>, x: nat)
    requires x < |w.agents| && x < |w1.agents| && w1.agents[x].mode == w.agents[x].mode && w1.log == w.log + more
    requires forall k :: 0 <= k < |more| ==>
      more[k].Notified? && more[k].signal != READY_AGAIN && more[k].signal != NOT_READY
    ensures Leaked(w1, x) == Leaked(w, x)
  {
    ReplayAppend(w.log, more, x, true);
    SilentReplay(Replay(w.log, x, true), more, x);
  }

  /** An activation that is never undone: the child activates a forwarding
      state, the root selects it by aggregation and then leaves it, and the
      child is put back on the same state as if it had not activated it. */
  lemma {:induction false} ActivationLeaks() returns (w: World, ops: seq<Op>)
    ensures Fits(PAIR, w.agents) && Fresh(w) && forall k :: 0 <= k < |ops| ==> OpFits(PAIR, ops[k])
    ensures var r := Run(PAIR, StartAt(PAIR, w, 0, 1000), ops);
      && r.agents[1].selected == FORWARDED && r.agents[1].mode.WasSet?
      && Leaked(r, 1) == 1
  {
    PairIsLinked();
    var root, child := NewAgent(0, PLAIN, PLAIN, 0, 0), NewAgent(0, FORWARDED, FORWARDED, 0, 0);
    w := World([root, child], []);
    var op0, op1 := SetValueOp(1, 1, 1000), SetValueOp(0, 1, 1010);
    ops := [op0, op1];
    var w0 := StartAt(PAIR, w, 0, 1000);
    StartOfNew(PAIR, w, 1000);
    StartOfPair(w, 1000);
    TwoSteps(PAIR, w0, ops);
    var w1 := ChildActivates(w0, op0, root, child);
    var r := RootLeaves(w1, op1);
  }

  lemma {:induction false} StartOfPair(w: World, now: int)
    requires |w.agents| == 2 && Fits(PAIR, w.agents) && w.log == []
    requires StartAt(PAIR, w, 0, now).agents == w.agents
    requires forall x :: 0 <= x < 2 ==> Own(w.agents[x]) == DEFAULT_STATE && w.agents[x].mode == WasSet
    ensures Leaked(StartAt(PAIR, w, 0, now), 1) == 0
  {
    var w1 := StartAt(PAIR, w, 1, now);
    assert StartFrom(PAIR, w, 1, 0, now) == w;
    assert w1.log == [] + [Notified(1, STARTED)];
    NoticesLoseNothing(w, w1, [Notified(1, STARTED)], 1);
    var w2 := StartFrom(PAIR, w, 0, 0, now);
    assert StartFrom(PAIR, w1, 0, 1, now) == w1;
    assert w2 == w1;
    NoticesLoseNothing(w1, StartAt(PAIR, w, 0, now), [Notified(0, STARTED)], 1);
  }

  lemma {:induction false} ChildActivates(w: World, op: Op, root: Agent, child: Agent) returns (r: World)
    requires root == NewAgent(0, PLAIN, PLAIN, 0, 0) && child == NewAgent(0, FORWARDED, FORWARDED, 0, 0)
    requires Fits(PAIR, w.agents) && w.agents == [root, child] && op == SetValueOp(1, 1, 1000) && Leaked(w, 1) == 0
    ensures r == Step(PAIR, w, op) && Leaked(r, 1) == 0
    ensures |r.agents| == 2 && r.agents[0] == root.(selected := FORWARDED)
    ensures r.agents[1].selected == Own(r.agents[1]) == FORWARDED && r.agents[1].mode == WasActivated && r.agents[1].timer == 0
  {
    PairIsLinked();
    StepIsSet(PAIR, w, op);
    var u := Logged(w, op);
    NoticesLoseNothing(w, u, [Notified(1, VALUE_CHANGED)], 1);
    OnlyChild(PAIR, u.agents, 1);
    var w1 := Change(PAIR, u, 1, FORWARDED, true, 1000);
    ChangeLeaks(PAIR, u, 1, FORWARDED, true, 1000, 1);
    assert ForwardFrom(PAIR, w1, 1, 0, FORWARDED, 1000) == w1;
    OnlyChild(PAIR, w1.agents, 0);
    r := Change(PAIR, w1, 0, FORWARDED, false, 1000);
    ChangeLeaks(PAIR, w1, 0, FORWARDED, false, 1000, 1);
    assert Climb(PAIR, r, 0, 1000) == r;
    assert Climb(PAIR, w1, 1, 1000) == r;
  }

  lemma {:induction false} RootLeaves(w: World, op: Op) returns (r: World)
    requires Fits(PAIR, w.agents) && op == SetValueOp(0, 1, 1010) && Leaked(w, 1) == 0
    requires |w.agents| == 2 && w.agents[0] == NewAgent(0, PLAIN, PLAIN, 0, 0).(selected := FORWARDED)
    requires w.agents[1].selected == Own(w.agents[1]) == FORWARDED && w.agents[1].mode == WasActivated && w.agents[1].timer == 0
    ensures r == Step(PAIR, w, op) && |r.agents| == 2
    ensures r.agents[1].selected == FORWARDED && r.agents[1].mode.WasSet? && Leaked(r, 1) == 1
  {
    PairIsLinked();
    StepIsSet(PAIR, w, op);
    var u := Logged(w, op);
    NoticesLoseNothing(w, u, [Notified(0, VALUE_CHANGED)], 1);
    OnlyChild(PAIR, u.agents, 0);
    r := Change(PAIR, u, 0, PLAIN, true, 1010);
    ChangeLeaks(PAIR, u, 0, PLAIN, true, 1010, 1);
    assert Climb(PAIR, r, 0, 1010) == r;
  }

  /** The state of an agent of the chain or pair for each value. */
  lemma {:induction false} OwnOfNew(value: int, one: State, two: State, timer: nat, next: int)
    ensures forall a: Agent :: a.states == NewAgent(value, one, two, timer, next).states ==>
      Own(a) == if a.value == 1 then one else if a.value == 2 then two else DEFAULT_STATE
  {
    forall a: Agent | a.states == NewAgent(value, one, two, timer, next).states
      ensures Own(a) == if a.value == 1 then one else if a.value == 2 then two else DEFAULT_STATE
    {
      OwnOfTable(a, one, two);
    }
  }

  /** Three new agents in a chain; the middle one has a timer. */
  function NewChain(): World {
    World([NewAgent(0, FORWARDED, PLAIN, 0, 0), NewAgent(0, INNER, PLAIN, 60, 1060), NewAgent(0, INNER, PLAIN, 0, 0)], [])
  }

  /** The root forwards its state down the chain. */
  lemma {:induction false} ForwardDownTheChain(w: World, now: int) returns (r: World)
    requires Fits(CHAIN, w.agents) && w.agents[0].value == 0 && w.agents[0].states == NewChain().agents[0].states
    requires forall x :: 0 <= x < 3 ==> w.agents[x].selected in {DEFAULT_STATE, INNER}
    requires forall x :: 1 <= x < 3 ==> Own(w.agents[x]) in {DEFAULT_STATE, INNER}
    ensures r == Step(CHAIN, w, SetValueOp(0, 1, now))
    ensures r.agents[0] == Stamped(w.agents[0].(value := 1), now).(selected := FORWARDED, mode := WasActivated)
    ensures forall x :: 1 <= x < 3 ==> r.agents[x] == w.agents[x].(selected := FORWARDED, mode := WasForwarded, next := 0)
  {
    hide Step, SetState, Change, ForwardFrom, Climb, Hit, AtVisit, TakenBack, FirstMatch;
    OwnOfTable(w.agents[0].(value := 1), FORWARDED, PLAIN);
    ChainIsLinked();
    var op := SetValueOp(0, 1, now);
    r := Step(CHAIN, w, op);
    StepIsSet(CHAIN, w, op);
    var u := Logged(w, op);
    forall x | 0 < x < 3 ensures r.agents[x] == w.agents[x].(selected := FORWARDED, mode := WasForwarded, next := 0) {
      ForeignIsHit(CHAIN, u.agents, 0, FORWARDED, x);
      NobodyTakesBack(CHAIN, u.agents[0 := u.agents[0].(selected := FORWARDED)], 0, FORWARDED);
      var v := SetVisits(CHAIN, u, 0, FORWARDED, now, x);
    }
    RootActivates(CHAIN, u, FORWARDED, now);
  }

  lemma {:induction false} RootActivates(links: seq<Link>, w: World, s: State, now: int)
    requires Fits(links, w.agents) && Takes(links, w.agents, 0, s)
    ensures SetState(links, w, 0, s, now).agents[0] == w.agents[0].(selected := s, mode := WasActivated)
  {
    assert LinkedAt(links, 0);
    if Below(links, 0, 0) { BelowIsLater(links, 0, 0); }
    if s.forward {
      ForwardFrame(links, Change(links, w, 0, s, true, now), 0, 0, s, now, false);
      UnderIsBelow(links, 0, 0);
    }
  }

  /** A bad value at the end of the chain is seen all the way up. */
  lemma {:induction false} ClimbUpTheChain(w: World, value: int, s: State, now: int) returns (r: World)
    requires Fits(CHAIN, w.agents) && w.agents[2].value != value && Own(w.agents[2].(value := value)) == s && !s.forward
    requires forall x :: 0 <= x < 2 ==> Own(w.agents[x]).level < s.level
    requires forall x :: 0 <= x < 3 ==> w.agents[x].selected != s
    requires !w.agents[1].mode.WasActivated?
    ensures r == Step(CHAIN, w, SetValueOp(2, value, now))
    ensures forall x :: 0 <= x < 2 ==> r.agents[x] == w.agents[x].(selected := s, mode := WasSet)
    ensures r.agents[2] == Stamped(w.agents[2].(value := value), now).(selected := s, mode := WasActivated)
  {
    hide Step, Change, FirstMatch, Aggregate;
    ChainIsLinked();
    var op := SetValueOp(2, value, now);
    StepIsSet(CHAIN, w, op);
    var u := Logged(w, op);
    OnlyChild(CHAIN, u.agents, 2);
    var w1 := Change(CHAIN, u, 2, s, true, now);
    ChangeAlone(CHAIN, u, 2, s, true, now);
    OnlyChild(CHAIN, w1.agents, 1);
    var w2 := Change(CHAIN, w1, 1, s, false, now);
    ChangeAlone(CHAIN, w1, 1, s, false, now);
    OnlyChild(CHAIN, w2.agents, 0);
    r := Change(CHAIN, w2, 0, s, false, now);
    ChangeAlone(CHAIN, w2, 0, s, false, now);
    assert Climb(CHAIN, r, 0, now) == r;
    assert Climb(CHAIN, w2, 1, now) == r;
    assert Climb(CHAIN, w1, 2, now) == r;
  }

  /** An agent with a timer that is off the schedule although nothing is
      forwarded to it any more: the root forwards, then the end of the chain
      changes, which it may, and the middle takes over its state. */
  lemma {:induction false} OffTheSchedule() returns (w: World, ops: seq<Op>)
    ensures Fits(CHAIN, w.agents) && Fresh(w) && forall k :: 0 <= k < |ops| ==> OpFits(CHAIN, ops[k])
    ensures Timed(StartAt(CHAIN, w, 0, 900).agents[1])
    ensures var r := Run(CHAIN, StartAt(CHAIN, w, 0, 900), ops);
      r.agents[1].timer == 60 && r.agents[1].next == 0 && r.agents[1].mode.WasSet?
  {
    hide Step, SetState, StartAt, Run, FirstMatch;
    ChainIsLinked();
    w := NewChain();
    OwnOfNew(0, FORWARDED, PLAIN, 0, 0);
    OwnOfNew(0, INNER, PLAIN, 0, 0);
    StartOfNew(CHAIN, w, 900);
    var w0 := StartAt(CHAIN, w, 0, 900);
    ops := [SetValueOp(0, 1, 1000), SetValueOp(2, 1, 1010)];
    TwoSteps(CHAIN, w0, ops);
    var w1 := ForwardDownTheChain(w0, 1000);
    var r := ClimbUpTheChain(w1, 1, INNER, 1010);
  }

  /** A released tree that is not aggregated again: the middle agent selects the
      default state above a child in error. */
  lemma {:induction false} ReleasedUnaggregated() returns (w: World, ops: seq<Op>)
    ensures Fits(CHAIN, w.agents) && Fresh(w) && forall k :: 0 <= k < |ops| ==> OpFits(CHAIN, ops[k])
    ensures var r := Run(CHAIN, StartAt(CHAIN, w, 0, 900), ops);
      r.agents[1].selected == DEFAULT_STATE && r.agents[2].selected == INNER && !Exact(CHAIN, r.agents, 1)
  {
    hide Step, SetState, StartAt, Run, FirstMatch;
    ChainIsLinked();
    w := NewChain();
    OwnOfNew(0, FORWARDED, PLAIN, 0, 0);
    OwnOfNew(0, INNER, PLAIN, 0, 0);
    StartOfNew(CHAIN, w, 900);
    var w0 := StartAt(CHAIN, w, 0, 900);
    ops := [SetValueOp(2, 1, 1000), SetValueOp(0, 1, 1010), SetValueOp(0, 2, 1020)];
    ThreeSteps(CHAIN, w0, ops);
    var w1 := ClimbUpTheChain(w0, 1, INNER, 1000);
    var w2 := ForwardDownTheChain(w1, 1010);
    RootReleasesTheChain(w2, ops[2]);
    OnlyChild(CHAIN, Run(CHAIN, w0, ops).agents, 1);
  }

  lemma {:induction false} RootReleasesTheChain(w: World, op: Op)
    requires Fits(CHAIN, w.agents) && op == SetValueOp(0, 2, 1020) && w.agents[0].value != 2
    requires Own(w.agents[0].(value := 2)) == PLAIN
    requires forall x :: 0 <= x < 3 ==> w.agents[x].selected == FORWARDED
    ensures forall x :: 1 <= x < 3 ==> Step(CHAIN, w, op).agents[x] == Released(w.agents[x], 1020)
  {
    hide FirstMatch;
    ChainIsLinked();
    StepIsSet(CHAIN, w, op);
    var u := Logged(w, op);
    OnlyChild(CHAIN, u.agents, 0);
    var r := Change(CHAIN, u, 0, PLAIN, true, 1020);
    assert Climb(CHAIN, r, 0, 1020) == r;
  }

  /** A forward that misses a descendant although none held the state. It takes
      one state object in the tables of both agents: the child loses the old
      forwarded state, computes the new one by itself, and so stops the
      forward, unflagged and due for updates again. */
  lemma {:induction false} ForwardCanMiss() returns (w: World, ops: seq<Op>)
    ensures Fits(PAIR, w.agents) && Fresh(w) && |ops| == 3 && forall k :: 0 <= k < |ops| ==> OpFits(PAIR, ops[k])
    ensures StateRange(2, 2, OTHER) in w.agents[0].states && StateRange(1, 1, OTHER) in w.agents[1].states
    ensures var before := Run(PAIR, StartAt(PAIR, w, 0, 900), ops[..2]);
      var after := Run(PAIR, StartAt(PAIR, w, 0, 900), ops);
      && before.agents[1].selected == FORWARDED && !Blocked(PAIR, before.agents, 0)
      && after.agents[0].selected == OTHER && after.agents[0].mode.WasActivated?
      && after.agents[1] == before.agents[1].(selected := OTHER, mode := WasSet, next := 1080)
  {
    hide Step, SetState, StartAt, Run, FirstMatch;
    PairIsLinked();
    OwnOfNew(0, FORWARDED, OTHER, 0, 0);
    OwnOfNew(0, OTHER, PLAIN, 60, 1060);
    var root, child := NewAgent(0, FORWARDED, OTHER, 0, 0), NewAgent(0, OTHER, PLAIN, 60, 1060);
    w := World([root, child], []);
    ops := [SetValueOp(0, 1, 1000), SetValueOp(1, 1, 1010), SetValueOp(0, 2, 1020)];
    StartOfNew(PAIR, w, 900);
    var w0 := StartAt(PAIR, w, 0, 900);
    ThreeSteps(PAIR, w0, ops);
    assert ops[..2] == [ops[0], ops[1]];
    TwoSteps(PAIR, w0, ops[..2]);
    var w1 := ForwardToTheChild(w0, 1, FORWARDED, 1000);
    var w2 := Logged(w1, ops[1]);
    BlockedStep(PAIR, w1, ops[1]);
    RootChangesForward(w2, ops[2]);
  }

  lemma {:induction false} BlockedStep(links: seq<Link>, w: World, op: Op)
    requires Fits(links, w.agents) && OpFits(links, op) && Blocked(links, w.agents, op.agent)
    ensures Step(links, w, op) == Logged(w, op)
  {
    assert LinkedAt(links, op.agent);
    StepIsSet(links, w, op);
    assert Blocked(links, Logged(w, op).agents, op.agent);
  }

  lemma {:induction false} RootChangesForward(w: World, op: Op)
    requires Fits(PAIR, w.agents) && op == SetValueOp(0, 2, 1020) && w.agents[0].value != 2
    requires Own(w.agents[0].(value := 2)) == Own(w.agents[1]) == OTHER && w.agents[1].timer == 60
    requires forall x :: 0 <= x < 2 ==> w.agents[x].selected == FORWARDED
    ensures var r := Step(PAIR, w, op);
      && r.agents[0].selected == OTHER && r.agents[0].mode.WasActivated?
      && r.agents[1] == w.agents[1].(selected := OTHER, mode := WasSet, next := 1080)
  {
    hide FirstMatch;
    PairIsLinked();
    StepIsSet(PAIR, w, op);
    var u := Logged(w, op);
    var r := Change(PAIR, u, 0, OTHER, true, 1020);
    assert ForwardTo(PAIR, r, 1, OTHER, 1020) == r;
    assert ForwardFrom(PAIR, r, 0, 1, OTHER, 1020) == r;
    assert ForwardFrom(PAIR, r, 0, 0, OTHER, 1020) == r;
    assert Climb(PAIR, r, 0, 1020) == r;
  }

  lemma {:induction false} ForwardToTheChild(w: World, value: int, s: State, now: int) returns (r: World)
    requires Fits(PAIR, w.agents) && w.agents[0].value != value && Own(w.agents[0].(value := value)) == s && s.forward
    requires forall x :: 0 <= x < 2 ==> !w.agents[x].selected.forward
    ensures r == Step(PAIR, w, SetValueOp(0, value, now))
    ensures r.agents[0] == Stamped(w.agents[0].(value := value), now).(selected := s, mode := WasActivated)
    ensures r.agents[1] == w.agents[1].(selected := s, mode := WasForwarded, next := 0)
  {
    PairIsLinked();
    var op := SetValueOp(0, value, now);
    StepIsSet(PAIR, w, op);
    var u := Logged(w, op);
    var w1 := Change(PAIR, u, 0, s, true, now);
    r := Entered(PAIR, w1, 1, s, now);
    assert ForwardFrom(PAIR, r, 1, 0, s, now) == r;
    assert ForwardTo(PAIR, w1, 1, s, now) == r;
    assert ForwardFrom(PAIR, r, 0, 1, s, now) == r;
    assert ForwardFrom(PAIR, w1, 0, 0, s, now) == r;
    assert Climb(PAIR, r, 0, now) == r;
  }
}
