/** Without forwarding states the incremental machine keeps the tree equal to
    a full bottom-up recomputation, although `set` stops at the first ancestor
    that does not change. */
module AgentAggregate {
  import opened Wrappers
  import opened Tree
  import opened Agents

  // ----- the recomputation the machine is measured against

  /** The state of `i` recomputed from scratch, over the whole subtree. */
  function Recompute(links: seq<Link>, agents: seq<Agent>, i: nat): State
    requires Fits(links, agents) && i < |links|
    decreases |links| - i, |links[i].children| + 1
  {
    RecomputeFrom(links, agents, i, 0, Own(agents[i]))
  }

  function RecomputeFrom(links: seq<Link>, agents: seq<Agent>, i: nat, k: nat, acc: State): State
    requires Fits(links, agents) && i < |links| && k <= |links[i].children|
    decreases |links| - i, |links[i].children| - k
  {
    if k == |links[i].children| then acc
    else
      assert LinkedAt(links, i);
      var s := Recompute(links, agents, links[i].children[k]);
      RecomputeFrom(links, agents, i, k + 1, if s.level > acc.level then s else acc)
  }

  // ----- invariants

  /** No state that a value can select, or that is selected now, is forwarded. */
  ghost predicate Quiet(agents: seq<Agent>) {
    forall i :: 0 <= i < |agents| ==> QuietAgent(agents[i])
  }

  ghost predicate QuietAgent(a: Agent) {
    && !a.selected.forward
    && forall k :: 0 <= k < |a.states| ==> !a.states[k].state.forward
  }

  /** The agent selects what its value and its children's selections call for. */
  ghost predicate Exact(links: seq<Link>, agents: seq<Agent>, i: nat)
    requires Fits(links, agents) && i < |links|
  {
    agents[i].selected == Aggregate(links, agents, i)
  }

  ghost predicate AllExact(links: seq<Link>, agents: seq<Agent>)
    requires Fits(links, agents)
  {
    forall i :: 0 <= i < |links| ==> Exact(links, agents, i)
  }

  /** After failures: exact, or holding a critical state that `failed` put there. */
  ghost predicate ExactOrCritical(links: seq<Link>, agents: seq<Agent>, i: nat)
    requires Fits(links, agents) && i < |links|
  {
    Exact(links, agents, i) || agents[i].selected.level == CRITICAL
  }

  /** Exact, unless the agent is one of those that failed. */
  ghost predicate Settled(links: seq<Link>, agents: seq<Agent>, failed: set<nat>, i: nat)
    requires Fits(links, agents) && i < |links|
  {
    if i in failed then ExactOrCritical(links, agents, i) else Exact(links, agents, i)
  }

  /** Every agent except possibly `but` is settled. */
  ghost predicate SettledBut(links: seq<Link>, agents: seq<Agent>, failed: set<nat>, but: int)
    requires Fits(links, agents)
  {
    forall i :: 0 <= i < |links| && i != but ==> Settled(links, agents, failed, i)
  }

  // ----- folding

  lemma {:induction false} FoldFrame(before: seq<Agent>, after: seq<Agent>, children: seq<nat>, acc: State)
    requires |before| == |after|
    requires forall k :: 0 <= k < |children| ==> children[k] < |before|
    requires forall k :: 0 <= k < |children| ==> before[children[k]].selected == after[children[k]].selected
    ensures Fold(before, children, acc) == Fold(after, children, acc)
  {
    if children != [] {
      var s := before[children[0]].selected;
      FoldFrame(before, after, children[1..], if s.level > acc.level then s else acc);
    }
  }

  /** The fold is the start value or one of the children's states, and it is at
      least as bad as all of them. */
  lemma {:induction false} FoldIsWorst(agents: seq<Agent>, children: seq<nat>, acc: State)
    requires forall k :: 0 <= k < |children| ==> children[k] < |agents|
    ensures Fold(agents, children, acc).level >= acc.level
    ensures forall k :: 0 <= k < |children| ==>
      agents[children[k]].selected.level <= Fold(agents, children, acc).level
    ensures Fold(agents, children, acc) == acc
      || exists k :: 0 <= k < |children| && Fold(agents, children, acc) == agents[children[k]].selected
  {
    if children != [] {
      var s := agents[children[0]].selected;
      var acc' := if s.level > acc.level then s else acc;
      FoldIsWorst(agents, children[1..], acc');
      forall k | 0 <= k < |children|
        ensures agents[children[k]].selected.level <= Fold(agents, children, acc).level
      {
        if k > 0 {
          assert children[k] == children[1..][k - 1];
        }
      }
      if Fold(agents, children[1..], acc') != acc' {
        var k :| 0 <= k < |children[1..]| && Fold(agents, children[1..], acc') == agents[children[1..][k]].selected;
        assert children[k + 1] == children[1..][k];
      }
    }
  }

  lemma {:induction false} FoldIsQuiet(links: seq<Link>, agents: seq<Agent>, i: nat)
    requires Fits(links, agents) && i < |links| && Quiet(agents)
    ensures !Own(agents[i]).forward && !Aggregate(links, agents, i).forward
  {
    assert QuietAgent(agents[i]);
    OwnIsQuiet(agents[i].states, agents[i].value);
    assert LinkedAt(links, i);
    FoldIsWorst(agents, links[i].children, Own(agents[i]));
    if Aggregate(links, agents, i) != Own(agents[i]) {
      var k :| 0 <= k < |links[i].children| && Aggregate(links, agents, i) == agents[links[i].children[k]].selected;
      assert QuietAgent(agents[links[i].children[k]]);
    }
  }

  lemma {:induction false} OwnIsQuiet(states: seq<StateRange>, value: int)
    requires forall k :: 0 <= k < |states| ==> !states[k].state.forward
    ensures !FirstMatch(states, value).forward
  {
    if states != [] {
      OwnIsQuiet(states[1..], value);
    }
  }

  /** Changing the selection of `i` disturbs nobody but `i` and its parent. */
  lemma {:induction false} ExactFrame(links: seq<Link>, before: seq<Agent>, after: seq<Agent>, i: nat, j: nat)
    requires Fits(links, before) && Fits(links, after) && i < |links| && j < |links|
    requires forall x :: 0 <= x < |links| && x != i ==> before[x].selected == after[x].selected
    requires Own(before[j]) == Own(after[j])
    requires links[i].parent != Some(j)
    ensures Aggregate(links, before, j) == Aggregate(links, after, j)
    ensures i != j ==> (Exact(links, before, j) <==> Exact(links, after, j))
  {
    assert LinkedAt(links, j);
    FoldFrame(before, after, links[j].children, Own(before[j]));
  }

  // ----- the steps

  /** Aggregate of the parent and of everybody above: the loop of `set`. */
  lemma {:induction false} ClimbSettles(links: seq<Link>, w: World, i: nat, now: int, failed: set<nat>)
    requires Fits(links, w.agents) && i < |links| && Quiet(w.agents)
    requires SettledBut(links, w.agents, failed, if links[i].parent.Some? then links[i].parent.value else -1)
    ensures Quiet(Climb(links, w, i, now).agents)
    ensures SettledBut(links, Climb(links, w, i, now).agents, failed, -1)
    decreases i
  {
    if links[i].parent.Some? {
      assert LinkedAt(links, i);
      var p := links[i].parent.value;
      var s := Aggregate(links, w.agents, p);
      if s != w.agents[p].selected {
        var w1 := Change(links, w, p, s, false, now);
        FoldIsQuiet(links, w.agents, p);
        assert QuietAgent(w.agents[p]);
        assert Quiet(w1.agents) by {
          forall x | 0 <= x < |links| ensures QuietAgent(w1.agents[x]) {
            assert QuietAgent(w.agents[x]);
          }
        }
        SelectingSettles(links, w.agents, w1.agents, p, failed);
        ClimbSettles(links, w1, p, now, failed);
      }
    }
  }

  /** Once `i` selects its aggregate, or a critical state when that is
      excused, only its parent can be unsettled. */
  lemma {:induction false} SelectingSettles(links: seq<Link>, before: seq<Agent>, after: seq<Agent>, i: nat, failed: set<nat>)
    requires Fits(links, before) && Fits(links, after) && i < |links|
    requires SettledBut(links, before, failed, i)
    requires forall x :: 0 <= x < |links| ==> Own(before[x]) == Own(after[x])
    requires forall x :: 0 <= x < |links| && x != i ==> before[x].selected == after[x].selected
    requires after[i].selected == Aggregate(links, before, i) || (i in failed && after[i].selected.level == CRITICAL)
    ensures SettledBut(links, after, failed, if links[i].parent.Some? then links[i].parent.value else -1)
  {
    assert LinkedAt(links, i);
    forall j | 0 <= j < |links| && links[i].parent != Some(j)
      ensures Settled(links, after, failed, j)
    {
      if j != i { assert Settled(links, before, failed, j); }
      ExactFrame(links, before, after, i, j);
    }
  }

  lemma {:induction false} SetSettles(links: seq<Link>, w: World, i: nat, s: State, now: int, failed: set<nat>)
    requires Fits(links, w.agents) && i < |links| && Quiet(w.agents) && !s.forward
    requires SettledBut(links, w.agents, failed, i)
    requires s == Aggregate(links, w.agents, i) || (i in failed && s.level == CRITICAL)
    ensures Quiet(SetState(links, w, i, s, now).agents)
    ensures SettledBut(links, SetState(links, w, i, s, now).agents, failed, -1)
  {
    assert LinkedAt(links, i);
    assert QuietAgent(w.agents[i]);
    if links[i].parent.Some? {
      assert QuietAgent(w.agents[links[i].parent.value]);
    }
    if s != w.agents[i].selected {
      var w1 := Change(links, w, i, s, true, now);
      assert Quiet(w1.agents) by {
        forall x | 0 <= x < |links| ensures QuietAgent(w1.agents[x]) {
          assert QuietAgent(w.agents[x]);
        }
      }
      SelectingSettles(links, w.agents, w1.agents, i, failed);
      ClimbSettles(links, w1, i, now, failed);
    }
  }

  /** Rewriting the value or the clock fields of one agent unsettles only it. */
  lemma {:induction false} TouchSettles(links: seq<Link>, before: seq<Agent>, i: nat, a: Agent, failed: set<nat>)
    requires Fits(links, before) && i < |links|
    requires Quiet(before) && SettledBut(links, before, failed, -1)
    requires a.selected == before[i].selected && a.states == before[i].states
    ensures Quiet(before[i := a])
    ensures SettledBut(links, before[i := a], failed, i)
    ensures Own(a) == Own(before[i]) ==> SettledBut(links, before[i := a], failed, -1)
  {
    var after := before[i := a];
    forall x | 0 <= x < |links| ensures QuietAgent(after[x]) {
      assert QuietAgent(before[x]);
    }
    forall j | 0 <= j < |links| && (j != i || Own(a) == Own(before[i]))
      ensures Settled(links, after, failed, j)
    {
      assert Settled(links, before, failed, j);
      assert LinkedAt(links, j);
      FoldFrame(before, after, links[j].children, Own(before[j]));
    }
  }

  lemma {:induction false} UpdatedSettles(links: seq<Link>, w: World, i: nat, changed: bool, now: int, failed: set<nat>)
    requires Fits(links, w.agents) && i < |links| && Quiet(w.agents)
    requires SettledBut(links, w.agents, failed, if changed then i else -1)
    ensures Quiet(Updated(links, w, i, changed, now).agents)
    ensures SettledBut(links, Updated(links, w, i, changed, now).agents, failed, -1)
  {
    var after := w.agents[i := Stamped(w.agents[i], now)];
    forall x | 0 <= x < |links| ensures QuietAgent(after[x]) {
      assert QuietAgent(w.agents[x]);
    }
    forall j | 0 <= j < |links| && (changed ==> j != i)
      ensures Settled(links, after, failed, j)
    {
      assert Settled(links, w.agents, failed, j);
      assert LinkedAt(links, j);
      FoldFrame(w.agents, after, links[j].children, Own(w.agents[j]));
    }
    if changed {
      FoldIsQuiet(links, after, i);
      var w1 := World(after, w.log + [Notified(i, VALUE_CHANGED)]);
      SetSettles(links, w1, i, Wanted(links, after, i), now, failed);
    }
  }

  /** The agents that failed and have not been given a new value since. */
  function FailedAfter(w: World, op: Op, failed: set<nat>): set<nat>
    requires op.agent < |w.agents|
  {
    match op
    case SetValueOp(i, value, _) => if value == w.agents[i].value then failed else failed - {i}
    case RefreshedOp(i, changed, _) => if changed then failed - {i} else failed
    case FailOp(i, _, _) => failed + {i}
  }

  function FailedAfterRun(links: seq<Link>, w: World, ops: seq<Op>, failed: set<nat>): set<nat>
    requires Fits(links, w.agents) && forall k :: 0 <= k < |ops| ==> OpFits(links, ops[k])
    decreases |ops|
  {
    if ops == [] then failed
    else FailedAfterRun(links, Step(links, w, ops[0]), ops[1..], FailedAfter(w, ops[0], failed))
  }

  /** A step keeps the tree settled; only a failure leaves an agent that is not exact. */
  lemma {:induction false} StepSettles(links: seq<Link>, w: World, op: Op, failed: set<nat>)
    requires Fits(links, w.agents) && OpFits(links, op) && Quiet(w.agents)
    requires SettledBut(links, w.agents, failed, -1)
    ensures Quiet(Step(links, w, op).agents)
    ensures SettledBut(links, Step(links, w, op).agents, FailedAfter(w, op, failed), -1)
  {
    match op
    case SetValueOp(i, value, now) =>
      if value == w.agents[i].value {
        UpdatedSettles(links, w, i, false, now, failed);
      } else {
        TouchSettles(links, w.agents, i, w.agents[i].(value := value), failed);
        var w1 := w.(agents := w.agents[i := w.agents[i].(value := value)]);
        OthersSettled(links, w1.agents, failed, failed - {i}, i);
        UpdatedSettles(links, w1, i, true, now, failed - {i});
      }
    case RefreshedOp(i, changed, now) =>
      if changed {
        OthersSettled(links, w.agents, failed, failed - {i}, i);
        UpdatedSettles(links, w, i, true, now, failed - {i});
      } else {
        UpdatedSettles(links, w, i, false, now, failed);
      }
    case FailOp(i, error, now) =>
      var a := w.agents[i];
      var a1 := if a.failDelay > 0 then a.(next := now + a.failDelay) else a;
      TouchSettles(links, w.agents, i, a1, failed);
      OthersSettled(links, w.agents[i := a1], failed, failed + {i}, i);
      SetSettles(links, w.(agents := w.agents[i := a1]), i, error, now, failed + {i});
  }

  lemma {:induction false} OthersSettled(links: seq<Link>, agents: seq<Agent>, failed: set<nat>, failed': set<nat>, i: nat)
    requires Fits(links, agents) && SettledBut(links, agents, failed, i)
    requires forall j: nat :: j != i ==> (j in failed <==> j in failed')
    ensures SettledBut(links, agents, failed', i)
  {
    forall j | 0 <= j < |links| && j != i ensures Settled(links, agents, failed', j) {
      assert Settled(links, agents, failed, j);
    }
  }

  lemma {:induction false} RunSettles(links: seq<Link>, w: World, ops: seq<Op>, failed: set<nat>)
    requires Fits(links, w.agents) && Quiet(w.agents)
    requires forall k :: 0 <= k < |ops| ==> OpFits(links, ops[k])
    requires SettledBut(links, w.agents, failed, -1)
    ensures Quiet(Run(links, w, ops).agents)
    ensures SettledBut(links, Run(links, w, ops).agents, FailedAfterRun(links, w, ops, failed), -1)
    decreases |ops|
  {
    if ops != [] {
      StepSettles(links, w, ops[0], failed);
      RunSettles(links, Step(links, w, ops[0]), ops[1..], FailedAfter(w, ops[0], failed));
    }
  }

  lemma {:induction false} NoFailuresNoneFailed(links: seq<Link>, w: World, ops: seq<Op>)
    requires Fits(links, w.agents)
    requires forall k :: 0 <= k < |ops| ==> OpFits(links, ops[k]) && !ops[k].FailOp?
    ensures FailedAfterRun(links, w, ops, {}) == {}
    decreases |ops|
  {
    if ops != [] {
      assert FailedAfter(w, ops[0], {}) == {};
      NoFailuresNoneFailed(links, Step(links, w, ops[0]), ops[1..]);
    }
  }

  // ----- start

  /** The start of agent `i`, or of its children from the `k`-th on. */
  function Started(links: seq<Link>, w: World, i: nat, k: nat, now: int, whole: bool): (r: World)
    requires Fits(links, w.agents) && i < |links| && k <= |links[i].children|
    ensures |r.agents| == |w.agents|
  {
    if whole then StartAt(links, w, i, now) else StartFrom(links, w, i, k, now)
  }

  /** Starting a subtree changes nothing outside it and no own state. */
  lemma {:induction false} StartFrame(links: seq<Link>, w: World, i: nat, k: nat, now: int, whole: bool)
    requires Fits(links, w.agents) && i < |links| && k <= |links[i].children| && Quiet(w.agents)
    ensures var r := Started(links, w, i, k, now, whole);
      && Quiet(r.agents)
      && (forall x :: 0 <= x < |links| ==> Own(r.agents[x]) == Own(w.agents[x]))
      && (forall x :: 0 <= x < |links| && !(whole && x == i) && !Under(links, i, if whole then 0 else k, x) ==>
            r.agents[x] == w.agents[x])
    decreases |links| - i, if whole then |links[i].children| + 1 else |links[i].children| - k
  {
    if whole {
      StartFrame(links, w, i, 0, now, false);
      var w1 := StartFrom(links, w, i, 0, now);
      FoldIsQuiet(links, w1.agents, i);
      var r := StartAt(links, w, i, now);
      forall x | 0 <= x < |links| ensures QuietAgent(r.agents[x]) {
        assert QuietAgent(w1.agents[x]);
      }
    } else if k < |links[i].children| {
      ChildIsBelow(links, i, k);
      var c := links[i].children[k];
      StartFrame(links, w, c, 0, now, true);
      var w1 := StartAt(links, w, c, now);
      StartFrame(links, w1, i, k + 1, now, false);
      forall x | 0 <= x < |links| && !Under(links, i, k, x)
        ensures StartFrom(links, w, i, k, now).agents[x] == w.agents[x]
      {
        UnderStep(links, i, k, x);
        UnderIsBelow(links, c, x);
      }
    }
  }

  /** Starting a subtree makes every agent in it exact. */
  lemma {:induction false} StartSettlesBelow(links: seq<Link>, w: World, i: nat, k: nat, now: int, whole: bool)
    requires Fits(links, w.agents) && i < |links| && k <= |links[i].children| && Quiet(w.agents)
    requires whole ==> k == 0
    ensures var r := Started(links, w, i, k, now, whole);
      forall x :: 0 <= x < |links| && ((whole && x == i) || Under(links, i, k, x)) ==>
        Exact(links, r.agents, x)
    decreases |links| - i, if whole then |links[i].children| + 1 else |links[i].children| - k
  {
    if whole {
      StartSettlesBelow(links, w, i, 0, now, false);
      StartFrame(links, w, i, 0, now, false);
      var w1 := StartFrom(links, w, i, 0, now);
      FoldIsQuiet(links, w1.agents, i);
      var r := StartAt(links, w, i, now);
      assert LinkedAt(links, i);
      forall x | 0 <= x < |links| && (x == i || Under(links, i, 0, x))
        ensures Exact(links, r.agents, x)
      {
        if x != i {
          UnderIsBelow(links, i, x);
          BelowIsLater(links, i, x);
        }
        ExactFrame(links, w1.agents, r.agents, i, x);
      }
    } else if k < |links[i].children| {
      ChildIsBelow(links, i, k);
      var c := links[i].children[k];
      StartFrame(links, w, c, 0, now, true);
      StartSettlesBelow(links, w, c, 0, now, true);
      var w1 := StartAt(links, w, c, now);
      StartSettlesBelow(links, w1, i, k + 1, now, false);
      StartFrame(links, w1, i, k + 1, now, false);
      var r := StartFrom(links, w, i, k, now);
      forall x | 0 <= x < |links| && Under(links, i, k, x) ensures Exact(links, r.agents, x) {
        UnderStep(links, i, k, x);
        if !Under(links, i, k + 1, x) {
          UnderIsBelow(links, c, x);
          assert LinkedAt(links, x);
          forall m | 0 <= m < |links[x].children|
            ensures w1.agents[links[x].children[m]].selected == r.agents[links[x].children[m]].selected
          {
            ChildIsBelow(links, x, m);
            var y := links[x].children[m];
            if x != c { BelowTransitive(links, c, x, y); }
            UnderStep(links, i, k, y);
          }
          FoldFrame(w1.agents, r.agents, links[x].children, Own(w1.agents[x]));
        }
      }
    }
  }

  // ----- main results

  /** Selecting the aggregate of the children's selections everywhere is the
      same thing as selecting the recomputation everywhere. */
  lemma {:induction false} ExactIsRecompute(links: seq<Link>, agents: seq<Agent>)
    requires Fits(links, agents)
    ensures AllExact(links, agents) <==>
      forall i :: 0 <= i < |links| ==> agents[i].selected == Recompute(links, agents, i)
  {
    if AllExact(links, agents) {
      forall i | 0 <= i < |links| ensures agents[i].selected == Recompute(links, agents, i) {
        ExactRecomputes(links, agents, i);
      }
    }
    if forall i :: 0 <= i < |links| ==> agents[i].selected == Recompute(links, agents, i) {
      forall i | 0 <= i < |links| ensures Exact(links, agents, i) {
        assert agents[i].selected == Recompute(links, agents, i);
        assert LinkedAt(links, i);
        assert links[i].children[0..] == links[i].children;
        FoldRecomputes(links, agents, i, 0, Own(agents[i]));
      }
    }
  }

  lemma {:induction false} ExactRecomputes(links: seq<Link>, agents: seq<Agent>, i: nat)
    requires Fits(links, agents) && i < |links| && AllExact(links, agents)
    ensures agents[i].selected == Recompute(links, agents, i)
    decreases |links| - i
  {
    assert Exact(links, agents, i);
    assert LinkedAt(links, i);
    forall k | 0 <= k < |links[i].children|
      ensures agents[links[i].children[k]].selected == Recompute(links, agents, links[i].children[k])
    {
      ExactRecomputes(links, agents, links[i].children[k]);
    }
    assert links[i].children[0..] == links[i].children;
    FoldRecomputes(links, agents, i, 0, Own(agents[i]));
  }

  lemma {:induction false} FoldRecomputes(links: seq<Link>, agents: seq<Agent>, i: nat, k: nat, acc: State)
    requires Fits(links, agents) && i < |links| && k <= |links[i].children|
    requires LinkedAt(links, i)
    requires forall m :: 0 <= m < |links[i].children| ==>
      agents[links[i].children[m]].selected == Recompute(links, agents, links[i].children[m])
    ensures Fold(agents, links[i].children[k..], acc) == RecomputeFrom(links, agents, i, k, acc)
    decreases |links[i].children| - k
  {
    if k < |links[i].children| {
      var s := agents[links[i].children[k]].selected;
      assert links[i].children[k..][1..] == links[i].children[k + 1..];
      FoldRecomputes(links, agents, i, k + 1, if s.level > acc.level then s else acc);
    }
  }

  /** After `start` and any sequence of value updates, every agent selects the
      full bottom-up recomputation of its subtree. */
  lemma {:induction false} UpdatesKeepTheRecomputation(links: seq<Link>, w: World, now: int, ops: seq<Op>)
    requires Fits(links, w.agents) && Quiet(w.agents)
    requires forall k :: 0 <= k < |ops| ==> OpFits(links, ops[k]) && !ops[k].FailOp?
    ensures var r := Run(links, StartAt(links, w, 0, now), ops).agents;
      forall i :: 0 <= i < |links| ==> r[i].selected == Recompute(links, r, i)
  {
    StartSettles(links, w, now);
    var started := StartAt(links, w, 0, now);
    RunSettles(links, started, ops, {});
    NoFailuresNoneFailed(links, started, ops);
    var r := Run(links, started, ops).agents;
    forall i | 0 <= i < |links| ensures Exact(links, r, i) {
      assert Settled(links, r, {}, i);
    }
    ExactIsRecompute(links, r);
  }

  /** With failures in the mix, every agent that has not failed since it was
      last given a new value still selects what its value and its children call
      for; a failure is forgotten by the next change of the agent's value. */
  lemma {:induction false} FailuresStayLocal(links: seq<Link>, w: World, now: int, ops: seq<Op>, i: nat)
    requires Fits(links, w.agents) && Quiet(w.agents) && i < |links|
    requires forall k :: 0 <= k < |ops| ==> OpFits(links, ops[k])
    requires i !in FailedAfterRun(links, StartAt(links, w, 0, now), ops, {})
    ensures Exact(links, Run(links, StartAt(links, w, 0, now), ops).agents, i)
  {
    StartSettles(links, w, now);
    var started := StartAt(links, w, 0, now);
    RunSettles(links, started, ops, {});
    assert Settled(links, Run(links, started, ops).agents, FailedAfterRun(links, started, ops, {}), i);
  }

  lemma {:induction false} StartSettles(links: seq<Link>, w: World, now: int)
    requires Fits(links, w.agents) && Quiet(w.agents)
    ensures Quiet(StartAt(links, w, 0, now).agents)
    ensures AllExact(links, StartAt(links, w, 0, now).agents)
    ensures SettledBut(links, StartAt(links, w, 0, now).agents, {}, -1)
  {
    StartFrame(links, w, 0, 0, now, true);
    StartSettlesBelow(links, w, 0, 0, now, true);
    var r := Started(links, w, 0, 0, now, true).agents;
    forall x | 0 <= x < |links| ensures Exact(links, r, x) {
      if x > 0 {
        AllBelowRoot(links, x);
        UnderIsBelow(links, 0, x);
        assert Under(links, 0, 0, x);
      }
      assert x == 0 || Under(links, 0, 0, x);
    }
  }

  /** What the recomputation means: the worst own state of the subtree, taken
      from one of its agents. */
  lemma {:induction false} SelectedIsWorstBelow(links: seq<Link>, agents: seq<Agent>, i: nat)
    requires Fits(links, agents) && i < |links| && AllExact(links, agents)
    ensures forall x: nat :: x == i || Below(links, i, x) ==> Own(agents[x]).level <= agents[i].selected.level
    ensures exists x: nat :: (x == i || Below(links, i, x)) && x < |links| && Own(agents[x]) == agents[i].selected
    decreases |links| - i
  {
    assert Exact(links, agents, i);
    assert LinkedAt(links, i);
    FoldIsWorst(agents, links[i].children, Own(agents[i]));
    forall x: nat | Below(links, i, x) ensures Own(agents[x]).level <= agents[i].selected.level {
      var k := BelowGoesThroughChild(links, i, x);
      SelectedIsWorstBelow(links, agents, links[i].children[k]);
    }
    if agents[i].selected != Own(agents[i]) {
      var k :| 0 <= k < |links[i].children| && agents[i].selected == agents[links[i].children[k]].selected;
      var c := links[i].children[k];
      SelectedIsWorstBelow(links, agents, c);
      var x: nat :| (x == c || Below(links, c, x)) && x < |links| && Own(agents[x]) == agents[c].selected;
      ChildIsBelow(links, i, k);
      if x != c { BelowTransitive(links, i, c, x); }
    }
  }

  /** With failures in the mix a parent is still never better than a child, so
      the level of every agent bounds its whole subtree. */
  lemma {:induction false} FailuresKeepLevelsOrdered(links: seq<Link>, w: World, now: int, ops: seq<Op>)
    requires Fits(links, w.agents) && Quiet(w.agents)
    requires forall k :: 0 <= k < |ops| ==> OpFits(links, ops[k])
    ensures var r := Run(links, StartAt(links, w, 0, now), ops).agents;
      forall a: nat, x: nat :: a < |links| && Below(links, a, x) ==> r[x].selected.level <= r[a].selected.level
  {
    StartSettles(links, w, now);
    var started := StartAt(links, w, 0, now);
    RunSettles(links, started, ops, {});
    var r := Run(links, started, ops).agents;
    forall a: nat, x: nat | a < |links| && Below(links, a, x)
      ensures r[x].selected.level <= r[a].selected.level
    {
      LevelsOrdered(links, r, FailedAfterRun(links, started, ops, {}), a, x);
    }
  }

  lemma {:induction false} LevelsOrdered(links: seq<Link>, agents: seq<Agent>, failed: set<nat>, a: nat, x: nat)
    requires Fits(links, agents) && SettledBut(links, agents, failed, -1) && Below(links, a, x) && a < |links|
    ensures agents[x].selected.level <= agents[a].selected.level
    decreases x
  {
    assert LinkedAt(links, x);
    var p := links[x].parent.value;
    assert LinkedAt(links, p);
    FoldIsWorst(agents, links[p].children, Own(agents[p]));
    assert Settled(links, agents, failed, p);
    if p != a {
      LevelsOrdered(links, agents, failed, a, p);
    }
  }
}
