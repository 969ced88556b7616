/** The scheduler under every interleaving of controller passes, worker tasks
    and on-demand checks.

    Each action is one step that no other thread can observe halfway: a section
    under the one static mutex, or a move of a task in the pool. The mutex is
    recursive and an on-demand check keeps it across the refreshes it makes, so
    while `demand` is not empty every other guarded section has to wait.

    A refresh ends in a state change, which may forward a state, release one, or
    be a failure, and so writes the clocks of any agents in the tree: `written`
    says which, without any restriction. */
module Scheduler {
  import opened Tree
  import opened SchedulerPass

  /** A pass of the controller: the agents it has marked wait to be pushed. */
  datatype PassState =
    | Waiting
    | Entered
    | Pushing(list: seq<nat>)
    | Finished

  /** An agent being checked on demand; `refreshing` while its refresh runs. */
  datatype Frame = Frame(agent: nat, forward: bool, onDemand: bool, refreshing: bool, child: nat)

  datatype System = System(
    slots: seq<Slot>,
    updating: int,
    passes: seq<PassState>,
    queued: multiset<nat>,
    refreshing: multiset<nat>,
    clearing: multiset<nat>,
    demand: seq<Frame>)

  datatype Action =
    | TimerFires
    | EnterPass(pass: nat, now: int)
    | MarkDue(pass: nat, now: int)
    | PushNext(pass: nat)
    | LeavePass(pass: nat)
    | BeginTask(agent: nat)
    | EndRefresh(agent: nat, written: seq<Clock>)
    | ClearRunning(agent: nat)
    | CheckOnDemand(agent: nat, forward: bool, now: int)
    | EndDemandRefresh(written: seq<Clock>)
    | DescendDemand(now: int)
    | ReturnDemand
    | ChangeState(written: seq<Clock>)

  // ----- the transition system

  ghost predicate Enabled(links: seq<Link>, s: System, act: Action) {
    match act
    case TimerFires => true
    case EnterPass(p, now) => s.demand == [] && now > 0 && p < |s.passes| && s.passes[p].Waiting?
    case MarkDue(p, now) => s.demand == [] && now > 0 && p < |s.passes| && s.passes[p].Entered?
    case PushNext(p) => p < |s.passes| && s.passes[p].Pushing? && s.passes[p].list != []
    case LeavePass(p) => s.demand == [] && p < |s.passes| && s.passes[p].Pushing? && s.passes[p].list == []
    case BeginTask(a) => a in s.queued
    case EndRefresh(a, _) => a in s.refreshing
    case ClearRunning(a) => s.demand == [] && a in s.clearing && a < |s.slots|
    case CheckOnDemand(a, _, now) => s.demand == [] && a < |s.slots| && now > 0
    case EndDemandRefresh(_) => s.demand != [] && Top(s).refreshing
    case DescendDemand(now) =>
      && s.demand != [] && !Top(s).refreshing && Top(s).forward && now > 0
      && Top(s).agent < |links| && Top(s).child < |links[Top(s).agent].children|
      && links[Top(s).agent].children[Top(s).child] < |s.slots|
    case ReturnDemand =>
      && s.demand != [] && !Top(s).refreshing && Top(s).agent < |s.slots| && Top(s).agent < |links|
      && (Top(s).forward ==> Top(s).child >= |links[Top(s).agent].children|)
    case ChangeState(_) => true
  }

  function Top(s: System): Frame
    requires s.demand != []
  {
    s.demand[|s.demand| - 1]
  }

  /** Entry of `chk4refresh`: nothing happens to an agent that is running. */
  function Demanded(s: System, a: nat, forward: bool, now: int): System
    requires a < |s.slots|
  {
    if s.slots[a].running != 0 then s
    else
      var od := s.slots[a].onDemand;
      s.(demand := s.demand + [Frame(a, forward, od, od, 0)],
         slots := if od then s.slots[a := s.slots[a].(running := now)] else s.slots)
  }

  ghost function Next(links: seq<Link>, s: System, act: Action): System
    requires Fits(links, s.slots) && Enabled(links, s, act)
  {
    match act
    case TimerFires => s.(passes := s.passes + [Waiting])
    case EnterPass(p, now) =>
      if s.updating != 0 then s.(passes := s.passes[p := Finished])
      else s.(updating := now, passes := s.passes[p := Entered])
    case MarkDue(p, now) =>
      s.(slots := Pass(links, s.slots, now), passes := s.passes[p := Pushing(Queue(links, s.slots, now))])
    case PushNext(p) =>
      var list := s.passes[p].list;
      s.(queued := s.queued + multiset{list[0]}, passes := s.passes[p := Pushing(list[1..])])
    case LeavePass(p) => s.(updating := 0, passes := s.passes[p := Finished])
    case BeginTask(a) => s.(queued := s.queued - multiset{a}, refreshing := s.refreshing + multiset{a})
    case EndRefresh(a, written) =>
      s.(refreshing := s.refreshing - multiset{a}, clearing := s.clearing + multiset{a},
         slots := Rewritten(s.slots, written))
    case ClearRunning(a) =>
      s.(clearing := s.clearing - multiset{a}, slots := s.slots[a := s.slots[a].(running := 0)])
    case CheckOnDemand(a, forward, now) => Demanded(s, a, forward, now)
    case EndDemandRefresh(written) =>
      s.(demand := s.demand[|s.demand| - 1 := Top(s).(refreshing := false)], slots := Rewritten(s.slots, written))
    case DescendDemand(now) =>
      var c := links[Top(s).agent].children[Top(s).child];
      Demanded(s.(demand := s.demand[|s.demand| - 1 := Top(s).(child := Top(s).child + 1)]), c, true, now)
    case ReturnDemand =>
      var a := Top(s).agent;
      s.(demand := s.demand[..|s.demand| - 1], slots := s.slots[a := s.slots[a].(running := 0)])
    case ChangeState(written) => s.(slots := Rewritten(s.slots, written))
  }

  ghost predicate Start(links: seq<Link>, s: System) {
    && Fits(links, s.slots)
    && (forall a :: 0 <= a < |s.slots| ==> s.slots[a].running == 0)
    && s.updating == 0 && s.passes == [] && s.demand == []
    && s.queued == s.refreshing == s.clearing == multiset{}
  }

  /** `s'` can be reached from `s` by these actions. */
  ghost predicate Leads(links: seq<Link>, s: System, acts: seq<Action>, s': System)
    decreases |acts|
  {
    if acts == [] then s' == s
    else
      && Fits(links, s.slots) && Enabled(links, s, acts[0])
      && Leads(links, Next(links, s, acts[0]), acts[1..], s')
  }

  // ----- counting tasks

  function MarksIn(p: PassState, a: nat): nat {
    if p.Pushing? then multiset(p.list)[a] else 0
  }

  function MarksOf(passes: seq<PassState>, a: nat): nat {
    if passes == [] then 0 else MarksOf(passes[..|passes| - 1], a) + MarksIn(passes[|passes| - 1], a)
  }

  /** The on-demand refreshes of `a`, from the mark to the clearing. */
  function DemandOf(demand: seq<Frame>, a: nat): nat {
    if demand == [] then 0
    else
      var f := demand[|demand| - 1];
      DemandOf(demand[..|demand| - 1], a) + (if f.onDemand && f.agent == a then 1 else 0)
  }

  /** Tasks of `a` in the pool: marked, queued, refreshing, or about to clear. */
  function TasksOf(s: System, a: nat): nat {
    MarksOf(s.passes, a) + s.queued[a] + s.refreshing[a] + s.clearing[a]
  }

  predicate Active(p: PassState) {
    p.Entered? || p.Pushing?
  }

  function ActivePasses(passes: seq<PassState>): nat {
    if passes == [] then 0
    else ActivePasses(passes[..|passes| - 1]) + (if Active(passes[|passes| - 1]) then 1 else 0)
  }

  // ----- the invariant

  /** `running` counts the tasks and on-demand refreshes of the agent. */
  ghost predicate Counted(s: System, a: nat) {
    TasksOf(s, a) + DemandOf(s.demand, a) == if a < |s.slots| && s.slots[a].running != 0 then 1 else 0
  }

  /** Frames are pushed from parent to child. */
  ghost predicate FramesOrdered(demand: seq<Frame>) {
    forall k, m :: 0 <= k < m < |demand| ==> demand[k].agent < demand[m].agent
  }

  predicate FrameFits(slots: seq<Slot>, f: Frame) {
    && f.agent < |slots|
    && (f.refreshing ==> f.onDemand)
    && (!f.onDemand ==> slots[f.agent].running == 0)
  }

  ghost predicate FramesFit(slots: seq<Slot>, demand: seq<Frame>) {
    && FramesOrdered(demand)
    && forall k :: 0 <= k < |demand| ==> FrameFits(slots, demand[k])
  }

  /** At most one pass is past the gate, and `updating` says whether one is. */
  ghost predicate Gated(s: System) {
    ActivePasses(s.passes) == if s.updating != 0 then 1 else 0
  }

  ghost predicate Inv(links: seq<Link>, s: System) {
    && Fits(links, s.slots)
    && (forall a: nat :: Counted(s, a))
    && Gated(s)
    && FramesFit(s.slots, s.demand)
  }

  // ----- main results

  /** Refreshes of `a` that are running now, in the pool and on demand. */
  function InFlight(s: System, a: nat): nat {
    s.refreshing[a] + DemandRefreshing(s.demand, a)
  }

  function DemandRefreshing(demand: seq<Frame>, a: nat): nat {
    if demand == [] then 0
    else
      var f := demand[|demand| - 1];
      DemandRefreshing(demand[..|demand| - 1], a) + (if f.refreshing && f.agent == a then 1 else 0)
  }

  function Unpushed(passes: seq<PassState>): nat {
    if passes == [] then 0
    else
      var p := passes[|passes| - 1];
      Unpushed(passes[..|passes| - 1]) + (if p.Pushing? then |p.list| else 0)
  }

  /** Steps left until every task has cleared its agent. */
  function Work(s: System): nat {
    4 * Unpushed(s.passes) + 3 * |s.queued| + 2 * |s.refreshing| + |s.clearing|
  }

  /** The steps of tasks, from the push to the clearing. */
  predicate Advances(act: Action) {
    act.PushNext? || act.BeginTask? || act.EndRefresh? || act.ClearRunning?
  }

  ghost predicate OnlyTaskSteps(acts: seq<Action>) {
    forall k :: 0 <= k < |acts| ==> Advances(acts[k])
  }

  ghost predicate NoTaskStepLeft(links: seq<Link>, s: System) {
    forall act :: Advances(act) ==> !Enabled(links, s, act)
  }

  /** No agent ever has two refreshes in flight, and no two passes run at once. */
  lemma {:induction false} AtMostOneRefresh(links: seq<Link>, s: System, acts: seq<Action>, s': System, a: nat)
    requires Start(links, s) && Leads(links, s, acts, s')
    ensures InFlight(s', a) <= 1
    ensures ActivePasses(s'.passes) <= 1
  {
    ReachableInv(links, s, acts, s');
    forall k | 0 <= k < |s'.demand| ensures s'.demand[k].refreshing ==> s'.demand[k].onDemand {
      assert FrameFits(s'.slots, s'.demand[k]);
    }
    DemandRefreshingIsCounted(s'.demand, a);
    assert Counted(s', a);
  }

  /** Outside an on-demand check `running` is nonzero exactly for the agents
      with a task, and each of those has exactly one. */
  lemma {:induction false} RunningMeansOneTask(links: seq<Link>, s: System, acts: seq<Action>, s': System, a: nat)
    requires Start(links, s) && Leads(links, s, acts, s') && s'.demand == [] && a < |s'.slots|
    ensures TasksOf(s', a) == if s'.slots[a].running != 0 then 1 else 0
  {
    ReachableInv(links, s, acts, s');
    assert Counted(s', a);
  }

  /** Every task step brings the pool closer to its end, whatever the refresh
      returned or threw, and the last step of a task clears its agent. */
  lemma {:induction false} TasksDrain(links: seq<Link>, s: System, act: Action)
    requires Fits(links, s.slots) && Enabled(links, s, act) && Advances(act)
    ensures Work(Next(links, s, act)) < Work(s)
    ensures act.ClearRunning? ==> Next(links, s, act).slots[act.agent].running == 0
  {
    if act.PushNext? {
      UnpushedChange(s.passes, act.pass);
    }
  }

  lemma {:induction false} StepKeeps(links: seq<Link>, s: System, act: Action)
    requires Inv(links, s) && Enabled(links, s, act)
    ensures Inv(links, Next(links, s, act))
  {
    match act
    case TimerFires => TimerKeeps(links, s);
    case EnterPass(p, now) =>
      PassMoves(links, s, p, if s.updating != 0 then Finished else Entered, Next(links, s, act));
    case MarkDue(p, now) => MarkDueKeeps(links, s, p, now);
    case PushNext(p) => PushNextKeeps(links, s, p);
    case LeavePass(p) =>
      AnActivePassIsCounted(s.passes, p);
      PassMoves(links, s, p, Finished, Next(links, s, act));
    case BeginTask(a) => BeginTaskKeeps(links, s, a);
    case EndRefresh(a, written) => EndRefreshKeeps(links, s, a, written);
    case ClearRunning(a) => ClearRunningKeeps(links, s, a);
    case CheckOnDemand(a, forward, now) => DemandedKeeps(links, s, a, forward, now);
    case EndDemandRefresh(_) =>
      TopMoves(links, s, Top(s).(refreshing := false), Next(links, s, act).slots);
    case DescendDemand(now) => DescendKeeps(links, s, now);
    case ReturnDemand => ReturnKeeps(links, s);
    case ChangeState(written) => ChangeStateKeeps(links, s, written);
  }

  lemma {:induction false} ReachableInv(links: seq<Link>, s: System, acts: seq<Action>, s': System)
    requires Start(links, s) && Leads(links, s, acts, s')
    ensures Inv(links, s')
  {
    forall a: nat ensures Counted(s, a) {}
    RunKeeps(links, s, acts, s');
  }

  /** Outside an on-demand check a running agent always has a task step that can
      be taken. */
  lemma {:induction false} NeverStuck(links: seq<Link>, s: System, a: nat) returns (act: Action)
    requires Inv(links, s) && s.demand == [] && a < |s.slots| && s.slots[a].running != 0
    ensures Enabled(links, s, act) && Advances(act)
    ensures act.PushNext? || act.agent == a
  {
    assert Counted(s, a);
    if a in s.queued {
      act := BeginTask(a);
    } else if a in s.refreshing {
      act := EndRefresh(a, []);
    } else if a in s.clearing {
      act := ClearRunning(a);
    } else {
      var p := PassWithMark(s.passes, a);
      act := PushNext(p);
    }
  }

  /** Whatever order they are taken in, task steps come to an end, and there is
      none left exactly when no agent is running. */
  lemma {:induction false} DrainingEndsIdle(links: seq<Link>, s: System, more: seq<Action>, end: System)
    requires Inv(links, s) && s.demand == [] && Leads(links, s, more, end) && OnlyTaskSteps(more)
    ensures |more| <= Work(s)
    ensures NoTaskStepLeft(links, end) <==> forall a :: 0 <= a < |end.slots| ==> end.slots[a].running == 0
  {
    DrainingKeeps(links, s, more, end);
    if NoTaskStepLeft(links, end) {
      forall a | 0 <= a < |end.slots| ensures end.slots[a].running == 0 {
        if end.slots[a].running != 0 {
          var act := NeverStuck(links, end, a);
        }
      }
    }
    if forall a :: 0 <= a < |end.slots| ==> end.slots[a].running == 0 {
      forall act | Advances(act) ensures !Enabled(links, end, act) {
        NoTaskNoStep(links, end, act);
      }
    }
  }

  /** From every reachable configuration without an on-demand check some task
      steps end with no agent running, whatever each refresh writes. */
  lemma {:induction false} PoolCanDrain(links: seq<Link>, s: System, acts: seq<Action>, s': System, written: seq<Clock>)
    returns (more: seq<Action>, end: System)
    requires Start(links, s) && Leads(links, s, acts, s') && s'.demand == []
    ensures Leads(links, s', more, end) && |more| <= Work(s')
    ensures forall k :: 0 <= k < |more| ==> Advances(more[k]) && (more[k].EndRefresh? ==> more[k].written == written)
    ensures forall a :: 0 <= a < |end.slots| ==> end.slots[a].running == 0
  {
    ReachableInv(links, s, acts, s');
    more, end := Drained(links, s', written);
  }

  // ----- one step

  lemma {:induction false} MarksChange(passes: seq<PassState>, p: nat, q: PassState, a: nat)
    requires p < |passes|
    ensures MarksOf(passes[p := q], a) + MarksIn(passes[p], a) == MarksOf(passes, a) + MarksIn(q, a)
    decreases |passes|
  {
    var n := |passes| - 1;
    if p == n {
      assert passes[p := q][..n] == passes[..n];
    } else {
      assert passes[p := q][..n] == passes[..n][p := q];
      MarksChange(passes[..n], p, q, a);
    }
  }

  lemma {:induction false} ActiveChange(passes: seq<PassState>, p: nat, q: PassState)
    requires p < |passes|
    ensures ActivePasses(passes[p := q]) + (if Active(passes[p]) then 1 else 0)
      == ActivePasses(passes) + (if Active(q) then 1 else 0)
    decreases |passes|
  {
    var n := |passes| - 1;
    if p == n {
      assert passes[p := q][..n] == passes[..n];
    } else {
      assert passes[p := q][..n] == passes[..n][p := q];
      ActiveChange(passes[..n], p, q);
    }
  }

  lemma {:induction false} QueueCounts(links: seq<Link>, slots: seq<Slot>, now: int, a: nat)
    requires Fits(links, slots) && now > 0
    ensures multiset(Queue(links, slots, now))[a] ==
      if a < |slots| && slots[a].running == 0 && Pass(links, slots, now)[a].running != 0 then 1 else 0
    ensures a < |slots| && slots[a].running != 0 ==> Pass(links, slots, now)[a].running == slots[a].running
  {
    QueueIsExact(links, slots, now);
    assert a in multiset(Queue(links, slots, now)) <==> a in Queue(links, slots, now);
    if 0 < a < |links| { AllBelowRoot(links, a); }
    if Below(links, 0, a) { BelowIsLater(links, 0, a); }
  }

  lemma {:induction false} PassMoves(links: seq<Link>, s: System, p: nat, q: PassState, r: System)
    requires Inv(links, s) && p < |s.passes| && s.demand == []
    requires r == s.(passes := s.passes[p := q], updating := r.updating)
    requires forall a: nat :: MarksIn(s.passes[p], a) == MarksIn(q, a)
    requires (if r.updating != 0 then 1 else 0) + (if Active(s.passes[p]) then 1 else 0)
      == (if s.updating != 0 then 1 else 0) + (if Active(q) then 1 else 0)
    ensures Inv(links, r)
  {
    ActiveChange(s.passes, p, q);
    forall a: nat ensures Counted(r, a) {
      assert Counted(s, a);
      MarksChange(s.passes, p, q, a);
    }
  }

  lemma {:induction false} MarkDueKeeps(links: seq<Link>, s: System, p: nat, now: int)
    requires Inv(links, s) && Enabled(links, s, MarkDue(p, now))
    ensures Inv(links, Next(links, s, MarkDue(p, now)))
  {
    var r := Next(links, s, MarkDue(p, now));
    var q := Pushing(Queue(links, s.slots, now));
    ActiveChange(s.passes, p, q);
    forall a: nat ensures Counted(r, a) {
      assert Counted(s, a);
      MarksChange(s.passes, p, q, a);
      QueueCounts(links, s.slots, now, a);
    }
  }

  lemma {:induction false} PushNextKeeps(links: seq<Link>, s: System, p: nat)
    requires Inv(links, s) && Enabled(links, s, PushNext(p))
    ensures Inv(links, Next(links, s, PushNext(p)))
  {
    var r := Next(links, s, PushNext(p));
    var list := s.passes[p].list;
    ActiveChange(s.passes, p, Pushing(list[1..]));
    assert list == [list[0]] + list[1..];
    forall a: nat ensures Counted(r, a) {
      assert Counted(s, a);
      MarksChange(s.passes, p, Pushing(list[1..]), a);
      assert multiset(list)[a] == multiset{list[0]}[a] + multiset(list[1..])[a];
    }
  }

  lemma {:induction false} BeginTaskKeeps(links: seq<Link>, s: System, a: nat)
    requires Inv(links, s) && Enabled(links, s, BeginTask(a))
    ensures Inv(links, Next(links, s, BeginTask(a)))
  {
    var r := Next(links, s, BeginTask(a));
    forall x: nat ensures Counted(r, x) {
      assert Counted(s, x);
    }
  }

  lemma {:induction false} EndRefreshKeeps(links: seq<Link>, s: System, a: nat, written: seq<Clock>)
    requires Inv(links, s) && Enabled(links, s, EndRefresh(a, written))
    ensures Inv(links, Next(links, s, EndRefresh(a, written)))
  {
    var r := Next(links, s, EndRefresh(a, written));
    forall x: nat ensures Counted(r, x) {
      assert Counted(s, x);
    }
    forall k | 0 <= k < |r.demand| ensures FrameFits(r.slots, r.demand[k]) {
      assert FrameFits(s.slots, s.demand[k]);
    }
  }

  lemma {:induction false} ClearRunningKeeps(links: seq<Link>, s: System, a: nat)
    requires Inv(links, s) && Enabled(links, s, ClearRunning(a))
    ensures Inv(links, Next(links, s, ClearRunning(a)))
  {
    var r := Next(links, s, ClearRunning(a));
    forall x: nat ensures Counted(r, x) {
      assert Counted(s, x);
    }
  }

  /** Entering `chk4refresh` for `a` under frames for earlier agents. */
  lemma {:induction false} DemandedKeeps(links: seq<Link>, s: System, a: nat, forward: bool, now: int)
    requires Inv(links, s) && a < |s.slots| && now > 0
    requires forall k :: 0 <= k < |s.demand| ==> s.demand[k].agent < a
    ensures Inv(links, Demanded(s, a, forward, now))
  {
    var r := Demanded(s, a, forward, now);
    if s.slots[a].running == 0 {
      assert r.demand[..|s.demand|] == s.demand;
      forall x: nat ensures Counted(r, x) {
        assert Counted(s, x);
      }
      forall k | 0 <= k < |r.demand| ensures FrameFits(r.slots, r.demand[k]) {
        if k < |s.demand| { assert FrameFits(s.slots, s.demand[k]); }
      }
    }
  }

  /** Progress of the innermost frame, and a write to clock fields. */
  lemma {:induction false} TopMoves(links: seq<Link>, s: System, f: Frame, slots: seq<Slot>)
    requires Inv(links, s) && s.demand != []
    requires f.agent == Top(s).agent && f.onDemand == Top(s).onDemand && (f.refreshing ==> Top(s).refreshing)
    requires |slots| == |s.slots| && forall a :: 0 <= a < |slots| ==> slots[a].running == s.slots[a].running
    ensures Inv(links, s.(demand := s.demand[|s.demand| - 1 := f], slots := slots))
  {
    var n := |s.demand| - 1;
    var r := s.(demand := s.demand[n := f], slots := slots);
    assert r.demand[..n] == s.demand[..n];
    forall a: nat ensures Counted(r, a) {
      assert Counted(s, a);
    }
    forall k | 0 <= k < |r.demand| ensures FrameFits(r.slots, r.demand[k]) {
      assert FrameFits(s.slots, s.demand[k]);
    }
  }

  lemma {:induction false} DescendKeeps(links: seq<Link>, s: System, now: int)
    requires Inv(links, s) && Enabled(links, s, DescendDemand(now))
    ensures Inv(links, Next(links, s, DescendDemand(now)))
  {
    var f := Top(s).(child := Top(s).child + 1);
    TopMoves(links, s, f, s.slots);
    var s1 := s.(demand := s.demand[|s.demand| - 1 := f]);
    assert s1 == s.(demand := s.demand[|s.demand| - 1 := f], slots := s.slots);
    ChildIsBelow(links, f.agent, Top(s).child);
    forall k | 0 <= k < |s1.demand| ensures s1.demand[k].agent <= f.agent {
      if k < |s.demand| - 1 { assert s.demand[k].agent < s.demand[|s.demand| - 1].agent; }
    }
    DemandedKeeps(links, s1, links[f.agent].children[Top(s).child], true, now);
  }

  lemma {:induction false} ReturnKeeps(links: seq<Link>, s: System)
    requires Inv(links, s) && Enabled(links, s, ReturnDemand)
    ensures Inv(links, Next(links, s, ReturnDemand))
  {
    var r := Next(links, s, ReturnDemand);
    var n := |s.demand| - 1;
    assert FrameFits(s.slots, s.demand[n]);
    forall a: nat ensures Counted(r, a) {
      assert Counted(s, a);
    }
    forall k | 0 <= k < |r.demand| ensures FrameFits(r.slots, r.demand[k]) {
      assert FrameFits(s.slots, s.demand[k]);
    }
  }

  lemma {:induction false} ChangeStateKeeps(links: seq<Link>, s: System, written: seq<Clock>)
    requires Inv(links, s)
    ensures Inv(links, s.(slots := Rewritten(s.slots, written)))
  {
    var r := s.(slots := Rewritten(s.slots, written));
    forall a: nat ensures Counted(r, a) {
      assert Counted(s, a);
    }
    forall k | 0 <= k < |r.demand| ensures FrameFits(r.slots, r.demand[k]) {
      assert FrameFits(s.slots, s.demand[k]);
    }
  }

  lemma {:induction false} TimerKeeps(links: seq<Link>, s: System)
    requires Inv(links, s)
    ensures Inv(links, s.(passes := s.passes + [Waiting]))
  {
    var r := s.(passes := s.passes + [Waiting]);
    assert r.passes[..|s.passes|] == s.passes;
    forall a: nat ensures Counted(r, a) {
      assert Counted(s, a);
    }
  }

  lemma {:induction false} AnActivePassIsCounted(passes: seq<PassState>, p: nat)
    requires p < |passes| && Active(passes[p])
    ensures ActivePasses(passes) >= 1
    decreases |passes|
  {
    if p < |passes| - 1 {
      AnActivePassIsCounted(passes[..|passes| - 1], p);
    }
  }

  lemma {:induction false} RunKeeps(links: seq<Link>, s: System, acts: seq<Action>, s': System)
    requires Inv(links, s) && Leads(links, s, acts, s')
    ensures Inv(links, s')
    decreases |acts|
  {
    if acts != [] {
      StepKeeps(links, s, acts[0]);
      RunKeeps(links, Next(links, s, acts[0]), acts[1..], s');
    }
  }

  // ----- their proofs

  lemma {:induction false} DemandRefreshingIsCounted(demand: seq<Frame>, a: nat)
    requires forall k :: 0 <= k < |demand| ==> demand[k].refreshing ==> demand[k].onDemand
    ensures DemandRefreshing(demand, a) <= DemandOf(demand, a)
  {
    if demand != [] {
      DemandRefreshingIsCounted(demand[..|demand| - 1], a);
    }
  }

  lemma {:induction false} UnpushedChange(passes: seq<PassState>, p: nat)
    requires p < |passes| && passes[p].Pushing? && passes[p].list != []
    ensures Unpushed(passes[p := Pushing(passes[p].list[1..])]) + 1 == Unpushed(passes)
    decreases |passes|
  {
    var n, q := |passes| - 1, Pushing(passes[p].list[1..]);
    if p == n {
      assert passes[p := q][..n] == passes[..n];
    } else {
      assert passes[p := q][..n] == passes[..n][p := q];
      UnpushedChange(passes[..n], p);
    }
  }

  lemma {:induction false} PassWithMark(passes: seq<PassState>, a: nat) returns (p: nat)
    requires MarksOf(passes, a) > 0
    ensures p < |passes| && passes[p].Pushing? && a in passes[p].list
  {
    var n := |passes| - 1;
    if MarksIn(passes[n], a) > 0 {
      p := n;
      assert a in multiset(passes[n].list);
    } else {
      p := PassWithMark(passes[..n], a);
    }
  }

  lemma {:induction false} Drained(links: seq<Link>, s: System, written: seq<Clock>) returns (more: seq<Action>, end: System)
    requires Inv(links, s) && s.demand == []
    ensures Leads(links, s, more, end) && |more| <= Work(s)
    ensures forall k :: 0 <= k < |more| ==> Advances(more[k]) && (more[k].EndRefresh? ==> more[k].written == written)
    ensures forall a :: 0 <= a < |end.slots| ==> end.slots[a].running == 0
    decreases Work(s)
  {
    hide Inv, Work;
    more, end := [], s;
    if a :| 0 <= a < |s.slots| && s.slots[a].running != 0 {
      var act := NeverStuck(links, s, a);
      act := if act.EndRefresh? then act.(written := written) else act;
      var s1 := AdvanceOnce(links, s, act);
      var rest;
      rest, end := Drained(links, s1, written);
      more := [act] + rest;
      assert more[1..] == rest;
    }
  }

  lemma {:induction false} AdvanceOnce(links: seq<Link>, s: System, act: Action) returns (s1: System)
    requires Inv(links, s) && s.demand == [] && Enabled(links, s, act) && Advances(act)
    ensures Fits(links, s.slots) && s1 == Next(links, s, act)
    ensures Inv(links, s1) && s1.demand == [] && Work(s1) < Work(s)
  {
    StepKeeps(links, s, act);
    TasksDrain(links, s, act);
    s1 := Next(links, s, act);
  }

  lemma {:induction false} DrainingKeeps(links: seq<Link>, s: System, more: seq<Action>, end: System)
    requires Inv(links, s) && s.demand == []
    requires Leads(links, s, more, end) && OnlyTaskSteps(more)
    ensures |more| + Work(end) <= Work(s) && Inv(links, end) && end.demand == []
    decreases |more|
  {
    hide Inv, Work;
    if more != [] {
      var s1 := AdvanceOnce(links, s, more[0]);
      DrainingKeeps(links, s1, more[1..], end);
    }
  }

  lemma {:induction false} NoTaskNoStep(links: seq<Link>, s: System, act: Action)
    requires Inv(links, s) && Advances(act) && forall a :: 0 <= a < |s.slots| ==> s.slots[a].running == 0
    ensures !Enabled(links, s, act)
  {
    if act.PushNext? {
      if Enabled(links, s, act) {
        var a := s.passes[act.pass].list[0];
        assert Counted(s, a);
        MarksAreCounted(s.passes, act.pass, a);
      }
    } else {
      assert Counted(s, act.agent);
    }
  }

  lemma {:induction false} MarksAreCounted(passes: seq<PassState>, p: nat, a: nat)
    requires p < |passes|
    ensures MarksOf(passes, a) >= MarksIn(passes[p], a)
    decreases |passes|
  {
    if p < |passes| - 1 {
      MarksAreCounted(passes[..|passes| - 1], p, a);
    }
  }

  // ----- the on-demand check by itself

  /** The steps of the thread that checks on demand. */
  predicate Checks(act: Action) {
    act.CheckOnDemand? || act.EndDemandRefresh? || act.DescendDemand? || act.ReturnDemand?
  }

  ghost predicate OnlyChecks(acts: seq<Action>) {
    forall k :: 0 <= k < |acts| ==> Checks(acts[k])
  }

  lemma {:induction false} LeadsOn(links: seq<Link>, s: System, acts: seq<Action>, m: System, more: seq<Action>, t: System)
    requires Leads(links, s, acts, m) && Leads(links, m, more, t)
    ensures Leads(links, s, acts + more, t)
    decreases |acts|
  {
    if acts == [] {
      assert acts + more == more;
    } else {
      assert (acts + more)[1..] == acts[1..] + more;
      LeadsOn(links, Next(links, s, acts[0]), acts[1..], m, more, t);
    }
  }

  /** A step followed by a run. */
  lemma {:induction false} LeadsFirst(links: seq<Link>, s: System, act: Action, m: System, acts: seq<Action>, t: System)
    requires Fits(links, s.slots) && Enabled(links, s, act) && m == Next(links, s, act) && Leads(links, m, acts, t)
    ensures Leads(links, s, [act] + acts, t)
  {
    assert ([act] + acts)[1..] == acts;
  }

  /** The on-demand check as single steps does what `Chk4Refresh` does in one:
      it leaves the same clocks, the same running flags and nothing in progress. */
  lemma {:induction false} CheckRunsToItsEnd(links: seq<Link>, s: System, i: nat, forward: bool, now: int,
                                             refresh: (nat, seq<Clock>) -> seq<Clock>)
    returns (acts: seq<Action>, s': System)
    requires Fits(links, s.slots) && i < |links| && now > 0 && s.demand == []
    ensures Leads(links, s, [CheckOnDemand(i, forward, now)] + acts, s') && OnlyChecks(acts)
    ensures s' == s.(slots := AfterCheck(s.slots, CheckOrder(links, s.slots, i, forward), refresh))
  {
    acts, s' := DemandRuns(links, s, i, forward, now, refresh);
    LeadsFirst(links, s, CheckOnDemand(i, forward, now), Demanded(s, i, forward, now), acts, s');
  }

  function AfterCheck(slots: seq<Slot>, order: seq<nat>, refresh: (nat, seq<Clock>) -> seq<Clock>): seq<Slot> {
    Rewritten(slots, ClocksAfter(Clocks(slots), order, refresh))
  }

  lemma {:induction false} DemandRuns(links: seq<Link>, s: System, i: nat, forward: bool, now: int,
                                      refresh: (nat, seq<Clock>) -> seq<Clock>)
    returns (acts: seq<Action>, s': System)
    requires Fits(links, s.slots) && i < |links| && now > 0
    ensures Leads(links, Demanded(s, i, forward, now), acts, s') && OnlyChecks(acts)
    ensures s' == s.(slots := AfterCheck(s.slots, CheckOrder(links, s.slots, i, forward), refresh))
    decreases |links| - i, |links[i].children| + 1
  {
    hide Leads, CheckOrder, CheckFrom, Clocks, ClocksAfter, Rewritten, Enabled, Next;
    CheckOrderIs(links, s.slots, i, forward);
    if s.slots[i].running != 0 {
      NothingRefreshed(s.slots, refresh);
      acts, s' := [], s;
      LeadsNowhere(links, s);
      return;
    }
    var s0 := Demanded(s, i, forward, now);
    var s1, first := RefreshFrame(links, s, i, forward, now, refresh);
    var own: seq<nat> := if s.slots[i].onDemand then [i] else [];
    var s2, inner := s1, [];
    if forward {
      inner, s2 := DemandLoops(links, s1, 0, now, refresh);
      CheckFromFrame(links, s.slots, s1.slots, i, 0);
      ClocksAfterBoth(Clocks(s.slots), own, CheckFrom(links, s.slots, i, 0), refresh);
    } else {
      NothingRefreshed(s1.slots, refresh);
      LeadsNowhere(links, s1);
    }
    s' := ReturnFrame(links, s2);
    CheckEnds(s.slots, s1.slots, i, ClocksAfter(Clocks(s.slots), CheckOrder(links, s.slots, i, forward), refresh));
    LeadsOn(links, s1, inner, s2, [ReturnDemand], s');
    LeadsOn(links, s0, first, s1, inner + [ReturnDemand], s');
    acts := first + (inner + [ReturnDemand]);
  }

  lemma {:induction false} LeadsNowhere(links: seq<Link>, s: System)
    ensures Leads(links, s, [], s)
  {
  }

  /** The refresh of the agent itself, if it is on demand. */
  lemma {:induction false} RefreshFrame(links: seq<Link>, s: System, i: nat, forward: bool, now: int,
                                        refresh: (nat, seq<Clock>) -> seq<Clock>)
    returns (s1: System, acts: seq<Action>)
    requires Fits(links, s.slots) && i < |links| && now > 0 && s.slots[i].running == 0
    ensures Leads(links, Demanded(s, i, forward, now), acts, s1) && OnlyChecks(acts)
    ensures s1 == s.(slots := s1.slots, demand := s.demand + [Frame(i, forward, s.slots[i].onDemand, false, 0)])
    ensures SettingsAgree(s.slots, s1.slots, i)
    ensures Clocks(s1.slots) == ClocksAfter(Clocks(s.slots), if s.slots[i].onDemand then [i] else [], refresh)
  {
    var s0 := Demanded(s, i, forward, now);
    CheckStarts(s.slots, if s.slots[i].onDemand then Rewritten(s0.slots, refresh(i, Clocks(s0.slots))) else s.slots,
                i, now, refresh);
    if s.slots[i].onDemand {
      var act := EndDemandRefresh(refresh(i, Clocks(s0.slots)));
      s1 := Next(links, s0, act);
      acts := [act];
      assert s1.demand == s.demand + [Frame(i, forward, true, false, 0)];
      LeadsNowhere(links, s1);
      LeadsFirst(links, s0, act, s1, [], s1);
    } else {
      s1, acts := s0, [];
    }
  }

  /** The children of the innermost frame, from its `child` on. */
  lemma {:induction false} DemandLoops(links: seq<Link>, s: System, k: nat, now: int,
                                       refresh: (nat, seq<Clock>) -> seq<Clock>)
    returns (acts: seq<Action>, s': System)
    requires Fits(links, s.slots) && s.demand != [] && now > 0
    requires Top(s).agent < |links| && Top(s).forward && !Top(s).refreshing
    requires Top(s).child == k <= |links[Top(s).agent].children|
    ensures Leads(links, s, acts, s') && OnlyChecks(acts)
    ensures s' == s.(
      slots := AfterCheck(s.slots, CheckFrom(links, s.slots, Top(s).agent, k), refresh),
      demand := s.demand[|s.demand| - 1 := Top(s).(child := |links[Top(s).agent].children|)])
    decreases |links| - Top(s).agent, |links[Top(s).agent].children| - k
  {
    hide Leads, CheckOrder, CheckFrom, Clocks, ClocksAfter, Rewritten, Enabled, Next;
    var i := Top(s).agent;
    CheckFromIs(links, s.slots, i, k);
    if k == |links[i].children| {
      NothingRefreshed(s.slots, refresh);
      acts, s' := [], s;
      LeadsNowhere(links, s);
    } else {
      ChildIsBelow(links, i, k);
      var c := links[i].children[k];
      var s0 := s.(demand := s.demand[|s.demand| - 1 := Top(s).(child := k + 1)]);
      var inner, s1 := DemandRuns(links, s0, c, true, now, refresh);
      var more := CheckOrder(links, s.slots, c, true);
      var rest;
      rest, s' := DemandLoops(links, s1, k + 1, now, refresh);
      SameFlags(s.slots, s1.slots, more, refresh);
      CheckFromFrame(links, s.slots, s1.slots, i, k + 1);
      AfterBoth(s.slots, more, CheckFrom(links, s.slots, i, k + 1), refresh);
      DescendStep(links, s, c, now);
      LeadsOn(links, Demanded(s0, c, true, now), inner, s1, rest, s');
      LeadsFirst(links, s, DescendDemand(now), Demanded(s0, c, true, now), inner + rest, s');
      acts := [DescendDemand(now)] + (inner + rest);
    }
  }

  lemma {:induction false} SameFlags(was: seq<Slot>, slots: seq<Slot>, order: seq<nat>,
                                     refresh: (nat, seq<Clock>) -> seq<Clock>)
    requires slots == AfterCheck(was, order, refresh)
    ensures |slots| == |was|
    ensures forall x :: 0 <= x < |was| ==>
      slots[x].onDemand == was[x].onDemand && slots[x].running == was[x].running
  {
    hide ClocksAfter;
  }

  lemma {:induction false} AfterBoth(slots: seq<Slot>, a: seq<nat>, b: seq<nat>, refresh: (nat, seq<Clock>) -> seq<Clock>)
    ensures AfterCheck(AfterCheck(slots, a, refresh), b, refresh) == AfterCheck(slots, a + b, refresh)
  {
    hide Clocks, ClocksAfter, Rewritten;
    ClocksAfterBoth(Clocks(slots), a, b, refresh);
    RewrittenTwice(slots, ClocksAfter(Clocks(slots), a, refresh), ClocksAfter(Clocks(slots), a + b, refresh));
  }

  lemma {:induction false} DescendStep(links: seq<Link>, s: System, c: nat, now: int)
    requires Fits(links, s.slots) && s.demand != [] && now > 0 && c < |links|
    requires Top(s).agent < |links| && Top(s).forward && !Top(s).refreshing
    requires Top(s).child < |links[Top(s).agent].children| && c == links[Top(s).agent].children[Top(s).child]
    ensures Enabled(links, s, DescendDemand(now))
    ensures Next(links, s, DescendDemand(now)) ==
      Demanded(s.(demand := s.demand[|s.demand| - 1 := Top(s).(child := Top(s).child + 1)]), c, true, now)
  {
  }

  lemma {:induction false} ReturnFrame(links: seq<Link>, s: System) returns (s': System)
    requires Fits(links, s.slots) && s.demand != [] && Top(s).agent < |links| && !Top(s).refreshing
    requires Top(s).forward ==> Top(s).child >= |links[Top(s).agent].children|
    ensures Leads(links, s, [ReturnDemand], s')
    ensures s' == s.(demand := s.demand[..|s.demand| - 1],
                     slots := s.slots[Top(s).agent := s.slots[Top(s).agent].(running := 0)])
  {
    s' := Next(links, s, ReturnDemand);
    LeadsNowhere(links, s');
    LeadsFirst(links, s, ReturnDemand, s', [], s');
  }
}
