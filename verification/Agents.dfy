/** Agents, states and the transition functions of the agent state machine.

    A `World` is the whole tree at one moment plus the log of everything the
    outside could observe: state activations and deactivations and the events
    sent to listeners. */
module Agents {
  import opened Wrappers
  import opened Tree

  type Level = n: nat | n <= CRITICAL

  const UNDEFINED := 0
  const UNIMPORTANT := 1
  const READY := 2
  const WARNING := 3
  const ERROR := 4
  const CRITICAL := 5

  /** A state object; `id` stands for its address, which is what the source compares. */
  datatype State = State(id: nat, level: Level, forward: bool) {
    predicate Ready() {
      level <= READY
    }
  }

  /** The one state shared by all agents whose table has no matching entry. */
  const DEFAULT_STATE := State(0, UNIMPORTANT, false)

  datatype StateRange = StateRange(from: int, to: int, state: State) {
    predicate Matches(value: int) {
      from <= value <= to
    }
  }

  datatype Mode = WasSet | WasActivated | WasForwarded

  datatype Agent = Agent(
    value: int,
    states: seq<StateRange>,
    selected: State,
    mode: Mode,
    timer: nat,
    failDelay: nat,
    last: int,
    next: int)

  datatype Signal =
    | STARTED
    | STATE_CHANGED
    | VALUE_CHANGED
    | VALUE_NOT_CHANGED
    | READY_AGAIN
    | NOT_READY
    | LEVEL_CHANGED

  datatype Event =
    | Activated(agent: nat, state: State)
    | Deactivated(agent: nat, state: State)
    | Notified(agent: nat, signal: Signal)

  datatype World = World(agents: seq<Agent>, log: seq<Event>)

  ghost predicate Fits(links: seq<Link>, agents: seq<Agent>) {
    WellLinked(links) && |agents| == |links|
  }

  /** The first entry of the table whose range holds the value. */
  function FirstMatch(states: seq<StateRange>, value: int): State {
    if states == [] then DEFAULT_STATE
    else if states[0].Matches(value) then states[0].state
    else FirstMatch(states[1..], value)
  }

  /** Entry `k` is the first whose range holds the value. */
  predicate FirstAt(states: seq<StateRange>, value: int, k: nat) {
    && k < |states|
    && states[k].from <= value <= states[k].to
    && forall j :: 0 <= j < k ==> value < states[j].from || states[j].to < value
  }

  predicate NoneHolds(states: seq<StateRange>, value: int) {
    forall j :: 0 <= j < |states| ==> value < states[j].from || states[j].to < value
  }

  lemma {:induction false} FirstMatchIsFirst(states: seq<StateRange>, value: int)
    ensures NoneHolds(states, value) ==> FirstMatch(states, value) == State(0, 1, false)
    ensures forall k: nat :: FirstAt(states, value, k) ==> FirstMatch(states, value) == states[k].state
    ensures NoneHolds(states, value) || exists k: nat :: FirstAt(states, value, k)
  {
    if states != [] {
      FirstMatchIsFirst(states[1..], value);
      if !states[0].Matches(value) {
        forall k: nat | FirstAt(states, value, k) ensures FirstMatch(states, value) == states[k].state {
          assert FirstAt(states[1..], value, k - 1);
        }
        if !NoneHolds(states[1..], value) {
          var k: nat :| FirstAt(states[1..], value, k);
          assert FirstAt(states, value, k + 1);
        }
      } else {
        assert FirstAt(states, value, 0);
      }
    }
  }

  /** `computeState` of a valued agent. */
  function Own(a: Agent): State {
    FirstMatch(a.states, a.value)
  }

  /** Replace `acc` by each strictly worse child state in turn. */
  function Fold(agents: seq<Agent>, children: seq<nat>, acc: State): State
    requires forall k :: 0 <= k < |children| ==> children[k] < |agents|
  {
    if children == [] then acc
    else
      var s := agents[children[0]].selected;
      Fold(agents, children[1..], if s.level > acc.level then s else acc)
  }

  /** Child `k` is the first of the worst children, and worse than `acc`. */
  predicate WorstAt(agents: seq<Agent>, children: seq<nat>, acc: State, k: nat)
    requires forall j :: 0 <= j < |children| ==> children[j] < |agents|
  {
    && k < |children|
    && agents[children[k]].selected.level > acc.level
    && (forall j :: 0 <= j < k ==> agents[children[j]].selected.level < agents[children[k]].selected.level)
    && (forall j :: k < j < |children| ==> agents[children[j]].selected.level <= agents[children[k]].selected.level)
  }

  predicate NoneWorse(agents: seq<Agent>, children: seq<nat>, acc: State)
    requires forall j :: 0 <= j < |children| ==> children[j] < |agents|
  {
    forall j :: 0 <= j < |children| ==> agents[children[j]].selected.level <= acc.level
  }

  lemma {:induction false} FoldIsFirstWorst(agents: seq<Agent>, children: seq<nat>, acc: State)
    requires forall j :: 0 <= j < |children| ==> children[j] < |agents|
    ensures NoneWorse(agents, children, acc) ==> Fold(agents, children, acc) == acc
    ensures forall k: nat :: WorstAt(agents, children, acc, k) ==>
      Fold(agents, children, acc) == agents[children[k]].selected
    ensures NoneWorse(agents, children, acc) || exists k: nat :: WorstAt(agents, children, acc, k)
  {
    if children != [] {
      var s, rest := agents[children[0]].selected, children[1..];
      var acc' := if s.level > acc.level then s else acc;
      FoldIsFirstWorst(agents, rest, acc');
      forall k: nat | WorstAt(agents, children, acc, k)
        ensures Fold(agents, children, acc) == agents[children[k]].selected
      {
        if k > 0 {
          assert WorstAt(agents, rest, acc', k - 1);
        }
      }
      if !NoneWorse(agents, rest, acc') {
        var k: nat :| WorstAt(agents, rest, acc', k);
        assert WorstAt(agents, children, acc, k + 1);
      } else if s.level > acc.level {
        assert WorstAt(agents, children, acc, 0);
      }
    }
  }

  /** What an agent should select: its own state or the first worst one below. */
  function Aggregate(links: seq<Link>, agents: seq<Agent>, i: nat): State
    requires Fits(links, agents) && i < |links|
  {
    assert LinkedAt(links, i);
    Fold(agents, links[i].children, Own(agents[i]))
  }

  /** An agent losing a state that had been forwarded to it. */
  function Released(a: Agent, now: int): Agent {
    a.(selected := Own(a), mode := WasSet, next := if a.timer > 0 then now + a.timer else a.next)
  }

  /** Take the state of `i` away from every descendant that holds it. */
  function Free(links: seq<Link>, agents: seq<Agent>, i: nat, now: int): (r: seq<Agent>)
    requires i < |agents|
    ensures |r| == |agents|
  {
    seq(|agents|, x requires 0 <= x < |agents| =>
      if Below(links, i, x) && agents[x].selected == agents[i].selected
      then Released(agents[x], now)
      else agents[x])
  }

  /** The events an agent sends when its state goes from `was` to `to`. */
  function Signals(i: nat, was: State, to: State): seq<Event> {
    [Notified(i, STATE_CHANGED)]
    + (if was.level != to.level then
         [Notified(i, LEVEL_CHANGED)]
         + (if was.Ready() != to.Ready() then
              [Notified(i, if to.Ready() then READY_AGAIN else NOT_READY)]
            else [])
       else [])
  }

  /** The events of one state change, in order. */
  function ChangeEvents(a: Agent, i: nat, s: State, activate: bool): seq<Event> {
    (if a.mode.WasActivated? then [Deactivated(i, a.selected)] else [])
    + (if activate then [Activated(i, s)] else [])
    + Signals(i, a.selected, s)
  }

  /** `onStateChange` to a state the agent does not hold yet. */
  function Change(links: seq<Link>, w: World, i: nat, s: State, activate: bool, now: int): (r: World)
    requires i < |w.agents|
    ensures |r.agents| == |w.agents|
  {
    var a := w.agents[i];
    var freed := if a.selected.forward then Free(links, w.agents, i, now) else w.agents;
    World(
      freed[i := freed[i].(selected := s, mode := if activate then WasActivated else WasSet)],
      w.log + ChangeEvents(a, i, s, activate))
  }

  /** `forward`: install the state of an ancestor in a subtree. */
  function ForwardTo(links: seq<Link>, w: World, i: nat, s: State, now: int): (r: World)
    requires Fits(links, w.agents) && i < |links|
    ensures |r.agents| == |w.agents|
    decreases |links| - i, |links[i].children| + 1
  {
    if w.agents[i].selected == s then w
    else
      var w1 := Change(links, w, i, s, false, now);
      var w2 := w1.(agents := w1.agents[i := w1.agents[i].(mode := WasForwarded, next := 0)]);
      ForwardFrom(links, w2, i, 0, s, now)
  }

  function ForwardFrom(links: seq<Link>, w: World, i: nat, k: nat, s: State, now: int): (r: World)
    requires Fits(links, w.agents) && i < |links| && k <= |links[i].children|
    ensures |r.agents| == |w.agents|
    decreases |links| - i, |links[i].children| - k
  {
    if k == |links[i].children| then w
    else
      assert LinkedAt(links, i);
      ForwardFrom(links, ForwardTo(links, w, links[i].children[k], s, now), i, k + 1, s, now)
  }

  /** Recompute the ancestors of `i`, up to the first one that does not change. */
  function Climb(links: seq<Link>, w: World, i: nat, now: int): (r: World)
    requires Fits(links, w.agents) && i < |links|
    ensures |r.agents| == |w.agents|
    decreases i
  {
    if links[i].parent.None? then w
    else
      assert LinkedAt(links, i);
      var p := links[i].parent.value;
      var s := Aggregate(links, w.agents, p);
      if s == w.agents[p].selected then w
      else Climb(links, Change(links, w, p, s, false, now), p, now)
  }

  /** The parent holds a forwarding state that it activated itself. */
  predicate Blocked(links: seq<Link>, agents: seq<Agent>, i: nat)
    requires Fits(links, agents) && i < |links|
  {
    assert LinkedAt(links, i);
    && links[i].parent.Some?
    && agents[links[i].parent.value].mode.WasActivated?
    && agents[links[i].parent.value].selected.forward
  }

  /** `set` takes effect: not blocked, and not the state already held. */
  predicate Takes(links: seq<Link>, agents: seq<Agent>, i: nat, s: State)
    requires Fits(links, agents) && i < |links|
  {
    !Blocked(links, agents, i) && agents[i].selected != s
  }

  /** `set`. */
  function SetState(links: seq<Link>, w: World, i: nat, s: State, now: int): (r: World)
    requires Fits(links, w.agents) && i < |links|
    ensures |r.agents| == |w.agents|
  {
    if !Takes(links, w.agents, i, s) then w
    else
      var w1 := Change(links, w, i, s, true, now);
      Climb(links, if s.forward then ForwardFrom(links, w1, i, 0, s, now) else w1, i, now)
  }

  /** Bookkeeping of `updated`: the time of the update and the next one. */
  function Stamped(a: Agent, now: int): Agent {
    a.(last := now, next := if a.timer > 0 && a.next <= now then now + a.timer else a.next)
  }

  /** The state `updated` asks for. */
  function Wanted(links: seq<Link>, agents: seq<Agent>, i: nat): State
    requires Fits(links, agents) && i < |links|
  {
    if Own(agents[i]).forward then Own(agents[i]) else Aggregate(links, agents, i)
  }

  /** `updated`. */
  function Updated(links: seq<Link>, w: World, i: nat, changed: bool, now: int): (r: World)
    requires Fits(links, w.agents) && i < |links|
    ensures |r.agents| == |w.agents|
  {
    var w1 := World(
      w.agents[i := Stamped(w.agents[i], now)],
      w.log + [Notified(i, if changed then VALUE_CHANGED else VALUE_NOT_CHANGED)]);
    if changed then SetState(links, w1, i, Wanted(links, w1.agents, i), now) else w1
  }

  /** `Agent<T>::set`. */
  function SetValue(links: seq<Link>, w: World, i: nat, value: int, now: int): (r: World)
    requires Fits(links, w.agents) && i < |links|
    ensures |r.agents| == |w.agents|
  {
    if value == w.agents[i].value then Updated(links, w, i, false, now)
    else Updated(links, w.(agents := w.agents[i := w.agents[i].(value := value)]), i, true, now)
  }

  /** `failed`, with the state object it builds passed in. */
  function Fail(links: seq<Link>, w: World, i: nat, error: State, now: int): (r: World)
    requires Fits(links, w.agents) && i < |links|
    ensures |r.agents| == |w.agents|
  {
    var a := w.agents[i];
    var a1 := if a.failDelay > 0 then a.(next := now + a.failDelay) else a;
    SetState(links, w.(agents := w.agents[i := a1]), i, error, now)
  }

  /** `start` of one agent, after its children. */
  function StartAt(links: seq<Link>, w: World, i: nat, now: int): (r: World)
    requires Fits(links, w.agents) && i < |links|
    ensures |r.agents| == |w.agents|
    decreases |links| - i, |links[i].children| + 1
  {
    var w1 := StartFrom(links, w, i, 0, now);
    var own := Own(w1.agents[i]);
    var w2 := if own.forward then ForwardFrom(links, w1, i, 0, own, now) else w1;
    var first := if own.forward then own else Aggregate(links, w2.agents, i);
    World(w2.agents[i := w2.agents[i].(selected := first, mode := WasSet)],
          w2.log + [Notified(i, STARTED)])
  }

  function StartFrom(links: seq<Link>, w: World, i: nat, k: nat, now: int): (r: World)
    requires Fits(links, w.agents) && i < |links| && k <= |links[i].children|
    ensures |r.agents| == |w.agents|
    decreases |links| - i, |links[i].children| - k
  {
    if k == |links[i].children| then w
    else
      assert LinkedAt(links, i);
      StartFrom(links, StartAt(links, w, links[i].children[k], now), i, k + 1, now)
  }

  /** What the outside can do to a started tree. `Refreshed` is an update that
      finds the value unchanged. */
  datatype Op =
    | SetValueOp(agent: nat, value: int, now: int)
    | RefreshedOp(agent: nat, changed: bool, now: int)
    | FailOp(agent: nat, error: State, now: int)

  /** The error states that `failed` builds are critical and not forwarded. */
  ghost predicate OpFits(links: seq<Link>, op: Op) {
    && op.agent < |links|
    && (op.FailOp? ==> op.error.level == CRITICAL && !op.error.forward)
  }

  function Step(links: seq<Link>, w: World, op: Op): (r: World)
    requires Fits(links, w.agents) && OpFits(links, op)
    ensures |r.agents| == |w.agents|
  {
    match op
    case SetValueOp(i, value, now) => SetValue(links, w, i, value, now)
    case RefreshedOp(i, changed, now) => Updated(links, w, i, changed, now)
    case FailOp(i, error, now) => Fail(links, w, i, error, now)
  }

  function Run(links: seq<Link>, w: World, ops: seq<Op>): (r: World)
    requires Fits(links, w.agents) && forall k :: 0 <= k < |ops| ==> OpFits(links, ops[k])
    ensures |r.agents| == |w.agents|
    decreases |ops|
  {
    if ops == [] then w else Run(links, Step(links, w, ops[0]), ops[1..])
  }
}
