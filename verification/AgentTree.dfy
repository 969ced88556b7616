/** The agent tree as the program keeps it: one object whose fields the
    operations update, each with the loops and recursion of the source, and
    each proved to do what the transition functions say. */
module AgentTree {
  import opened Wrappers
  import opened Tree
  import opened Agents

  lemma {:induction false} FoldSplit(agents: seq<Agent>, children: seq<nat>, k: nat, acc: State)
    requires forall m :: 0 <= m < |children| ==> children[m] < |agents|
    requires k < |children|
    ensures Fold(agents, children[k..], acc) ==
              Fold(agents, children[k + 1..],
                   if agents[children[k]].selected.level > acc.level then agents[children[k]].selected else acc)
  {
    assert children[k..][1..] == children[k + 1..];
  }

  class AgentTree {
    const links: seq<Link>
    var agents: seq<Agent>
    var log: seq<Event>

    constructor (links: seq<Link>, agents: seq<Agent>)
      requires Fits(links, agents)
      ensures this.links == links && this.agents == agents && log == []
      ensures Valid()
    {
      this.links := links;
      this.agents := agents;
      this.log := [];
    }

    ghost predicate Valid()
      reads this
    {
      Fits(links, agents)
    }

    ghost function Now(): World
      reads this
    {
      World(agents, log)
    }

    method ComputeState(i: nat) returns (state: State)
      requires Valid() && i < |links|
      ensures forall k: nat :: FirstAt(agents[i].states, agents[i].value, k) ==> state == agents[i].states[k].state
      ensures NoneHolds(agents[i].states, agents[i].value) ==> state == State(0, 1, false)
      ensures NoneHolds(agents[i].states, agents[i].value) || exists k: nat :: FirstAt(agents[i].states, agents[i].value, k)
      ensures state == Own(agents[i])
    {
      FirstMatchIsFirst(agents[i].states, agents[i].value);
      var states := agents[i].states;
      var k := 0;
      while k < |states|
        invariant k <= |states|
        invariant FirstMatch(states[k..], agents[i].value) == Own(agents[i])
      {
        if states[k].Matches(agents[i].value) {
          return states[k].state;
        }
        assert states[k..][1..] == states[k + 1..];
        k := k + 1;
      }
      state := DEFAULT_STATE;
    }

    /** The loop over the children that both `updated` and `set` run. */
    method FoldChildren(i: nat, first: State) returns (state: State)
      requires Valid() && i < |links|
      ensures LinkedAt(links, i) && state == Fold(agents, links[i].children, first)
      ensures NoneWorse(agents, links[i].children, first) ==> state == first
      ensures forall k: nat :: WorstAt(agents, links[i].children, first, k) ==>
        state == agents[links[i].children[k]].selected
      ensures NoneWorse(agents, links[i].children, first) || exists k: nat :: WorstAt(agents, links[i].children, first, k)
    {
      assert LinkedAt(links, i);
      FoldIsFirstWorst(agents, links[i].children, first);
      assert LinkedAt(links, i);
      var children := links[i].children;
      state := first;
      var k := 0;
      assert children[0..] == children;
      while k < |children|
        invariant k <= |children|
        invariant Fold(agents, children[k..], state) == Fold(agents, children, first)
      {
        FoldSplit(agents, children, k, state);
        if agents[children[k]].selected.level > state.level {
          state := agents[children[k]].selected;
        }
        k := k + 1;
      }
    }

    /** `for_each` with the body that takes the state of `origin` away. */
    method ReleaseEach(i: nat, origin: nat, now: int)
      requires Valid() && i < |links| && origin < |links|
      requires i == origin || Below(links, origin, i)
      modifies this`agents
      ensures Valid()
      ensures forall x :: 0 <= x < |agents| ==>
        agents[x] ==
          if (x == i || Below(links, i, x)) && x != origin && old(agents[x].selected == agents[origin].selected)
          then Released(old(agents[x]), now)
          else old(agents[x])
      decreases |links| - i
    {
      var k := 0;
      ghost var was := agents;
      var children := links[i].children;
      while k < |children|
        invariant k <= |children|
        invariant |agents| == |links|
        invariant forall x :: 0 <= x < |agents| ==>
          agents[x] ==
            if Passed(links, i, k, x) && was[x].selected == was[origin].selected
            then Released(was[x], now)
            else was[x]
        invariant agents[origin] == was[origin]
      {
        ghost var before := agents;
        ChildIsBelow(links, i, k);
        if i != origin {
          BelowTransitive(links, origin, i, children[k]);
          BelowIsLater(links, origin, i);
        }
        ReleaseEach(children[k], origin, now);
        forall x | 0 <= x < |agents|
          ensures agents[x] ==
            if Passed(links, i, k + 1, x) && was[x].selected == was[origin].selected
            then Released(was[x], now)
            else was[x]
        {
          PassedStep(links, i, k, x);
          if x == origin && Below(links, children[k], x) {
            BelowIsLater(links, children[k], x);
          }
        }
        k := k + 1;
        if Below(links, i, origin) {
          BelowIsLater(links, i, origin);
        }
        UnderIsBelow(links, i, origin);
      }
      forall x | 0 <= x < |agents|
        ensures agents[x] ==
          if Below(links, i, x) && was[x].selected == was[origin].selected
          then Released(was[x], now)
          else was[x]
      {
        UnderIsBelow(links, i, x);
      }
      if i != origin && agents[i].selected == agents[origin].selected {
        var own := ComputeState(i);
        agents := agents[i := agents[i].(selected := own, mode := WasSet)];
        if agents[i].timer > 0 {
          agents := agents[i := agents[i].(next := now + agents[i].timer)];
        }
      }
      if Below(links, i, i) {
        BelowIsLater(links, i, i);
      }
      if Below(links, i, origin) {
        BelowIsLater(links, i, origin);
      }
    }

    method Notify(i: nat, signal: Signal)
      modifies this`log
      ensures log == old(log) + [Notified(i, signal)]
    {
      log := log + [Notified(i, signal)];
    }

    method OnStateChange(i: nat, state: State, activate: bool, now: int) returns (changed: bool)
      requires Valid() && i < |links|
      modifies this`agents, this`log
      ensures Valid()
      ensures changed == (old(agents[i].selected) != state)
      ensures Now() == if changed then Change(links, old(Now()), i, state, activate, now) else old(Now())
    {
      hide Signals;
      if agents[i].selected == state {
        return false;
      }
      var saved := agents[i].selected;
      ghost var was := Now();
      if agents[i].mode.WasActivated? {
        log := log + [Deactivated(i, saved)];
      }
      if saved.forward {
        ReleaseEach(i, i, now);
        if Below(links, i, i) {
          BelowIsLater(links, i, i);
        }
        assert agents == Free(links, was.agents, i, now);
      }
      if activate {
        agents := agents[i := agents[i].(selected := state, mode := WasActivated)];
        log := log + [Activated(i, state)];
      } else {
        agents := agents[i := agents[i].(selected := state, mode := WasSet)];
      }
      NotifyChange(i, saved);
      changed := true;
      assert log == was.log + ChangeEvents(was.agents[i], i, state, activate);
    }

    /** The events at the end of a state change. */
    method NotifyChange(i: nat, saved: State)
      requires Valid() && i < |links|
      modifies this`log
      ensures log == old(log) + Signals(i, saved, agents[i].selected)
    {
      Notify(i, STATE_CHANGED);
      if saved.level != agents[i].selected.level {
        Notify(i, LEVEL_CHANGED);
        var ready := agents[i].selected.Ready();
        if ready != saved.Ready() {
          Notify(i, if ready then READY_AGAIN else NOT_READY);
        }
      }
    }

    /** Recurse into the children; an agent that already holds the state stops it. */
    method Forward(i: nat, state: State, now: int)
      requires Valid() && i < |links|
      modifies this`agents, this`log
      ensures Valid()
      ensures Now() == ForwardTo(links, old(Now()), i, state, now)
      decreases |links| - i, |links[i].children| + 1
    {
      var changed := OnStateChange(i, state, false, now);
      if changed {
        agents := agents[i := agents[i].(mode := WasForwarded, next := 0)];
        ForwardChildren(i, state, now);
      }
    }

    method ForwardChildren(i: nat, state: State, now: int)
      requires Valid() && i < |links|
      modifies this`agents, this`log
      ensures Valid()
      ensures Now() == ForwardFrom(links, old(Now()), i, 0, state, now)
      decreases |links| - i, |links[i].children|
    {
      var k := 0;
      while k < |links[i].children|
        invariant k <= |links[i].children| && Valid()
        invariant ForwardFrom(links, Now(), i, k, state, now) == ForwardFrom(links, old(Now()), i, 0, state, now)
      {
        assert LinkedAt(links, i);
        Forward(links[i].children[k], state, now);
        k := k + 1;
      }
    }

    method Set(i: nat, state: State, now: int) returns (changed: bool)
      requires Valid() && i < |links|
      modifies this`agents, this`log
      ensures Valid()
      ensures changed <==>
        && old(agents[i].selected) != state
        && forall p :: 0 <= p < |links| && links[i].parent == Some(p) ==>
             !(old(agents[p].mode) == WasActivated && old(agents[p].selected.forward))
      ensures Now() == SetState(links, old(Now()), i, state, now)
    {
      assert LinkedAt(links, i);
      if links[i].parent.Some? {
        var parent := links[i].parent.value;
        if agents[parent].mode.WasActivated? && agents[parent].selected.forward {
          return false;
        }
      }
      changed := OnStateChange(i, state, true, now);
      if !changed {
        return false;
      }
      if agents[i].selected.forward {
        ForwardChildren(i, state, now);
      }
      ghost var done := Climb(links, Now(), i, now);
      var at: nat := i;
      while links[at].parent.Some?
        invariant at < |links| && Valid()
        invariant Climb(links, Now(), at, now) == done
        decreases at
      {
        assert LinkedAt(links, at);
        var parent := links[at].parent.value;
        var own := ComputeState(parent);
        var computed := FoldChildren(parent, own);
        var moved := OnStateChange(parent, computed, false, now);
        if !moved {
          break;
        }
        at := parent;
      }
      return true;
    }

    method ValueUpdated(i: nat, changed: bool, now: int)
      requires Valid() && i < |links|
      modifies this`agents, this`log
      ensures Valid()
      ensures Now() == Updated(links, old(Now()), i, changed, now)
    {
      agents := agents[i := agents[i].(last := now)];
      if agents[i].timer > 0 && agents[i].next <= agents[i].last {
        agents := agents[i := agents[i].(next := agents[i].last + agents[i].timer)];
      }
      assert agents == old(agents)[i := Stamped(old(agents)[i], now)];
      if !changed {
        Notify(i, VALUE_NOT_CHANGED);
        return;
      }
      Notify(i, VALUE_CHANGED);
      var state := ComputeState(i);
      if !state.forward {
        state := FoldChildren(i, state);
      }
      var _ := Set(i, state, now);
    }

    method SetTo(i: nat, value: int, now: int)
      requires Valid() && i < |links|
      modifies this`agents, this`log
      ensures Valid()
      ensures Now() == SetValue(links, old(Now()), i, value, now)
    {
      if value == agents[i].value {
        ValueUpdated(i, false, now);
        return;
      }
      agents := agents[i := agents[i].(value := value)];
      ValueUpdated(i, true, now);
    }

    method Failed(i: nat, error: State, now: int)
      requires Valid() && i < |links|
      modifies this`agents, this`log
      ensures Valid()
      ensures Now() == Fail(links, old(Now()), i, error, now)
    {
      if agents[i].failDelay > 0 {
        agents := agents[i := agents[i].(next := now + agents[i].failDelay)];
      } else {
        assert agents == agents[i := agents[i]];
      }
      var _ := Set(i, error, now);
    }

    method Start(i: nat, now: int)
      requires Valid() && i < |links|
      modifies this`agents, this`log
      ensures Valid()
      ensures Now() == StartAt(links, old(Now()), i, now)
      decreases |links| - i
    {
      var k := 0;
      while k < |links[i].children|
        invariant k <= |links[i].children| && Valid()
        invariant StartFrom(links, Now(), i, k, now) == StartFrom(links, old(Now()), i, 0, now)
      {
        assert LinkedAt(links, i);
        Start(links[i].children[k], now);
        k := k + 1;
      }
      var first := ComputeState(i);
      if first.forward {
        ForwardChildren(i, first, now);
      } else {
        first := FoldChildren(i, first);
      }
      agents := agents[i := agents[i].(selected := first, mode := WasSet)];
      Notify(i, STARTED);
    }
  }
}
