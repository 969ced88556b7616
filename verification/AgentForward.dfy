/** Forwarding: an agent imposing its state on the whole subtree, and taking it
    away again. */
module AgentForward {
  import opened Wrappers
  import opened Tree
  import opened Agents
  import opened AgentAggregate
  import opened AgentEvents

  /** The agent carries the forwarded state and will not be updated. */
  predicate Carries(a: Agent, s: State) {
    a.selected == s && a.mode.WasForwarded? && a.next == 0
  }

  /** The agent runs on its own value again, with its timer rearmed. */
  predicate OnItsOwn(a: Agent, now: int) {
    a.selected == Own(a) && a.mode.WasSet? && a.next == if a.timer > 0 then now + a.timer else 0
  }

  predicate In(links: seq<Link>, b: nat, x: nat) {
    x == b || Below(links, b, x)
  }

  // ----- the state an agent holds when a forward from above reaches it

  /** The state of `x` when the forward that starts at `b` gets to it: its
      selection, or its own state when an agent on the way lost the forwarding
      state that `x` was holding because of it. */
  function AtVisit(links: seq<Link>, agents: seq<Agent>, b: nat, x: nat): State
    requires Fits(links, agents) && x < |links|
    decreases x, 0
  {
    if Below(links, b, x) && LosesTo(links, agents, b, x, links[x].parent.value)
    then Own(agents[x])
    else agents[x].selected
  }

  /** One of the agents from `y` up to `b` takes its state away from `x`. */
  predicate LosesTo(links: seq<Link>, agents: seq<Agent>, b: nat, x: nat, y: nat)
    requires Fits(links, agents) && x < |links| && y < |links| && In(links, b, y)
    decreases y, 1
  {
    || (agents[x].selected.forward && AtVisit(links, agents, b, y) == agents[x].selected)
    || (y != b && LosesTo(links, agents, b, x, links[y].parent.value))
  }

  /** The forward of `s` from `b` gets to `x` and changes it: nobody from `x` up
      to `b` holds the state when the forward reaches it. */
  predicate Hit(links: seq<Link>, agents: seq<Agent>, b: nat, s: State, x: nat)
    requires Fits(links, agents) && x < |links| && In(links, b, x)
    decreases x
  {
    AtVisit(links, agents, b, x) != s && (x == b || Hit(links, agents, b, s, links[x].parent.value))
  }

  /** Every proper descendant of `b` carries the state. */
  ghost predicate CoveredBelow(links: seq<Link>, agents: seq<Agent>, b: nat, s: State)
    requires Fits(links, agents)
  {
    forall x :: 0 <= x < |links| && Below(links, b, x) ==> Carries(agents[x], s)
  }

  lemma {:induction false} AtVisitFrame(links: seq<Link>, before: seq<Agent>, after: seq<Agent>, b: nat, x: nat)
    requires Fits(links, before) && Fits(links, after) && x < |links| && In(links, b, x)
    requires forall y :: 0 <= y < |links| && In(links, b, y) ==> before[y] == after[y]
    ensures AtVisit(links, before, b, x) == AtVisit(links, after, b, x)
    decreases x, 0
  {
    if Below(links, b, x) {
      LosesToFrame(links, before, after, b, x, links[x].parent.value);
    }
  }

  lemma {:induction false} LosesToFrame(links: seq<Link>, before: seq<Agent>, after: seq<Agent>,
                                        b: nat, x: nat, y: nat)
    requires Fits(links, before) && Fits(links, after) && x < |links| && y < |links|
    requires In(links, b, x) && In(links, b, y)
    requires forall z :: 0 <= z < |links| && In(links, b, z) ==> before[z] == after[z]
    ensures LosesTo(links, before, b, x, y) <==> LosesTo(links, after, b, x, y)
    decreases y, 1
  {
    AtVisitFrame(links, before, after, b, y);
    if y != b {
      LosesToFrame(links, before, after, b, x, links[y].parent.value);
    }
  }

  /** The world right after `forward` has changed `b` itself. */
  function Entered(links: seq<Link>, w: World, b: nat, s: State, now: int): (r: World)
    requires b < |w.agents|
    ensures |r.agents| == |w.agents|
  {
    var w1 := Change(links, w, b, s, false, now);
    w1.(agents := w1.agents[b := w1.agents[b].(mode := WasForwarded, next := 0)])
  }

  /** The selections once `b` has left its state and taken it from everybody below. */
  ghost predicate FreedBy(links: seq<Link>, before: seq<Agent>, freed: seq<Agent>, b: nat)
    requires Fits(links, before) && b < |links|
  {
    && |freed| == |links|
    && (forall y :: 0 <= y < |links| ==> Own(freed[y]) == Own(before[y]))
    && forall y :: 0 <= y < |links| && y != b ==>
      if before[b].selected.forward && Below(links, b, y) && before[y].selected == before[b].selected
      then freed[y].selected == Own(before[y]) && freed[y].mode.WasSet?
      else freed[y] == before[y]
  }

  /** What `b` takes away on its own visit accounts for the difference between
      a forward seen from `b` and seen from one of its children. */
  lemma {:induction false} AtVisitDescends(links: seq<Link>, before: seq<Agent>, freed: seq<Agent>, b: nat, c: nat, x: nat)
    requires Fits(links, before) && b < |links| && FreedBy(links, before, freed, b)
    requires c < |links| && links[c].parent == Some(b) && x < |links| && In(links, c, x)
    ensures AtVisit(links, freed, c, x) == AtVisit(links, before, b, x)
    decreases x, 0
  {
    assert LinkedAt(links, c);
    assert Below(links, b, c);
    if x != c {
      BelowTransitive(links, b, c, x);
    }
    BelowIsLater(links, b, x);
    assert freed[x].selected != before[x].selected ==> AtVisit(links, freed, c, x) == Own(before[x]);
    if x == c {
      assert links[x].parent.value == b;
      assert AtVisit(links, before, b, b) == before[b].selected by {
        if Below(links, b, b) { BelowIsLater(links, b, b); }
      }
      if Below(links, c, c) { BelowIsLater(links, c, c); }
    } else {
      LosesToDescends(links, before, freed, b, c, x, links[x].parent.value);
    }
  }

  lemma {:induction false} LosesToDescends(links: seq<Link>, before: seq<Agent>, freed: seq<Agent>,
                                           b: nat, c: nat, x: nat, y: nat)
    requires Fits(links, before) && b < |links| && FreedBy(links, before, freed, b)
    requires c < |links| && links[c].parent == Some(b)
    requires x < |links| && y < |links| && In(links, c, x) && In(links, c, y) && In(links, b, y)
    requires x != b && Below(links, b, x)
    ensures freed[x].selected == before[x].selected ==>
      (LosesTo(links, before, b, x, y) <==>
        LosesTo(links, freed, c, x, y)
        || (before[x].selected.forward && before[b].selected == before[x].selected))
    ensures before[x].selected.forward && before[b].selected == before[x].selected ==>
      LosesTo(links, before, b, x, y)
    decreases y, 1
  {
    assert LinkedAt(links, c);
    AtVisitDescends(links, before, freed, b, c, y);
    assert y != b by {
      if y == b && y != c { BelowIsLater(links, c, b); }
    }
    if y == c {
      assert links[y].parent.value == b;
      assert AtVisit(links, before, b, b) == before[b].selected by {
        if Below(links, b, b) { BelowIsLater(links, b, b); }
      }
    } else {
      var p := links[y].parent.value;
      if p != c { BelowTransitive(links, b, c, p); }
      LosesToDescends(links, before, freed, b, c, x, p);
    }
  }

  // ----- how far a forward reaches

  /** A forward touches nothing outside the subtree it is sent into. */
  lemma {:induction false} ForwardFrame(links: seq<Link>, w: World, i: nat, k: nat, s: State, now: int, whole: bool)
    requires Fits(links, w.agents) && i < |links| && k <= |links[i].children|
    ensures var r := Sent(links, w, i, k, s, now, whole);
      && (forall x :: 0 <= x < |links| ==> Own(r.agents[x]) == Own(w.agents[x]) && r.agents[x].timer == w.agents[x].timer)
      && (forall x :: 0 <= x < |links| && !(if whole then In(links, i, x) else Under(links, i, k, x)) ==>
            r.agents[x] == w.agents[x])
    decreases |links| - i, if whole then |links[i].children| + 1 else |links[i].children| - k
  {
    if whole {
      if w.agents[i].selected != s {
        var w2 := Entered(links, w, i, s, now);
        ForwardFrame(links, w2, i, 0, s, now, false);
        forall x | 0 <= x < |links| && !In(links, i, x)
          ensures Sent(links, w, i, k, s, now, whole).agents[x] == w.agents[x]
        {
          UnderIsBelow(links, i, x);
        }
      }
    } else if k < |links[i].children| {
      ChildIsBelow(links, i, k);
      var c := links[i].children[k];
      ForwardFrame(links, w, c, 0, s, now, true);
      ForwardFrame(links, ForwardTo(links, w, c, s, now), i, k + 1, s, now, false);
      forall x | 0 <= x < |links| && !Under(links, i, k, x)
        ensures Sent(links, w, i, k, s, now, whole).agents[x] == w.agents[x]
      {
        UnderStep(links, i, k, x);
      }
    }
  }

  /** `forward` on agent `i`, or on its children from the `k`-th on. */
  function Sent(links: seq<Link>, w: World, i: nat, k: nat, s: State, now: int, whole: bool): (r: World)
    requires Fits(links, w.agents) && i < |links| && k <= |links[i].children|
    ensures |r.agents| == |w.agents|
  {
    if whole then ForwardTo(links, w, i, s, now) else ForwardFrom(links, w, i, k, s, now)
  }

  /** What a forward of `s` does to one agent of the subtree. */
  predicate Visited(before: Agent, after: Agent, hit: bool, s: State, now: int) {
    if hit then after == before.(selected := s, mode := WasForwarded, next := 0)
    else (after == before || after == Released(before, now)) && (before.selected == s ==> after == before)
  }

  /** A forward into the subtree of `b` changes exactly the agents it hits. */
  lemma {:induction false} ForwardVisits(links: seq<Link>, w: World, b: nat, s: State, now: int, x: nat)
    requires Fits(links, w.agents) && b < |links| && x < |links| && In(links, b, x)
    ensures Visited(w.agents[x], ForwardTo(links, w, b, s, now).agents[x], Hit(links, w.agents, b, s, x), s, now)
    decreases |links| - b, |links[b].children| + 1
  {
    if Below(links, b, b) { BelowIsLater(links, b, b); }
    if w.agents[b].selected == s {
      if Hit(links, w.agents, b, s, x) { HitStarts(links, w.agents, b, s, x); }
    } else {
      var w2 := Entered(links, w, b, s, now);
      if x == b {
        ForwardFrame(links, w2, b, 0, s, now, false);
        UnderIsBelow(links, b, b);
      } else {
        var m := BelowGoesThroughChild(links, b, x);
        ForwardFromVisits(links, w2, b, 0, s, now, m, x);
        ChildIsBelow(links, b, m);
        HitDescends(links, w.agents, w2.agents, b, links[b].children[m], s, x);
      }
    }
  }

  lemma {:induction false} ForwardFromVisits(links: seq<Link>, w: World, i: nat, k: nat, s: State, now: int, m: nat, x: nat)
    requires Fits(links, w.agents) && i < |links| && k <= m < |links[i].children|
    requires x < |links| && In(links, links[i].children[m], x)
    ensures Visited(w.agents[x], ForwardFrom(links, w, i, k, s, now).agents[x],
                    Hit(links, w.agents, links[i].children[m], s, x), s, now)
    decreases |links| - i, |links[i].children| - k
  {
    ChildIsBelow(links, i, k);
    var c, d := links[i].children[k], links[i].children[m];
    var w1 := ForwardTo(links, w, c, s, now);
    if m == k {
      ForwardVisits(links, w, c, s, now, x);
      ForwardFrame(links, w1, i, k + 1, s, now, false);
      UnderStep(links, i, k, x);
    } else {
      ForwardFrame(links, w, c, 0, s, now, true);
      forall y | 0 <= y < |links| && In(links, d, y) ensures w1.agents[y] == w.agents[y] {
        SiblingsAreApart(links, i, m, k, y);
      }
      HitFrame(links, w.agents, w1.agents, d, s, x);
      ForwardFromVisits(links, w1, i, k + 1, s, now, m, x);
    }
  }

  lemma {:induction false} HitStarts(links: seq<Link>, agents: seq<Agent>, b: nat, s: State, x: nat)
    requires Fits(links, agents) && b < |links| && x < |links| && In(links, b, x) && Hit(links, agents, b, s, x)
    ensures agents[b].selected != s
    decreases x
  {
    if Below(links, b, b) { BelowIsLater(links, b, b); }
    if x != b {
      HitStarts(links, agents, b, s, links[x].parent.value);
    }
  }

  lemma {:induction false} HitFrame(links: seq<Link>, before: seq<Agent>, after: seq<Agent>, b: nat, s: State, x: nat)
    requires Fits(links, before) && Fits(links, after) && x < |links| && In(links, b, x)
    requires forall y :: 0 <= y < |links| && In(links, b, y) ==> before[y] == after[y]
    ensures Hit(links, before, b, s, x) <==> Hit(links, after, b, s, x)
    decreases x
  {
    AtVisitFrame(links, before, after, b, x);
    if x != b {
      HitFrame(links, before, after, b, s, links[x].parent.value);
    }
  }

  lemma {:induction false} HitDescends(links: seq<Link>, before: seq<Agent>, freed: seq<Agent>, b: nat, c: nat, s: State, x: nat)
    requires Fits(links, before) && b < |links| && FreedBy(links, before, freed, b) && before[b].selected != s
    requires c < |links| && links[c].parent == Some(b) && x < |links| && In(links, c, x) && In(links, b, x)
    ensures Hit(links, freed, c, s, x) <==> Hit(links, before, b, s, x)
    decreases x
  {
    if Below(links, b, b) { BelowIsLater(links, b, b); }
    AtVisitDescends(links, before, freed, b, c, x);
    assert LinkedAt(links, c);
    if x != c { BelowTransitive(links, b, c, x); }
    BelowIsLater(links, b, x);
    if x == c {
      assert Hit(links, before, b, s, b);
    } else {
      var p := links[x].parent.value;
      if p != c { BelowTransitive(links, b, c, p); }
      HitDescends(links, before, freed, b, c, s, p);
    }
  }

  /** After a forward into a subtree, exactly the agents that it hit and those
      that carried the state before carry it. */
  lemma {:induction false} ForwardReaches(links: seq<Link>, w: World, b: nat, s: State, now: int)
    requires Fits(links, w.agents) && b < |links|
    ensures forall x :: 0 <= x < |links| && In(links, b, x) ==>
      (Carries(ForwardTo(links, w, b, s, now).agents[x], s) <==>
        Hit(links, w.agents, b, s, x) || Carries(w.agents[x], s))
  {
    forall x | 0 <= x < |links| && In(links, b, x)
      ensures Carries(ForwardTo(links, w, b, s, now).agents[x], s) <==>
        Hit(links, w.agents, b, s, x) || Carries(w.agents[x], s)
    {
      ForwardVisits(links, w, b, s, now, x);
    }
  }

  // ----- ancestors recomputed afterwards

  /** Recomputing the ancestors of `i` makes one that selects `s` leave it. */
  predicate TakenBack(links: seq<Link>, agents: seq<Agent>, i: nat, s: State)
    requires Fits(links, agents) && i < |links|
    decreases i
  {
    links[i].parent.Some? &&
      assert LinkedAt(links, i);
      var p := links[i].parent.value;
      var t := Aggregate(links, agents, p);
      && t != agents[p].selected
      && (agents[p].selected == s || TakenBack(links, agents[p := agents[p].(selected := t)], p, s))
  }

  /** What happens below `i` does not matter to its ancestors. */
  lemma {:induction false} TakenBackFrame(links: seq<Link>, before: seq<Agent>, after: seq<Agent>, i: nat, s: State)
    requires Fits(links, before) && Fits(links, after) && i < |links|
    requires forall y :: 0 <= y < |links| && !Below(links, i, y) ==>
      before[y].selected == after[y].selected && Own(before[y]) == Own(after[y])
    ensures TakenBack(links, before, i, s) <==> TakenBack(links, after, i, s)
    decreases i
  {
    if links[i].parent.Some? {
      assert LinkedAt(links, i);
      var p := links[i].parent.value;
      AggregateFrame(links, before, after, i, p);
      var t := Aggregate(links, before, p);
      if t != before[p].selected {
        var before', after' := before[p := before[p].(selected := t)], after[p := after[p].(selected := t)];
        forall y | 0 <= y < |links| && !Below(links, p, y)
          ensures before'[y].selected == after'[y].selected && Own(before'[y]) == Own(after'[y])
        {
          if Below(links, i, y) { BelowTransitive(links, p, i, y); }
        }
        TakenBackFrame(links, before', after', p, s);
      }
    }
  }

  lemma {:induction false} AggregateFrame(links: seq<Link>, before: seq<Agent>, after: seq<Agent>, i: nat, p: nat)
    requires Fits(links, before) && Fits(links, after) && i < |links| && links[i].parent == Some(p) && p < i
    requires forall y :: 0 <= y < |links| && !Below(links, i, y) ==>
      before[y].selected == after[y].selected && Own(before[y]) == Own(after[y])
    ensures Aggregate(links, before, p) == Aggregate(links, after, p)
    ensures before[p].selected == after[p].selected && Own(before[p]) == Own(after[p])
  {
    assert LinkedAt(links, p);
    if Below(links, i, p) { BelowIsLater(links, i, p); }
    forall k | 0 <= k < |links[p].children| ensures !Below(links, i, links[p].children[k]) {
      assert links[links[p].children[k]].parent == Some(p);
    }
    FoldFrame(before, after, links[p].children, Own(before[p]));
  }

  lemma {:induction false} NobodyTakesBack(links: seq<Link>, agents: seq<Agent>, i: nat, s: State)
    requires Fits(links, agents) && i < |links|
    requires forall p :: 0 <= p < |links| && Below(links, p, i) ==> agents[p].selected != s
    ensures !TakenBack(links, agents, i, s)
    decreases i
  {
    if links[i].parent.Some? {
      assert LinkedAt(links, i);
      var p := links[i].parent.value;
      assert Below(links, p, i);
      var t := Aggregate(links, agents, p);
      var agents' := agents[p := agents[p].(selected := t)];
      forall q | 0 <= q < |links| && Below(links, q, p) ensures agents'[q].selected != s {
        BelowIsLater(links, q, p);
        assert Below(links, q, i);
      }
      NobodyTakesBack(links, agents', p, s);
    }
  }

  /** Recomputing the ancestors of `i` releases an agent at or below `i` exactly
      when one of them leaves the forwarded state that agent holds. */
  lemma {:induction false} ClimbBelow(links: seq<Link>, w: World, i: nat, now: int, x: nat)
    requires Fits(links, w.agents) && i < |links| && x < |links| && In(links, i, x)
    ensures Climb(links, w, i, now).agents[x] ==
      if w.agents[x].selected.forward && TakenBack(links, w.agents, i, w.agents[x].selected)
      then Released(w.agents[x], now)
      else w.agents[x]
    decreases i
  {
    if links[i].parent.Some? {
      assert LinkedAt(links, i);
      var p := links[i].parent.value;
      var t := Aggregate(links, w.agents, p);
      assert Below(links, p, i);
      if x != i { BelowTransitive(links, p, i, x); }
      BelowIsLater(links, p, x);
      if t != w.agents[p].selected {
        var w1 := Change(links, w, p, t, false, now);
        if Below(links, p, p) { BelowIsLater(links, p, p); }
        ClimbBelow(links, w1, p, now, x);
        TakenBackFrame(links, w1.agents, w.agents[p := w.agents[p].(selected := t)], p, w.agents[x].selected);
      }
    }
  }

  // ----- main results

  /** Setting a forwarding state where it is not blocked: a descendant carries
      it afterwards if and only if the forward hits it or it carried the state
      before, and no ancestor takes the state back. */
  lemma {:induction false} ForwardedExactly(links: seq<Link>, w: World, a: nat, s: State, now: int, x: nat)
    requires Fits(links, w.agents) && a < |links| && x < |links| && Below(links, a, x)
    requires s.forward && Takes(links, w.agents, a, s)
    ensures Carries(SetState(links, w, a, s, now).agents[x], s) <==>
      && (Hit(links, w.agents, a, s, x) || Carries(w.agents[x], s))
      && !TakenBack(links, w.agents[a := w.agents[a].(selected := s)], a, s)
  {
    var v := SetVisits(links, w, a, s, now, x);
  }

  /** What a set of a forwarding state leaves of a descendant. */
  lemma {:induction false} SetVisits(links: seq<Link>, w: World, a: nat, s: State, now: int, x: nat) returns (v: Agent)
    requires Fits(links, w.agents) && a < |links| && x < |links| && Below(links, a, x)
    requires s.forward && Takes(links, w.agents, a, s)
    ensures Visited(w.agents[x], v, Hit(links, w.agents, a, s, x), s, now)
    ensures v.selected == s ==>
      SetState(links, w, a, s, now).agents[x] ==
        if TakenBack(links, w.agents[a := w.agents[a].(selected := s)], a, s) then Released(v, now) else v
    ensures v.selected != s ==>
      SetState(links, w, a, s, now).agents[x] == v || SetState(links, w, a, s, now).agents[x] == Released(v, now)
  {
    var w1 := Change(links, w, a, s, true, now);
    var w2 := ForwardFrom(links, w1, a, 0, s, now);
    v := w2.agents[x];
    if Below(links, a, a) { BelowIsLater(links, a, a); }
    assert FreedBy(links, w.agents, w1.agents, a);
    var m := BelowGoesThroughChild(links, a, x);
    ChildIsBelow(links, a, m);
    ForwardFromVisits(links, w1, a, 0, s, now, m, x);
    HitDescends(links, w.agents, w1.agents, a, links[a].children[m], s, x);
    ClimbBelow(links, w2, a, now, x);
    OthersUntouched(links, w, a, s, now);
    TakenBackFrame(links, w2.agents, w.agents[a := w.agents[a].(selected := s)], a, s);
  }

  /** The whole subtree carries the state afterwards if and only if no ancestor
      takes it back and every descendant is hit, or carried it already. */
  lemma {:induction false} ForwardCoversExactly(links: seq<Link>, w: World, a: nat, s: State, now: int)
    requires Fits(links, w.agents) && a < |links| && s.forward && Takes(links, w.agents, a, s)
    ensures CoveredBelow(links, SetState(links, w, a, s, now).agents, a, s) <==>
      forall x :: 0 <= x < |links| && Below(links, a, x) ==>
        && (Hit(links, w.agents, a, s, x) || Carries(w.agents[x], s))
        && !TakenBack(links, w.agents[a := w.agents[a].(selected := s)], a, s)
  {
    forall x | 0 <= x < |links| && Below(links, a, x)
      ensures Carries(SetState(links, w, a, s, now).agents[x], s) <==>
        && (Hit(links, w.agents, a, s, x) || Carries(w.agents[x], s))
        && !TakenBack(links, w.agents[a := w.agents[a].(selected := s)], a, s)
    {
      ForwardedExactly(links, w, a, s, now, x);
    }
  }

  /** Until the ancestors are recomputed, a set changes nobody outside the subtree. */
  lemma {:induction false} OthersUntouched(links: seq<Link>, w: World, a: nat, s: State, now: int)
    requires Fits(links, w.agents) && a < |links|
    ensures var w2 := ForwardFrom(links, Change(links, w, a, s, true, now), a, 0, s, now);
      && w2.agents[a].selected == s && w2.agents[a].mode.WasActivated?
      && (forall p :: 0 <= p < |links| && p != a && !Below(links, a, p) ==> w2.agents[p] == w.agents[p])
      && (forall p :: 0 <= p < |links| && Below(links, p, a) ==> p != a && !Below(links, a, p))
      && (forall x :: 0 <= x < |links| ==> Own(w2.agents[x]) == Own(w.agents[x]))
  {
    var w1 := Change(links, w, a, s, true, now);
    ForwardFrame(links, w1, a, 0, s, now, false);
    UnderIsBelow(links, a, a);
    if Below(links, a, a) { BelowIsLater(links, a, a); }
    var w2 := ForwardFrom(links, w1, a, 0, s, now);
    forall p | 0 <= p < |links| && p != a && !Below(links, a, p) ensures w2.agents[p] == w.agents[p] {
      UnderIsBelow(links, a, p);
    }
    forall p | 0 <= p < |links| && Below(links, p, a) ensures p != a && !Below(links, a, p) {
      BelowIsLater(links, p, a);
      if Below(links, a, p) { BelowIsLater(links, a, p); }
    }
  }

  /** A state that no descendant selects or computes, and no ancestor selects,
      reaches the whole subtree. */
  lemma {:induction false} ForeignStateCovers(links: seq<Link>, w: World, a: nat, s: State, now: int)
    requires Fits(links, w.agents) && a < |links| && s.forward && Takes(links, w.agents, a, s)
    requires forall p :: 0 <= p < |links| && Below(links, p, a) ==> w.agents[p].selected != s
    requires forall x :: 0 <= x < |links| && Below(links, a, x) ==>
      w.agents[x].selected != s && Own(w.agents[x]) != s
    ensures var r := SetState(links, w, a, s, now).agents;
      && r[a].selected == s && r[a].mode.WasActivated?
      && CoveredBelow(links, r, a, s)
  {
    var agents := w.agents[a := w.agents[a].(selected := s)];
    OthersUntouched(links, w, a, s, now);
    NobodyTakesBack(links, agents, a, s);
    forall x | 0 <= x < |links| && Below(links, a, x) ensures Hit(links, w.agents, a, s, x) {
      ForeignIsHit(links, w.agents, a, s, x);
    }
    ForwardCoversExactly(links, w, a, s, now);
    var w2 := ForwardFrom(links, Change(links, w, a, s, true, now), a, 0, s, now);
    ClimbBelow(links, w2, a, now, a);
    TakenBackFrame(links, w2.agents, agents, a, s);
  }

  lemma {:induction false} ForeignIsHit(links: seq<Link>, agents: seq<Agent>, a: nat, s: State, x: nat)
    requires Fits(links, agents) && a < |links| && agents[a].selected != s && x < |links| && In(links, a, x)
    requires forall y :: 0 <= y < |links| && Below(links, a, y) ==> agents[y].selected != s && Own(agents[y]) != s
    ensures Hit(links, agents, a, s, x)
    decreases x
  {
    if Below(links, a, a) { BelowIsLater(links, a, a); }
    if x != a {
      ForeignIsHit(links, agents, a, s, links[x].parent.value);
    }
  }

  /** Leaving a forwarded state for one that is not forwarded gives every
      descendant back to its own value and rearms its timer. */
  lemma {:induction false} LeavingReleases(links: seq<Link>, w: World, a: nat, f: State, s: State, now: int)
    requires Fits(links, w.agents) && a < |links| && Takes(links, w.agents, a, s)
    requires w.agents[a].selected == f && f.forward && !s.forward
    requires CoveredBelow(links, w.agents, a, f)
    ensures forall x :: 0 <= x < |links| && Below(links, a, x) ==>
      OnItsOwn(SetState(links, w, a, s, now).agents[x], now)
    ensures forall x :: 0 <= x < |links| && Below(links, a, x) ==>
      Own(SetState(links, w, a, s, now).agents[x]) == Own(w.agents[x])
  {
    var w1 := Change(links, w, a, s, true, now);
    forall x | 0 <= x < |links| && Below(links, a, x)
      ensures OnItsOwn(SetState(links, w, a, s, now).agents[x], now)
      ensures Own(SetState(links, w, a, s, now).agents[x]) == Own(w.agents[x])
    {
      BelowIsLater(links, a, x);
      ClimbBelow(links, w1, a, now, x);
    }
  }

  /** The round trip: what a forward imposed, the next ordinary state undoes. */
  lemma {:induction false} ForwardThenRelease(links: seq<Link>, w: World, a: nat, f: State, s: State, t0: int, t1: int)
    requires Fits(links, w.agents) && a < |links| && f.forward && !s.forward && Takes(links, w.agents, a, f)
    requires forall p :: 0 <= p < |links| && Below(links, p, a) ==> w.agents[p].selected != f
    requires forall x :: 0 <= x < |links| && Below(links, a, x) ==>
      w.agents[x].selected != f && Own(w.agents[x]) != f
    ensures var r := SetState(links, SetState(links, w, a, f, t0), a, s, t1).agents;
      forall x :: 0 <= x < |links| && Below(links, a, x) ==>
        OnItsOwn(r[x], t1) && r[x].selected == Own(w.agents[x])
  {
    ForeignStateCovers(links, w, a, f, t0);
    var r := SetState(links, w, a, f, t0);
    SetUnblocks(links, w, a, f, t0);
    LeavingReleases(links, r, a, f, s, t1);
    OthersUntouched(links, w, a, f, t0);
    forall x | 0 <= x < |links| && Below(links, a, x) ensures Own(r.agents[x]) == Own(w.agents[x]) {
      ClimbBelow(links, ForwardFrom(links, Change(links, w, a, f, true, t0), a, 0, f, t0), a, t0, x);
    }
  }

  /** A set that takes effect leaves the agent unblocked. */
  lemma {:induction false} SetUnblocks(links: seq<Link>, w: World, a: nat, f: State, now: int)
    requires Fits(links, w.agents) && a < |links| && Takes(links, w.agents, a, f)
    ensures !Blocked(links, SetState(links, w, a, f, now).agents, a)
  {
    assert LinkedAt(links, a);
    if links[a].parent.Some? {
      var p := links[a].parent.value;
      assert Below(links, p, a);
      var w1 := Change(links, w, a, f, true, now);
      var w2 := if f.forward then ForwardFrom(links, w1, a, 0, f, now) else w1;
      if f.forward { ForwardFrame(links, w1, a, 0, f, now, false); }
      UnderIsBelow(links, a, p);
      if Below(links, a, p) { BelowIsLater(links, a, p); }
      var computed := Aggregate(links, w2.agents, p);
      if computed != w2.agents[p].selected {
        var w3 := Change(links, w2, p, computed, false, now);
        ClimbBelow(links, w3, p, now, p);
      }
    }
  }

  // ----- what forwarding does not do

  /** The block works one level deep: while `a` forwards, its children cannot
      change state, but every agent further down can. */
  lemma {:induction false} BlockIsOneLevelDeep(links: seq<Link>, agents: seq<Agent>, a: nat, f: State, x: nat)
    requires Fits(links, agents) && a < |links| && x < |links| && Below(links, a, x)
    requires agents[a].selected == f && f.forward && agents[a].mode.WasActivated?
    requires CoveredBelow(links, agents, a, f)
    ensures Blocked(links, agents, x) <==> links[x].parent.value == a
  {
    assert LinkedAt(links, x);
    var p := links[x].parent.value;
    if p != a {
      assert Carries(agents[p], f);
    }
  }

  /** States forwarded by `start` block nobody at all. */
  lemma {:induction false} StartBlocksNobody(links: seq<Link>, w: World, now: int, i: nat)
    requires Fits(links, w.agents) && Fresh(w) && i < |links|
    ensures !Blocked(links, StartAt(links, w, 0, now).agents, i)
  {
    assert NoneActivated(w.agents);
    StartActivatesNothing(links, w, 0, 0, now, true);
    assert LinkedAt(links, i);
    assert StartAt(links, w, 0, now) == Started(links, w, 0, 0, now, true);
  }

  ghost predicate NoneActivated(agents: seq<Agent>) {
    forall x :: 0 <= x < |agents| ==> !agents[x].mode.WasActivated?
  }

  lemma {:induction false} ForwardActivatesNothing(links: seq<Link>, w: World, i: nat, k: nat, s: State, now: int,
                                                   whole: bool)
    requires Fits(links, w.agents) && i < |links| && k <= |links[i].children| && NoneActivated(w.agents)
    ensures NoneActivated(Sent(links, w, i, k, s, now, whole).agents)
    decreases |links| - i, if whole then |links[i].children| + 1 else |links[i].children| - k
  {
    if whole {
      if w.agents[i].selected != s {
        ForwardActivatesNothing(links, Entered(links, w, i, s, now), i, 0, s, now, false);
      }
    } else if k < |links[i].children| {
      ChildIsBelow(links, i, k);
      var c := links[i].children[k];
      ForwardActivatesNothing(links, w, c, 0, s, now, true);
      ForwardActivatesNothing(links, ForwardTo(links, w, c, s, now), i, k + 1, s, now, false);
    }
  }

  lemma {:induction false} StartActivatesNothing(links: seq<Link>, w: World, i: nat, k: nat, now: int, whole: bool)
    requires Fits(links, w.agents) && i < |links| && k <= |links[i].children| && NoneActivated(w.agents)
    ensures NoneActivated(Started(links, w, i, k, now, whole).agents)
    decreases |links| - i, if whole then |links[i].children| + 1 else |links[i].children| - k
  {
    if whole {
      StartActivatesNothing(links, w, i, 0, now, false);
      var w1 := StartFrom(links, w, i, 0, now);
      if Own(w1.agents[i]).forward {
        ForwardActivatesNothing(links, w1, i, 0, Own(w1.agents[i]), now, false);
      }
    } else if k < |links[i].children| {
      ChildIsBelow(links, i, k);
      var c := links[i].children[k];
      StartActivatesNothing(links, w, c, 0, now, true);
      StartActivatesNothing(links, StartAt(links, w, c, now), i, k + 1, now, false);
    }
  }

  /** A release does not aggregate again: a released agent agrees with its
      children exactly when none of them computes a worse state than it does. */
  lemma {:induction false} ReleaseDoesNotAggregate(links: seq<Link>, agents: seq<Agent>, a: nat, now: int, x: nat)
    requires Fits(links, agents) && a < |links| && x < |links| && Below(links, a, x)
    requires forall y :: 0 <= y < |links| && Below(links, a, y) ==> OnItsOwn(agents[y], now)
    ensures LinkedAt(links, x)
    ensures Exact(links, agents, x) <==>
      forall k :: 0 <= k < |links[x].children| ==>
        Own(agents[links[x].children[k]]).level <= Own(agents[x]).level
  {
    assert LinkedAt(links, x);
    forall k | 0 <= k < |links[x].children| ensures OnItsOwn(agents[links[x].children[k]], now) {
      ChildIsBelow(links, x, k);
      BelowTransitive(links, a, x, links[x].children[k]);
    }
    FoldIsWorst(agents, links[x].children, Own(agents[x]));
    if forall k :: 0 <= k < |links[x].children| ==> Own(agents[links[x].children[k]]).level <= Own(agents[x]).level {
      FoldKeeps(agents, links[x].children, Own(agents[x]));
    }
  }

  lemma {:induction false} FoldKeeps(agents: seq<Agent>, children: seq<nat>, acc: State)
    requires forall k :: 0 <= k < |children| ==> children[k] < |agents|
    requires forall k :: 0 <= k < |children| ==> agents[children[k]].selected.level <= acc.level
    ensures Fold(agents, children, acc) == acc
  {
    if children != [] {
      FoldKeeps(agents, children[1..], acc);
    }
  }

  /** A forwarded state comes back from the children: a new value whose state is
      not forwarded makes `a` leave it, and release its subtree, if and only if
      that state is at least as bad. Otherwise nothing below changes. */
  lemma {:induction false} ForwardSticksExactly(links: seq<Link>, w: World, a: nat, f: State, value: int, now: int)
    requires Fits(links, w.agents) && a < |links| && links[a].children != [] && !Blocked(links, w.agents, a)
    requires w.agents[a].selected == f && f.forward && CoveredBelow(links, w.agents, a, f)
    requires value != w.agents[a].value && !FirstMatch(w.agents[a].states, value).forward
    ensures var own := FirstMatch(w.agents[a].states, value);
      var r := SetValue(links, w, a, value, now).agents;
      && r[a].selected == (if own.level < f.level then f else own)
      && (forall x :: 0 <= x < |links| && Below(links, a, x) ==>
            if own.level < f.level then r[x] == w.agents[x] else OnItsOwn(r[x], now))
  {
    assert LinkedAt(links, a);
    var own := FirstMatch(w.agents[a].states, value);
    var u := World(
      w.agents[a := Stamped(w.agents[a].(value := value), now)],
      w.log + [Notified(a, VALUE_CHANGED)]);
    if Below(links, a, a) { BelowIsLater(links, a, a); }
    ChildrenHold(links, u.agents, a, f, own);
    assert SetValue(links, w, a, value, now) == SetState(links, u, a, Wanted(links, u.agents, a), now) by {
      assert w.agents[a := w.agents[a].(value := value)][a := Stamped(w.agents[a].(value := value), now)] == u.agents;
    }
    if own.level >= f.level {
      assert CoveredBelow(links, u.agents, a, f);
      LeavingReleases(links, u, a, f, own, now);
      ClimbBelow(links, Change(links, u, a, own, true, now), a, now, a);
    }
  }

  lemma {:induction false} ChildrenHold(links: seq<Link>, agents: seq<Agent>, a: nat, f: State, own: State)
    requires Fits(links, agents) && a < |links| && links[a].children != [] && Own(agents[a]) == own
    requires CoveredBelow(links, agents, a, f)
    ensures Aggregate(links, agents, a) == if own.level < f.level then f else own
  {
    assert LinkedAt(links, a);
    forall k | 0 <= k < |links[a].children| ensures agents[links[a].children[k]].selected == f {
      ChildIsBelow(links, a, k);
    }
    FoldIsWorst(agents, links[a].children, own);
    if own.level >= f.level {
      FoldKeeps(agents, links[a].children, own);
    } else {
      assert agents[links[a].children[0]].selected.level <= Aggregate(links, agents, a).level;
    }
  }
}
