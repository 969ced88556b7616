/** One pass of the update scheduler over the tree, and the on-demand check. */
module SchedulerPass {
  import opened Wrappers
  import opened Tree

  /** The `update` record of an agent; `running` is a time, zero when idle. */
  datatype Slot = Slot(
    timer: nat,
    onDemand: bool,
    forwarded: bool,
    next: int,
    running: int)

  /** The part of it that state changes write, on any agent of the tree. */
  datatype Clock = Clock(next: int, forwarded: bool)

  const RETRY_WHEN_RUNNING := 60

  ghost predicate Fits(links: seq<Link>, slots: seq<Slot>) {
    WellLinked(links) && |slots| == |links|
  }

  predicate Scheduled(s: Slot) {
    s.next != 0 && !s.forwarded
  }

  /** The pass queues exactly these. */
  predicate Due(s: Slot, now: int) {
    Scheduled(s) && s.next <= now && s.running == 0
  }

  /** What the pass does to the slot of an agent it visits. */
  function Marked(s: Slot, now: int): Slot {
    if !Scheduled(s) || s.next > now then s
    else if s.running != 0 then s.(next := now + RETRY_WHEN_RUNNING)
    else s.(running := now, next := if s.timer > 0 then now + s.timer else 0)
  }

  /** The slot of an agent before and after a pass has visited it. */
  predicate Visited(a: Slot, r: Slot, now: int) {
    && r.timer == a.timer && r.onDemand == a.onDemand && r.forwarded == a.forwarded
    && (a.next == 0 || a.forwarded || a.next > now ==> r.next == a.next && r.running == a.running)
    && (a.next != 0 && !a.forwarded && a.next <= now && a.running == 0 ==>
          r.running == now && r.next == if a.timer > 0 then now + a.timer else 0)
    && (a.next != 0 && !a.forwarded && a.next <= now && a.running != 0 ==>
          r.running == a.running && r.next == now + 60)
  }

  predicate DueAt(slots: seq<Slot>, x: nat, now: int) {
    x < |slots| && Due(slots[x], now)
  }

  function DueIn(slots: seq<Slot>, visits: seq<nat>, now: int): seq<nat> {
    if visits == [] then []
    else (if DueAt(slots, visits[0], now) then [visits[0]] else []) + DueIn(slots, visits[1..], now)
  }

  lemma {:induction false} DueInAppend(slots: seq<Slot>, first: seq<nat>, second: seq<nat>, now: int)
    ensures DueIn(slots, first + second, now) == DueIn(slots, first, now) + DueIn(slots, second, now)
    decreases |first|
  {
    if first == [] {
      assert first + second == second;
    } else {
      assert (first + second)[0] == first[0] && (first + second)[1..] == first[1..] + second;
      DueInAppend(slots, first[1..], second, now);
      var own := if DueAt(slots, first[0], now) then [first[0]] else [];
      var a, b := DueIn(slots, first[1..], now), DueIn(slots, second, now);
      assert own + (a + b) == (own + a) + b;
    }
  }

  lemma {:induction false} DueInFrame(before: seq<Slot>, after: seq<Slot>, visits: seq<nat>, now: int)
    requires forall x :: x in visits ==> (DueAt(before, x, now) <==> DueAt(after, x, now))
    ensures DueIn(before, visits, now) == DueIn(after, visits, now)
    decreases |visits|
  {
    if visits != [] {
      DueInFrame(before, after, visits[1..], now);
    }
  }

  /** The queue keeps the order of the visits. */
  lemma {:induction false} DueInKeepsOrder(slots: seq<Slot>, visits: seq<nat>, now: int) returns (at: seq<nat>)
    ensures |at| == |DueIn(slots, visits, now)|
    ensures forall m :: 0 <= m < |at| ==> at[m] < |visits| && visits[at[m]] == DueIn(slots, visits, now)[m]
    ensures forall m, n :: 0 <= m < n < |at| ==> at[m] < at[n]
    decreases |visits|
  {
    at := [];
    if visits != [] {
      var rest := DueInKeepsOrder(slots, visits[1..], now);
      var later := seq(|rest|, m requires 0 <= m < |rest| => rest[m] + 1);
      at := if DueAt(slots, visits[0], now) then [0] + later else later;
    }
  }

  /** The queue holds the due agents among the visited ones, each once. */
  lemma {:induction false} DueInIsExact(slots: seq<Slot>, visits: seq<nat>, now: int)
    requires forall m, n :: 0 <= m < n < |visits| ==> visits[m] != visits[n]
    ensures forall x: nat :: x in DueIn(slots, visits, now) <==> x in visits && DueAt(slots, x, now)
    ensures forall x: nat :: multiset(DueIn(slots, visits, now))[x] <= 1
    decreases |visits|
  {
    if visits != [] {
      var x0, rest := visits[0], visits[1..];
      DueInIsExact(slots, rest, now);
      var q := DueIn(slots, rest, now);
      assert x0 !in rest;
      assert visits == [x0] + rest;
      if DueAt(slots, x0, now) {
        assert DueIn(slots, visits, now) == [x0] + q;
        assert x0 !in q;
        forall x: nat ensures multiset([x0] + q)[x] <= 1 {
          if x == x0 { assert x !in multiset(q); }
        }
      } else {
        assert DueIn(slots, visits, now) == q;
      }
    }
  }

  /** Visiting child `k` of `i` and its subtree continues the queue. */
  lemma {:induction false} QueueStep(links: seq<Link>, was: seq<Slot>, before: seq<Slot>, i: nat, k: nat, now: int)
    requires Fits(links, was) && Fits(links, before) && i < |links| && k < |links[i].children|
    requires forall x :: 0 <= x < |links| && !Passed(links, i, k, x) ==> before[x] == was[x]
    ensures links[i].children[k] < |links|
    ensures DueIn(was, Walk(links, i, k), now) ==
      DueIn(before, Walk(links, links[i].children[k], 0), now)
      + (if Due(before[links[i].children[k]], now) then [links[i].children[k]] else [])
      + DueIn(was, Walk(links, i, k + 1), now)
  {
    ChildIsBelow(links, i, k);
    var c := links[i].children[k];
    var inner := Walk(links, c, 0);
    PassedStep(links, i, k, c);
    forall x | x in inner ensures DueAt(before, x, now) <==> DueAt(was, x, now) {
      WalkIsTheSubtree(links, c);
      PassedStep(links, i, k, x);
    }
    DueInFrame(before, was, inner, now);
    DueInAppend(was, inner, [c], now);
    DueInAppend(was, inner + [c], Walk(links, i, k + 1), now);
    assert DueIn(was, [c], now) == if Due(before[c], now) then [c] else [];
  }

  // ----- the pass as a whole

  /** The agents one pass over the tree queues, in order. */
  function Queue(links: seq<Link>, slots: seq<Slot>, now: int): seq<nat>
    requires Fits(links, slots)
  {
    DueIn(slots, Walk(links, 0, 0), now)
  }

  /** The slots after one pass over the tree. */
  function Pass(links: seq<Link>, slots: seq<Slot>, now: int): (r: seq<Slot>)
    ensures |r| == |slots|
  {
    seq(|slots|, x requires 0 <= x < |slots| =>
      if Below(links, 0, x) then Marked(slots[x], now) else slots[x])
  }

  lemma {:induction false} QueueIsExact(links: seq<Link>, slots: seq<Slot>, now: int)
    requires Fits(links, slots)
    ensures forall x: nat :: x in Queue(links, slots, now) <==>
      && 0 < x < |links| && slots[x].next != 0 && !slots[x].forwarded && slots[x].next <= now && slots[x].running == 0
    ensures forall x: nat :: multiset(Queue(links, slots, now))[x] <= 1
  {
    WalkIsTheSubtree(links, 0);
    DueInIsExact(slots, Walk(links, 0, 0), now);
    forall x: nat ensures x in Walk(links, 0, 0) <==> 0 < x < |links| {
      if 0 < x < |links| { AllBelowRoot(links, x); }
      if Below(links, 0, x) { BelowIsLater(links, 0, x); }
    }
  }

  function Min(a: int, b: int): int {
    if a < b then a else b
  }

  /** `t` bounds the scheduled times of the visited agents and is one of them,
      unless it is still the initial bound. */
  ghost predicate Tight(links: seq<Link>, slots: seq<Slot>, i: nat, k: nat, bound: int, t: int)
    requires Fits(links, slots) && i < |links|
  {
    && t <= bound
    && (forall x :: 0 <= x < |links| && Passed(links, i, k, x) && Scheduled(slots[x]) ==> t <= slots[x].next)
    && (t == bound
        || exists x :: 0 <= x < |links| && Passed(links, i, k, x) && Scheduled(slots[x]) && t == slots[x].next)
  }

  /** The same for the proper descendants of `i`, and for `i` itself if `whole`. */
  ghost predicate TightBelow(links: seq<Link>, slots: seq<Slot>, i: nat, whole: bool, bound: int, t: int)
    requires Fits(links, slots) && i < |links|
  {
    && t <= bound
    && (forall x :: 0 <= x < |links| && (Below(links, i, x) || (whole && x == i)) && Scheduled(slots[x]) ==>
          t <= slots[x].next)
    && (t == bound
        || exists x :: 0 <= x < |links| && (Below(links, i, x) || (whole && x == i)) && Scheduled(slots[x])
             && t == slots[x].next)
  }

  lemma {:induction false} TightStep(links: seq<Link>, before: seq<Slot>, after: seq<Slot>, i: nat, k: nat,
                  bound: int, t0: int, t1: int)
    requires Fits(links, before) && Fits(links, after)
    requires i < |links| && k < |links[i].children| && links[i].children[k] < |links|
    requires Tight(links, before, i, k, bound, t0)
    requires TightBelow(links, after, links[i].children[k], true, t0, t1)
    requires forall x :: 0 <= x < |links| && !Below(links, links[i].children[k], x) && x != links[i].children[k] ==>
      after[x] == before[x]
    ensures Tight(links, after, i, k + 1, bound, t1)
  {
    var c := links[i].children[k];
    forall x | 0 <= x < |links|
      ensures Passed(links, i, k + 1, x) <==> (Passed(links, i, k, x) || x == c || Below(links, c, x))
      ensures Passed(links, i, k, x) ==> after[x] == before[x]
    {
      PassedStep(links, i, k, x);
    }
  }

  /** The traversal of `i` has marked what comes before child `k`, nothing else. */
  ghost predicate VisitedTo(links: seq<Link>, was: seq<Slot>, slots: seq<Slot>, i: nat, k: nat, now: int)
    requires Fits(links, was) && Fits(links, slots) && i < |links|
  {
    forall x :: 0 <= x < |links| ==>
      slots[x] == if Passed(links, i, k, x) then Marked(was[x], now) else was[x]
  }

  lemma {:induction false} VisitedStep(links: seq<Link>, was: seq<Slot>, before: seq<Slot>, after: seq<Slot>, i: nat, k: nat, now: int)
    requires Fits(links, was) && Fits(links, before) && Fits(links, after)
    requires i < |links| && k < |links[i].children|
    requires VisitedTo(links, was, before, i, k, now)
    requires var c := links[i].children[k];
      forall x :: 0 <= x < |links| ==>
        after[x] == if Below(links, c, x) || x == c then Marked(before[x], now) else before[x]
    ensures VisitedTo(links, was, after, i, k + 1, now)
  {
    forall x | 0 <= x < |links|
      ensures after[x] == if Passed(links, i, k + 1, x) then Marked(was[x], now) else was[x]
    {
      PassedStep(links, i, k, x);
    }
  }

  lemma {:induction false} QueueEnds(links: seq<Link>, was: seq<Slot>, i: nat, now: int)
    requires Fits(links, was) && i < |links|
    ensures DueIn(was, Walk(links, i, |links[i].children|), now) == []
  {
  }

  lemma {:induction false} VisitedAll(links: seq<Link>, was: seq<Slot>, slots: seq<Slot>, i: nat, now: int, bound: int, t: int)
    requires Fits(links, was) && Fits(links, slots) && i < |links|
    requires VisitedTo(links, was, slots, i, |links[i].children|, now)
    requires Tight(links, slots, i, |links[i].children|, bound, t)
    ensures TightBelow(links, slots, i, false, bound, t)
    ensures forall x :: 0 <= x < |links| ==>
      slots[x] == if Below(links, i, x) then Marked(was[x], now) else was[x]
  {
    forall x | 0 <= x < |links| ensures Passed(links, i, |links[i].children|, x) <==> Below(links, i, x) {
      UnderIsBelow(links, i, x);
    }
  }

  class Controller {
    const links: seq<Link>
    var slots: seq<Slot>
    var refreshed: seq<nat>

    constructor (links: seq<Link>, slots: seq<Slot>)
      requires Fits(links, slots)
      ensures this.links == links && this.slots == slots && refreshed == []
    {
      this.links := links;
      this.slots := slots;
      this.refreshed := [];
    }

    ghost predicate Valid()
      reads this
    {
      Fits(links, slots)
    }

    /** The body that the pass runs on every agent. */
    method Visit(c: nat, now: int, list: seq<nat>, next: int) returns (list': seq<nat>, next': int)
      requires Valid() && c < |links| && now > 0
      modifies this`slots
      ensures slots == old(slots)[c := Marked(old(slots)[c], now)]
      ensures Visited(old(slots)[c], slots[c], now)
      ensures list' == list + (if Due(old(slots)[c], now) then [c] else [])
      ensures next' == if Scheduled(slots[c]) then Min(next, slots[c].next) else next
    {
      list', next' := list, next;
      if slots[c].next == 0 || slots[c].forwarded {
        return;
      }
      if slots[c].next <= now {
        if slots[c].running != 0 {
          slots := slots[c := slots[c].(next := now + RETRY_WHEN_RUNNING)];
          next' := Min(next, slots[c].next);
        } else {
          slots := slots[c := slots[c].(running := now)];
          list' := list + [c];
          if slots[c].timer > 0 {
            slots := slots[c := slots[c].(next := now + slots[c].timer)];
            next' := Min(next, slots[c].next);
          } else {
            slots := slots[c := slots[c].(next := 0)];
          }
        }
      } else {
        next' := Min(next, slots[c].next);
      }
    }

    /** One turn of the loop of `for_each`: a child's subtree, then the child. */
    method VisitChild(c: nat, now: int, list: seq<nat>, next: int) returns (list': seq<nat>, next': int)
      requires Valid() && c < |links| && now > 0
      modifies this`slots
      ensures Valid()
      ensures forall x :: 0 <= x < |links| ==>
        slots[x] == if Below(links, c, x) || x == c then Marked(old(slots)[x], now) else old(slots)[x]
      ensures list' == list + DueIn(old(slots), Walk(links, c, 0), now) + (if Due(old(slots)[c], now) then [c] else [])
      ensures TightBelow(links, slots, c, true, next, next')
      decreases |links| - c, 1
    {
      list', next' := list, next;
      if |links[c].children| > 0 {
        list', next' := VisitBelow(c, now, list', next');
      } else {
        NoChildrenNothingBelow(links, c);
      }
      if Below(links, c, c) { BelowIsLater(links, c, c); }
      list', next' := Visit(c, now, list', next');
    }

    /** `for_each` over the proper descendants of `i` with that body. */
    method VisitBelow(i: nat, now: int, list: seq<nat>, next: int) returns (list': seq<nat>, next': int)
      requires Valid() && i < |links| && now > 0
      modifies this`slots
      ensures Valid()
      ensures forall x :: 0 <= x < |links| ==>
        slots[x] == if Below(links, i, x) then Marked(old(slots)[x], now) else old(slots)[x]
      ensures list' == list + DueIn(old(slots), Walk(links, i, 0), now)
      ensures TightBelow(links, slots, i, false, next, next')
      decreases |links| - i, 0
    {
      hide DueIn, Walk, Below, Due, Marked;
      list', next' := list, next;
      ghost var was, queue := slots, list + DueIn(slots, Walk(links, i, 0), now);
      var k := 0;
      while k < |links[i].children|
        invariant k <= |links[i].children| && Valid()
        invariant VisitedTo(links, was, slots, i, k, now)
        invariant list' + DueIn(was, Walk(links, i, k), now) == queue
        invariant Tight(links, slots, i, k, next, next')
      {
        ghost var before, t0, list0 := slots, next', list';
        ChildIsBelow(links, i, k);
        QueueStep(links, was, before, i, k, now);
        var c := links[i].children[k];
        ghost var d := DueIn(before, Walk(links, c, 0), now);
        ghost var e: seq<nat> := if Due(before[c], now) then [c] else [];
        ghost var r := DueIn(was, Walk(links, i, k + 1), now);
        assert list0 + (d + e + r) == (list0 + d + e) + r;
        list', next' := VisitChild(c, now, list', next');
        TightStep(links, before, slots, i, k, next, t0, next');
        VisitedStep(links, was, before, slots, i, k, now);
        k := k + 1;
      }
      QueueEnds(links, was, i, now);
      VisitedAll(links, was, slots, i, now, next, next');
    }

    /** The guarded traversal of `update_agents`, and the timer it sets. */
    method UpdateAgents(now: int, minUpdateTime: int) returns (list: seq<nat>, interval: int, ghost wake: int)
      requires Valid() && now > 0
      modifies this`slots
      ensures Valid()
      ensures slots == Pass(links, old(slots), now) && list == Queue(links, old(slots), now)
      ensures slots[0] == old(slots)[0] && forall x :: 0 < x < |links| ==> Visited(old(slots)[x], slots[x], now)
      ensures forall x: nat :: x in list <==>
        && 0 < x < |links| && old(slots)[x].next != 0 && !old(slots)[x].forwarded
        && old(slots)[x].next <= now && old(slots)[x].running == 0
      ensures forall x: nat :: multiset(list)[x] <= 1
      ensures forall x :: 0 < x < |links| && slots[x].next != 0 && !slots[x].forwarded ==>
        slots[x].next > now && 0 < interval <= (slots[x].next - now) * 1000
      ensures TightBelow(links, slots, 0, false, now + minUpdateTime, wake)
      ensures interval == if now < wake then (wake - now) * 1000 else 1000
    {
      var next;
      list, next := VisitBelow(0, now, [], now + minUpdateTime);
      interval := if now < next then (next - now) * 1000 else 1000;
      wake := next;
      if Below(links, 0, 0) { BelowIsLater(links, 0, 0); }
      QueueIsExact(links, old(slots), now);
      forall x | 0 < x < |links| ensures Below(links, 0, x) {
        AllBelowRoot(links, x);
      }
    }

    /** The on-demand check; `refresh` is what the refresh of an agent, and the
        `failed` after one that throws, does to the clocks of the whole tree. */
    method Chk4Refresh(i: nat, forward: bool, now: int, refresh: (nat, seq<Clock>) -> seq<Clock>)
      requires Valid() && i < |links| && now > 0
      modifies this`slots, this`refreshed
      ensures Valid()
      ensures refreshed == old(refreshed) + CheckOrder(links, old(slots), i, forward)
      ensures slots == Rewritten(old(slots),
        ClocksAfter(Clocks(old(slots)), CheckOrder(links, old(slots), i, forward), refresh))
      decreases |links| - i, 1
    {
      hide CheckOrder, CheckFrom, Clocks, ClocksAfter, Rewritten;
      ghost var was := slots;
      CheckOrderIs(links, was, i, forward);
      if slots[i].running != 0 {
        NothingRefreshed(slots, refresh);
        return;
      }
      if slots[i].onDemand {
        slots := slots[i := slots[i].(running := now)];
        refreshed := refreshed + [i];
        slots := Rewritten(slots, refresh(i, Clocks(slots)));
      }
      ghost var base, own := slots, if was[i].onDemand then [i] else [];
      CheckStarts(was, base, i, now, refresh);
      if forward {
        CheckChildren(i, now, refresh);
        CheckFromFrame(links, was, base, i, 0);
        ClocksAfterBoth(Clocks(was), own, CheckFrom(links, was, i, 0), refresh);
      } else {
        NothingRefreshed(base, refresh);
      }
      CheckEnds(was, base, i, ClocksAfter(Clocks(was), CheckOrder(links, was, i, forward), refresh));
      slots := slots[i := slots[i].(running := 0)];
    }

    /** The loop of the check over the children. */
    method CheckChildren(i: nat, now: int, refresh: (nat, seq<Clock>) -> seq<Clock>)
      requires Valid() && i < |links| && now > 0
      modifies this`slots, this`refreshed
      ensures Valid()
      ensures refreshed == old(refreshed) + CheckFrom(links, old(slots), i, 0)
      ensures slots == Rewritten(old(slots),
        ClocksAfter(Clocks(old(slots)), CheckFrom(links, old(slots), i, 0), refresh))
      decreases |links| - i, 0
    {
      hide CheckOrder, CheckFrom, ClocksAfter;
      ghost var was := slots;
      ghost var done: seq<nat> := [];
      NothingRefreshed(slots, refresh);
      var k := 0;
      while k < |links[i].children|
        invariant k <= |links[i].children| && Valid()
        invariant done + CheckFrom(links, was, i, k) == CheckFrom(links, was, i, 0)
        invariant refreshed == old(refreshed) + done
        invariant slots == Rewritten(was, ClocksAfter(Clocks(was), done, refresh))
      {
        ChildIsBelow(links, i, k);
        var c := links[i].children[k];
        CheckOrderFrame(links, was, slots, c, true);
        CheckFromIs(links, was, i, k);
        ghost var more := CheckOrder(links, was, c, true);
        ClocksAfterBoth(Clocks(was), done, more, refresh);
        RewrittenTwice(was, ClocksAfter(Clocks(was), done, refresh), ClocksAfter(Clocks(was), done + more, refresh));
        assert (done + more) + CheckFrom(links, was, i, k + 1) == done + (more + CheckFrom(links, was, i, k + 1));
        Chk4Refresh(c, true, now, refresh);
        done := done + more;
        k := k + 1;
      }
      CheckFromIs(links, was, i, k);
      assert done + [] == done;
    }
  }

  // ----- what the on-demand check does

  function Clocks(slots: seq<Slot>): (r: seq<Clock>)
    ensures |r| == |slots|
  {
    seq(|slots|, x requires 0 <= x < |slots| => Clock(slots[x].next, slots[x].forwarded))
  }

  /** The slots with other clocks; `running` and the settings stay. */
  function Rewritten(slots: seq<Slot>, clocks: seq<Clock>): (r: seq<Slot>)
    ensures |r| == |slots|
  {
    seq(|slots|, x requires 0 <= x < |slots| =>
      if x < |clocks| then slots[x].(next := clocks[x].next, forwarded := clocks[x].forwarded) else slots[x])
  }

  /** The agents that the check on `i` refreshes, in order. */
  function CheckOrder(links: seq<Link>, slots: seq<Slot>, i: nat, forward: bool): seq<nat>
    requires Fits(links, slots) && i < |links|
    decreases |links| - i, |links[i].children| + 1
  {
    if slots[i].running != 0 then []
    else (if slots[i].onDemand then [i] else []) + (if forward then CheckFrom(links, slots, i, 0) else [])
  }

  function CheckFrom(links: seq<Link>, slots: seq<Slot>, i: nat, k: nat): seq<nat>
    requires Fits(links, slots) && i < |links| && k <= |links[i].children|
    decreases |links| - i, |links[i].children| - k
  {
    if k == |links[i].children| then []
    else
      assert LinkedAt(links, i);
      CheckOrder(links, slots, links[i].children[k], true) + CheckFrom(links, slots, i, k + 1)
  }

  /** The clocks after these refreshes, one after the other. */
  function ClocksAfter(clocks: seq<Clock>, order: seq<nat>, refresh: (nat, seq<Clock>) -> seq<Clock>): (r: seq<Clock>)
    ensures |r| == |clocks|
    decreases |order|
  {
    if order == [] then clocks
    else
      var c := refresh(order[0], clocks);
      ClocksAfter(seq(|clocks|, x requires 0 <= x < |clocks| => if x < |c| then c[x] else clocks[x]), order[1..], refresh)
  }

  /** No agent from `x` up to `i` was running. */
  predicate OpenPath(links: seq<Link>, slots: seq<Slot>, i: nat, x: nat)
    requires Fits(links, slots) && x < |links| && (x == i || Below(links, i, x))
    decreases x
  {
    slots[x].running == 0 && (x == i || OpenPath(links, slots, i, links[x].parent.value))
  }

  /** The check on `i` refreshes `x`: an on-demand agent at `i`, or below it when
      the check is forwarded, with no running agent on the way. */
  predicate Reached(links: seq<Link>, slots: seq<Slot>, i: nat, forward: bool, x: nat)
    requires Fits(links, slots) && x < |links|
  {
    && (x == i || (forward && Below(links, i, x)))
    && OpenPath(links, slots, i, x)
    && slots[x].onDemand
  }

  /** The check refreshes exactly the agents it reaches, each once. */
  lemma {:induction false} CheckIsExact(links: seq<Link>, slots: seq<Slot>, i: nat, forward: bool)
    requires Fits(links, slots) && i < |links|
    ensures forall x: nat :: x in CheckOrder(links, slots, i, forward) <==>
      x < |links| && Reached(links, slots, i, forward, x)
    ensures forall x: nat :: multiset(CheckOrder(links, slots, i, forward))[x] <= 1
    decreases |links| - i, |links[i].children| + 1
  {
    hide CheckFrom;
    var order := CheckOrder(links, slots, i, forward);
    if slots[i].running == 0 {
      CheckFromIsExact(links, slots, i, 0);
      if Below(links, i, i) { BelowIsLater(links, i, i); }
      forall x: nat ensures x in order <==> x < |links| && Reached(links, slots, i, forward, x) {
        if x < |links| { UnderIsBelow(links, i, x); }
      }
      var own, rest := if slots[i].onDemand then [i] else [], if forward then CheckFrom(links, slots, i, 0) else [];
      assert order == own + rest;
      UnderIsBelow(links, i, i);
      assert i !in rest;
      AppendOnce(own, rest);
    } else {
      forall x: nat | x < |links| && Reached(links, slots, i, forward, x) ensures false {
        OpenPathEnds(links, slots, i, x);
      }
    }
  }

  lemma {:induction false} CheckFromIsExact(links: seq<Link>, slots: seq<Slot>, i: nat, k: nat)
    requires Fits(links, slots) && i < |links| && k <= |links[i].children| && slots[i].running == 0
    ensures forall x: nat :: x in CheckFrom(links, slots, i, k) <==>
      x < |links| && Under(links, i, k, x) && Reached(links, slots, i, true, x)
    ensures forall x: nat :: multiset(CheckFrom(links, slots, i, k))[x] <= 1
    decreases |links| - i, |links[i].children| - k
  {
    hide CheckOrder;
    if k < |links[i].children| {
      ChildIsBelow(links, i, k);
      var c := links[i].children[k];
      var first, rest := CheckOrder(links, slots, c, true), CheckFrom(links, slots, i, k + 1);
      CheckIsExact(links, slots, c, true);
      CheckFromIsExact(links, slots, i, k + 1);
      assert CheckFrom(links, slots, i, k) == first + rest;
      forall x: nat
        ensures x in first + rest <==> x < |links| && Under(links, i, k, x) && Reached(links, slots, i, true, x)
        ensures !(x in first && x in rest)
      {
        if x < |links| {
          UnderStep(links, i, k, x);
          if x == c || Below(links, c, x) { OpenPathSplit(links, slots, i, c, x); }
        }
      }
      AppendOnce(first, rest);
    }
  }

  lemma {:induction false} AppendOnce(a: seq<nat>, b: seq<nat>)
    requires forall x: nat :: !(x in a && x in b)
    requires (forall x: nat :: multiset(a)[x] <= 1) && forall x: nat :: multiset(b)[x] <= 1
    ensures forall x: nat :: multiset(a + b)[x] <= 1
  {
    forall x: nat ensures multiset(a + b)[x] <= 1 {
      assert multiset(a + b) == multiset(a) + multiset(b);
      assert x in a <==> x in multiset(a);
      assert x in b <==> x in multiset(b);
    }
  }

  lemma {:induction false} OpenPathSplit(links: seq<Link>, slots: seq<Slot>, i: nat, c: nat, x: nat)
    requires Fits(links, slots) && i < |links| && c < |links| && links[c].parent == Some(i)
    requires x < |links| && (x == c || Below(links, c, x))
    ensures Below(links, i, x)
    ensures OpenPath(links, slots, i, x) <==> OpenPath(links, slots, c, x) && slots[i].running == 0
    decreases x
  {
    assert LinkedAt(links, c);
    assert Below(links, i, c);
    if x != c {
      BelowTransitive(links, i, c, x);
      BelowIsLater(links, c, x);
      OpenPathSplit(links, slots, i, c, links[x].parent.value);
    }
    BelowIsLater(links, i, x);
    if Below(links, i, i) { BelowIsLater(links, i, i); }
  }

  lemma {:induction false} OpenPathEnds(links: seq<Link>, slots: seq<Slot>, i: nat, x: nat)
    requires Fits(links, slots) && i < |links| && x < |links| && (x == i || Below(links, i, x))
    requires OpenPath(links, slots, i, x)
    ensures slots[i].running == 0
    decreases x
  {
    if x != i {
      OpenPathEnds(links, slots, i, links[x].parent.value);
    }
  }

  // ----- its proof

  lemma {:induction false} NothingRefreshed(slots: seq<Slot>, refresh: (nat, seq<Clock>) -> seq<Clock>)
    ensures ClocksAfter(Clocks(slots), [], refresh) == Clocks(slots)
    ensures Rewritten(slots, Clocks(slots)) == slots
  {
  }

  lemma {:induction false} RewrittenTwice(slots: seq<Slot>, first: seq<Clock>, second: seq<Clock>)
    requires |first| == |second| == |slots|
    ensures Clocks(Rewritten(slots, first)) == first
    ensures Rewritten(Rewritten(slots, first), second) == Rewritten(slots, second)
  {
  }

  lemma {:induction false} ClocksAfterBoth(clocks: seq<Clock>, a: seq<nat>, b: seq<nat>,
                                           refresh: (nat, seq<Clock>) -> seq<Clock>)
    ensures ClocksAfter(clocks, a + b, refresh) == ClocksAfter(ClocksAfter(clocks, a, refresh), b, refresh)
    decreases |a|
  {
    if a == [] {
      assert a + b == b;
    } else {
      assert (a + b)[1..] == a[1..] + b;
      var c := refresh(a[0], clocks);
      ClocksAfterBoth(seq(|clocks|, x requires 0 <= x < |clocks| => if x < |c| then c[x] else clocks[x]), a[1..], b, refresh);
    }
  }

  /** What one refresh writes is what the clocks are afterwards. */
  lemma {:induction false} OneRefresh(clocks: seq<Clock>, a: nat, refresh: (nat, seq<Clock>) -> seq<Clock>)
    requires |refresh(a, clocks)| == |clocks|
    ensures ClocksAfter(clocks, [a], refresh) == refresh(a, clocks)
    ensures ClocksAfter(clocks, [], refresh) == clocks
  {
    assert [a][1..] == [];
  }

  /** Marking `i` and refreshing it. */
  lemma {:induction false} CheckStarts(was: seq<Slot>, slots: seq<Slot>, i: nat, now: int,
                                       refresh: (nat, seq<Clock>) -> seq<Clock>)
    requires i < |was| && was[i].running == 0
    requires slots ==
      if was[i].onDemand
      then
        var marked := was[i := was[i].(running := now)];
        Rewritten(marked, refresh(i, Clocks(marked)))
      else was
    ensures SettingsAgree(was, slots, i)
    ensures Clocks(slots) == ClocksAfter(Clocks(was), if was[i].onDemand then [i] else [], refresh)
  {
    if was[i].onDemand {
      var marked := was[i := was[i].(running := now)];
      assert Clocks(marked) == Clocks(was);
      assert [i][1..] == [];
    }
  }

  predicate SettingsAgree(was: seq<Slot>, slots: seq<Slot>, but: nat) {
    && |slots| == |was|
    && forall x :: 0 <= x < |was| ==>
         && slots[x].onDemand == was[x].onDemand && slots[x].timer == was[x].timer
         && (x != but ==> slots[x].running == was[x].running)
  }

  lemma {:induction false} CheckEnds(was: seq<Slot>, slots: seq<Slot>, i: nat, clocks: seq<Clock>)
    requires i < |was| && was[i].running == 0 && SettingsAgree(was, slots, i) && |clocks| == |was|
    ensures Rewritten(slots, clocks)[i := Rewritten(slots, clocks)[i].(running := 0)] == Rewritten(was, clocks)
  {
  }

  /** A check refreshes the agent itself before what is below it... */
  lemma {:induction false} CheckOrderIs(links: seq<Link>, slots: seq<Slot>, i: nat, forward: bool)
    requires Fits(links, slots) && i < |links|
    ensures CheckOrder(links, slots, i, forward) ==
      if slots[i].running != 0 then []
      else
        var own := if slots[i].onDemand then [i] else [];
        if forward then own + CheckFrom(links, slots, i, 0) else own
  {
  }

  /** ... and what is below a child before what is below later children. */
  lemma {:induction false} CheckFromIs(links: seq<Link>, slots: seq<Slot>, i: nat, k: nat)
    requires Fits(links, slots) && i < |links| && k <= |links[i].children|
    ensures k == |links[i].children| ==> CheckFrom(links, slots, i, k) == []
    ensures k < |links[i].children| ==>
      && links[i].children[k] < |links|
      && CheckFrom(links, slots, i, k) ==
           CheckOrder(links, slots, links[i].children[k], true) + CheckFrom(links, slots, i, k + 1)
  {
    assert LinkedAt(links, i);
  }

  /** Agents before `i` do not matter to a check on `i`. */
  lemma {:induction false} CheckOrderFrame(links: seq<Link>, before: seq<Slot>, after: seq<Slot>, i: nat, forward: bool)
    requires Fits(links, before) && Fits(links, after) && i < |links|
    requires forall x :: i <= x < |links| ==>
      before[x].onDemand == after[x].onDemand && before[x].running == after[x].running
    ensures CheckOrder(links, before, i, forward) == CheckOrder(links, after, i, forward)
    decreases |links| - i, |links[i].children| + 1
  {
    CheckFromFrame(links, before, after, i, 0);
  }

  lemma {:induction false} CheckFromFrame(links: seq<Link>, before: seq<Slot>, after: seq<Slot>, i: nat, k: nat)
    requires Fits(links, before) && Fits(links, after) && i < |links| && k <= |links[i].children|
    requires forall x :: i < x < |links| ==>
      before[x].onDemand == after[x].onDemand && before[x].running == after[x].running
    ensures CheckFrom(links, before, i, k) == CheckFrom(links, after, i, k)
    decreases |links| - i, |links[i].children| - k
  {
    if k < |links[i].children| {
      ChildIsBelow(links, i, k);
      CheckOrderFrame(links, before, after, links[i].children[k], true);
      CheckFromFrame(links, before, after, i, k + 1);
    }
  }

  lemma {:induction false} NoChildrenNothingBelow(links: seq<Link>, c: nat)
    requires WellLinked(links) && c < |links| && links[c].children == []
    ensures forall x: nat :: !Below(links, c, x)
    ensures Walk(links, c, 0) == []
  {
    forall x: nat | Below(links, c, x) ensures false {
      var _ := BelowGoesThroughChild(links, c, x);
    }
  }
}
