/** The shape of the agent tree: parent pointers and ordered child lists.

    Agents are numbered so that a parent comes before its children; agent 0 is
    the root. Every finite tree can be numbered this way, and the numbering is
    what bounds the source's recursion down the children and its loops up the
    parents. */
module Tree {
  import opened Wrappers

  datatype Link = Link(parent: Option<nat>, children: seq<nat>)

  /** Parent pointers and child lists describe the same single tree. */
  ghost predicate WellLinked(links: seq<Link>) {
    && |links| > 0
    && forall i :: 0 <= i < |links| ==> LinkedAt(links, i)
  }

  ghost predicate LinkedAt(links: seq<Link>, i: nat)
    requires i < |links|
  {
    && (links[i].parent.None? <==> i == 0)
    && (links[i].parent.Some? ==>
          links[i].parent.value < i && i in links[links[i].parent.value].children)
    && (forall k :: 0 <= k < |links[i].children| ==>
          && i < links[i].children[k] < |links|
          && links[links[i].children[k]].parent == Some(i))
    && (forall k, m :: 0 <= k < m < |links[i].children| ==>
          links[i].children[k] != links[i].children[m])
  }

  /** `x` is a proper descendant of `a`. */
  predicate Below(links: seq<Link>, a: nat, x: nat)
    decreases x
  {
    && x < |links|
    && links[x].parent.Some?
    && links[x].parent.value < x
    && (links[x].parent.value == a || Below(links, a, links[x].parent.value))
  }

  /** The agents visited by `for_each` from the `k`-th child of `i` on: each
      child's subtree first, then the child itself. */
  function Walk(links: seq<Link>, i: nat, k: nat): seq<nat>
    requires WellLinked(links) && i < |links| && k <= |links[i].children|
    decreases |links| - i, |links[i].children| - k
  {
    if k == |links[i].children| then []
    else
      assert LinkedAt(links, i);
      var c := links[i].children[k];
      Walk(links, c, 0) + [c] + Walk(links, i, k + 1)
  }

  lemma {:induction false} BelowIsLater(links: seq<Link>, a: nat, x: nat)
    requires WellLinked(links) && Below(links, a, x)
    ensures a < x < |links|
    decreases x
  {
    if links[x].parent.value != a {
      BelowIsLater(links, a, links[x].parent.value);
    }
  }

  lemma {:induction false} BelowTransitive(links: seq<Link>, a: nat, b: nat, x: nat)
    requires Below(links, a, b) && Below(links, b, x)
    ensures Below(links, a, x)
    decreases x
  {
    if links[x].parent.value != b {
      BelowTransitive(links, a, b, links[x].parent.value);
    }
  }

  /** Two ancestors of the same agent are the same or one is above the other. */
  lemma {:induction false} AncestorsAreOrdered(links: seq<Link>, a: nat, b: nat, x: nat)
    requires WellLinked(links) && Below(links, a, x) && Below(links, b, x)
    ensures a == b || Below(links, a, b) || Below(links, b, a)
    decreases x
  {
    var p := links[x].parent.value;
    if p != a && p != b {
      AncestorsAreOrdered(links, a, b, p);
    }
  }

  lemma {:induction false} ChildIsBelow(links: seq<Link>, i: nat, k: nat)
    requires WellLinked(links) && i < |links| && k < |links[i].children|
    ensures i < links[i].children[k] < |links|
    ensures Below(links, i, links[i].children[k])
    ensures links[links[i].children[k]].parent == Some(i)
  {
    assert LinkedAt(links, i);
  }

  /** Subtrees of different children of one agent do not meet. */
  lemma {:induction false} SiblingsAreApart(links: seq<Link>, i: nat, k: nat, m: nat, x: nat)
    requires WellLinked(links) && i < |links|
    requires k < |links[i].children| && m < |links[i].children| && k != m
    requires x == links[i].children[k] || Below(links, links[i].children[k], x)
    ensures x != links[i].children[m] && !Below(links, links[i].children[m], x)
  {
    var c, d := links[i].children[k], links[i].children[m];
    ChildIsBelow(links, i, k);
    ChildIsBelow(links, i, m);
    assert c != d by { assert LinkedAt(links, i); }
    if x == d {
      BelowIsLater(links, i, c);
      assert Below(links, c, i);
      BelowIsLater(links, c, i);
    } else if Below(links, d, x) {
      if x == c {
        assert Below(links, d, i);
        BelowIsLater(links, d, i);
      } else {
        AncestorsAreOrdered(links, c, d, x);
        assert Below(links, c, i) || Below(links, d, i);
        if Below(links, c, i) { BelowIsLater(links, c, i); } else { BelowIsLater(links, d, i); }
      }
    }
  }

  /** Everything below `i` is one of its children or below one of them. */
  lemma {:induction false} BelowGoesThroughChild(links: seq<Link>, i: nat, x: nat) returns (k: nat)
    requires WellLinked(links) && i < |links| && Below(links, i, x)
    ensures k < |links[i].children|
    ensures x == links[i].children[k] || Below(links, links[i].children[k], x)
    decreases x
  {
    assert LinkedAt(links, x);
    if links[x].parent.value == i {
      k :| 0 <= k < |links[i].children| && links[i].children[k] == x;
    } else {
      k := BelowGoesThroughChild(links, i, links[x].parent.value);
    }
  }

  /** `x` is at or below one of the children of `i` from the `k`-th on. */
  ghost predicate Under(links: seq<Link>, i: nat, k: nat, x: nat)
    requires i < |links|
  {
    exists m :: k <= m < |links[i].children|
      && (x == links[i].children[m] || Below(links, links[i].children[m], x))
  }

  lemma {:induction false} UnderIsBelow(links: seq<Link>, i: nat, x: nat)
    requires WellLinked(links) && i < |links|
    ensures Under(links, i, 0, x) <==> Below(links, i, x)
  {
    if Below(links, i, x) {
      var k := BelowGoesThroughChild(links, i, x);
    }
    if Under(links, i, 0, x) {
      var m :| 0 <= m < |links[i].children|
        && (x == links[i].children[m] || Below(links, links[i].children[m], x));
      ChildIsBelow(links, i, m);
      if x != links[i].children[m] {
        BelowTransitive(links, i, links[i].children[m], x);
      }
    }
  }

  lemma {:induction false} UnderStep(links: seq<Link>, i: nat, k: nat, x: nat)
    requires WellLinked(links) && i < |links| && k < |links[i].children|
    ensures Under(links, i, k, x) <==>
              (x == links[i].children[k] || Below(links, links[i].children[k], x) || Under(links, i, k + 1, x))
    ensures (x == links[i].children[k] || Below(links, links[i].children[k], x)) ==> !Under(links, i, k + 1, x)
  {
    if x == links[i].children[k] || Below(links, links[i].children[k], x) {
      forall m | k + 1 <= m < |links[i].children|
        ensures !(x == links[i].children[m] || Below(links, links[i].children[m], x))
      {
        SiblingsAreApart(links, i, k, m, x);
      }
    }
  }

  /** `x` belongs to the part of the traversal of `i` that comes before child `k`. */
  ghost predicate Passed(links: seq<Link>, i: nat, k: nat, x: nat)
    requires i < |links|
  {
    Under(links, i, 0, x) && !Under(links, i, k, x)
  }

  lemma {:induction false} PassedStep(links: seq<Link>, i: nat, k: nat, x: nat)
    requires WellLinked(links) && i < |links| && k < |links[i].children|
    ensures Passed(links, i, k + 1, x) <==>
              (Passed(links, i, k, x) || x == links[i].children[k] || Below(links, links[i].children[k], x))
    ensures (x == links[i].children[k] || Below(links, links[i].children[k], x)) ==> !Passed(links, i, k, x)
  {
    UnderStep(links, i, k, x);
  }

  /** The traversal visits exactly the agents under those children... */
  lemma {:induction false} WalkVisitsUnder(links: seq<Link>, i: nat, k: nat, x: nat)
    requires WellLinked(links) && i < |links| && k <= |links[i].children|
    ensures x in Walk(links, i, k) <==> Under(links, i, k, x)
    decreases |links| - i, |links[i].children| - k
  {
    if k < |links[i].children| {
      var c := links[i].children[k];
      ChildIsBelow(links, i, k);
      WalkVisitsUnder(links, c, 0, x);
      UnderIsBelow(links, c, x);
      WalkVisitsUnder(links, i, k + 1, x);
      UnderStep(links, i, k, x);
    }
  }

  /** ... and visits each of them once. */
  lemma {:induction false} WalkVisitsOnce(links: seq<Link>, i: nat, k: nat)
    requires WellLinked(links) && i < |links| && k <= |links[i].children|
    ensures forall m, n :: 0 <= m < n < |Walk(links, i, k)| ==> Walk(links, i, k)[m] != Walk(links, i, k)[n]
    decreases |links| - i, |links[i].children| - k
  {
    if k < |links[i].children| {
      var c := links[i].children[k];
      ChildIsBelow(links, i, k);
      var inner, rest := Walk(links, c, 0), Walk(links, i, k + 1);
      WalkVisitsOnce(links, c, 0);
      WalkVisitsOnce(links, i, k + 1);
      forall x | x in inner ensures x != c && x !in rest {
        WalkVisitsUnder(links, c, 0, x);
        UnderIsBelow(links, c, x);
        BelowIsLater(links, c, x);
        WalkVisitsUnder(links, i, k + 1, x);
        UnderStep(links, i, k, x);
      }
      assert c !in rest by {
        WalkVisitsUnder(links, i, k + 1, c);
        UnderStep(links, i, k, c);
      }
      var w := Walk(links, i, k);
      assert w == inner + [c] + rest;
      forall m, n | 0 <= m < n < |w| ensures w[m] != w[n] {
        if m < |inner| {
          assert w[m] in inner;
        }
        if n > |inner| {
          assert w[n] == rest[n - |inner| - 1];
        }
        if m > |inner| {
          assert w[m] == rest[m - |inner| - 1];
        }
      }
    }
  }

  /** `for_each` reaches every proper descendant exactly once, nothing else. */
  lemma {:induction false} WalkIsTheSubtree(links: seq<Link>, i: nat)
    requires WellLinked(links) && i < |links|
    ensures forall x :: x in Walk(links, i, 0) <==> Below(links, i, x)
    ensures forall m, n :: 0 <= m < n < |Walk(links, i, 0)| ==> Walk(links, i, 0)[m] != Walk(links, i, 0)[n]
  {
    WalkVisitsOnce(links, i, 0);
    forall x ensures x in Walk(links, i, 0) <==> Below(links, i, x) {
      WalkVisitsUnder(links, i, 0, x);
      UnderIsBelow(links, i, x);
    }
  }

  /** `x` comes before `y` in the walk. */
  ghost predicate Precedes(walk: seq<nat>, x: nat, y: nat) {
    exists m, n :: 0 <= m < n < |walk| && walk[m] == x && walk[n] == y
  }

  lemma {:induction false} PrecedesIn(walk: seq<nat>, before: seq<nat>, after: seq<nat>, x: nat, y: nat)
    ensures Precedes(walk, x, y) ==> Precedes(before + walk + after, x, y)
    ensures x in before && y in walk + after ==> Precedes(before + walk + after, x, y)
    ensures x in before + walk && y in after ==> Precedes(before + walk + after, x, y)
  {
    var all := before + walk + after;
    assert forall k :: 0 <= k < |walk| ==> all[|before| + k] == walk[k];
    if Precedes(walk, x, y) {
      var m, n :| 0 <= m < n < |walk| && walk[m] == x && walk[n] == y;
      assert all[|before| + m] == x && all[|before| + n] == y;
    }
    if x in before && y in walk + after {
      var m :| 0 <= m < |before| && before[m] == x;
      var n :| 0 <= n < |walk + after| && (walk + after)[n] == y;
      assert all[m] == x && all[|before| + n] == y;
    }
    if x in before + walk && y in after {
      var m :| 0 <= m < |before + walk| && (before + walk)[m] == x;
      var n :| 0 <= n < |after| && after[n] == y;
      assert all[m] == x && all[|before| + |walk| + n] == y;
    }
  }

  predicate AtOrBelow(links: seq<Link>, a: nat, x: nat) {
    x == a || Below(links, a, x)
  }

  /** The walk from child `k` on: that child's subtree, the child, the rest. */
  lemma {:induction false} WalkParts(links: seq<Link>, i: nat, k: nat, x: nat)
    requires WellLinked(links) && i < |links| && k < |links[i].children|
    ensures i < links[i].children[k] < |links|
    ensures Walk(links, i, k) == Walk(links, links[i].children[k], 0) + [links[i].children[k]] + Walk(links, i, k + 1)
    ensures x in Walk(links, links[i].children[k], 0) <==> Below(links, links[i].children[k], x)
    ensures x in Walk(links, i, k + 1) <==> Under(links, i, k + 1, x)
    ensures Under(links, i, k, x) <==> AtOrBelow(links, links[i].children[k], x) || Under(links, i, k + 1, x)
    ensures AtOrBelow(links, links[i].children[k], x) ==> !Under(links, i, k + 1, x)
  {
    var c := links[i].children[k];
    ChildIsBelow(links, i, k);
    UnderStep(links, i, k, x);
    WalkVisitsUnder(links, c, 0, x);
    UnderIsBelow(links, c, x);
    WalkVisitsUnder(links, i, k + 1, x);
  }

  /** Every agent is visited after everything below it. */
  lemma {:induction false} WalkGoesBottomUp(links: seq<Link>, i: nat, k: nat, x: nat, y: nat)
    requires WellLinked(links) && i < |links| && k <= |links[i].children|
    requires Below(links, y, x) && Under(links, i, k, y)
    ensures Precedes(Walk(links, i, k), x, y)
    decreases |links| - i, |links[i].children| - k
  {
    hide Walk, Under;
    if k == |links[i].children| {
      NothingUnder(links, i, y);
    } else {
      var c := links[i].children[k];
      WalkParts(links, i, k, x);
      var inner, rest := Walk(links, c, 0), Walk(links, i, k + 1);
      WalkParts(links, i, k, y);
      if y == c {
        PrecedesIn([c], inner, rest, x, y);
      } else if Below(links, c, y) {
        UnderIsBelow(links, c, y);
        WalkGoesBottomUp(links, c, 0, x, y);
        PrecedesIn(inner, [], [c] + rest, x, y);
        assert [] + inner + ([c] + rest) == inner + [c] + rest;
      } else {
        WalkGoesBottomUp(links, i, k + 1, x, y);
        PrecedesIn(rest, inner + [c], [], x, y);
        assert (inner + [c]) + rest + [] == inner + [c] + rest;
      }
    }
  }

  lemma {:induction false} NothingUnder(links: seq<Link>, i: nat, x: nat)
    requires i < |links|
    ensures !Under(links, i, |links[i].children|, x)
  {
  }

  /** The subtree of a child is visited before the later children. */
  lemma {:induction false} WalkGoesInOrder(links: seq<Link>, i: nat, k: nat, p: nat, m: nat, n: nat, x: nat, y: nat)
    requires WellLinked(links) && i < |links| && k <= |links[i].children| && p < |links|
    requires m < n < |links[p].children| && (if p == i then k <= m else Under(links, i, k, p))
    requires AtOrBelow(links, links[p].children[m], x) && AtOrBelow(links, links[p].children[n], y)
    ensures Precedes(Walk(links, i, k), x, y)
    decreases |links| - i, |links[i].children| - k
  {
    hide Walk;
    if k == |links[i].children| {
      NothingUnder(links, i, p);
    } else {
      var c := links[i].children[k];
      WalkParts(links, i, k, x);
      var inner, rest := Walk(links, c, 0), Walk(links, i, k + 1);
      WalkParts(links, i, k, y);
      WalkParts(links, i, k, p);
      ChildIsBelow(links, p, m);
      ChildIsBelow(links, p, n);
      if p == i {
        assert Under(links, i, k + 1, y);
        if m == k {
          assert x in inner + [c] && y in rest;
          PrecedesIn([c], inner, rest, x, y);
        } else {
          WalkGoesInOrder(links, i, k + 1, p, m, n, x, y);
          PrecedesIn(rest, inner + [c], [], x, y);
          assert (inner + [c]) + rest + [] == inner + [c] + rest;
        }
      } else if AtOrBelow(links, c, p) {
        if p != c { UnderIsBelow(links, c, p); }
        WalkGoesInOrder(links, c, 0, p, m, n, x, y);
        PrecedesIn(inner, [], [c] + rest, x, y);
        assert [] + inner + ([c] + rest) == inner + [c] + rest;
      } else {
        WalkGoesInOrder(links, i, k + 1, p, m, n, x, y);
        PrecedesIn(rest, inner + [c], [], x, y);
        assert (inner + [c]) + rest + [] == inner + [c] + rest;
      }
    }
  }

  /** Everything but the root is below the root. */
  lemma {:induction false} AllBelowRoot(links: seq<Link>, x: nat)
    requires WellLinked(links) && 0 < x < |links|
    ensures Below(links, 0, x)
    decreases x
  {
    assert LinkedAt(links, x);
    var p := links[x].parent.value;
    if p != 0 {
      AllBelowRoot(links, p);
    }
  }
}
