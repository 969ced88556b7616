/** Looking an agent up by its path, inserting what is missing, and the path of
    an agent. */
module Lookup {
  import opened Wrappers
  import opened Tree

  datatype Agents = Agents(links: seq<Link>, names: seq<string>)

  datatype Found =
    | Agent(id: nat)
    | Missing
    | InvalidRequest
    | NotFound

  ghost predicate Fits(t: Agents) {
    WellLinked(t.links) && |t.names| == |t.links|
  }

  // ----- names

  function Lower(c: char): char {
    if 'A' <= c <= 'Z' then ((c as int - 'A' as int) + 'a' as int) as char else c
  }

  /** `strncasecmp` over the length of `head` finds no difference: the name may
      go on after it. */
  predicate Matches(name: string, head: string) {
    |head| <= |name| && forall k :: 0 <= k < |head| ==> Lower(name[k]) == Lower(head[k])
  }

  /** `strchr` of a slash, or the length. */
  function Slash(path: string): (m: nat)
    ensures m <= |path| && (m < |path| ==> path[m] == '/')
    ensures forall j :: 0 <= j < m ==> path[j] != '/'
  {
    if path == "" || path[0] == '/' then 0 else 1 + Slash(path[1..])
  }

  /** One leading slash is skipped. */
  function Trimmed(path: string): string {
    if path != "" && path[0] == '/' then path[1..] else path
  }

  /** The name that a path asks for first. */
  function Head(path: string): string {
    Trimmed(path)[..Slash(Trimmed(path))]
  }

  /** The path to look up in the agent found; empty when the search ends there. */
  function Rest(path: string): (r: string)
    ensures path != "" ==> |r| < |path|
  {
    var p := Trimmed(path);
    if Slash(p) + 1 < |p| then p[Slash(p) + 1..] else ""
  }

  /** The name the constructor gives to an agent asked for under `name`. */
  function GivenName(name: string): string {
    if name == "" then "unnamed" else name
  }

  // ----- find

  predicate Answers(t: Agents, c: nat, head: string) {
    c < |t.names| && Matches(t.names[c], head)
  }

  /** The first child from the `k`-th on that answers to the name. */
  function FirstMatch(t: Agents, i: nat, head: string, k: nat): (m: nat)
    requires i < |t.links| && k <= |t.links[i].children|
    ensures k <= m <= |t.links[i].children|
    decreases |t.links[i].children| - k
  {
    if k == |t.links[i].children| || Answers(t, t.links[i].children[k], head) then k
    else FirstMatch(t, i, head, k + 1)
  }

  /** `find` without insertion. */
  function Find(t: Agents, i: nat, path: string, required: bool): Found
    requires Fits(t) && i < |t.links|
    decreases |path|
  {
    if path == "" then InvalidRequest
    else
      var m := FirstMatch(t, i, Head(path), 0);
      if m < |t.links[i].children| then
        assert LinkedAt(t.links, i);
        var c := t.links[i].children[m];
        if Rest(path) != "" then Find(t, c, Rest(path), required) else Agent(c)
      else if required then NotFound
      else Missing
  }

  /** `push_back` of a new agent under `i`. */
  function Pushed(t: Agents, i: nat, name: string): (r: Agents)
    requires i < |t.links|
    ensures |r.links| == |t.links| + 1
    ensures |r.links[i].children| == |t.links[i].children| + 1
  {
    Agents(
      t.links[i := t.links[i].(children := t.links[i].children + [|t.links|])] + [Link(Some(i), [])],
      t.names + [GivenName(name)])
  }

  lemma {:induction false} PushedFits(t: Agents, i: nat, name: string)
    requires Fits(t) && i < |t.links|
    ensures Fits(Pushed(t, i, name))
  {
    var r := Pushed(t, i, name);
    assert LinkedAt(t.links, i);
    forall x | 0 <= x < |r.links| ensures LinkedAt(r.links, x) {
      if x < |t.links| {
        assert LinkedAt(t.links, x);
        if t.links[x].parent == Some(i) {
          assert r.links[i].children[..|t.links[i].children|] == t.links[i].children;
        }
      } else {
        assert r.links[i].children[|t.links[i].children|] == x;
      }
    }
  }

  /** `find` with insertion: the tree afterwards and the agent. */
  function FindOrInsert(t: Agents, i: nat, path: string): (r: (Agents, Found))
    requires Fits(t) && i < |t.links|
    ensures Fits(r.0) && |t.links| <= |r.0.links|
    decreases |path|
  {
    if path == "" then (t, InvalidRequest)
    else
      var m := FirstMatch(t, i, Head(path), 0);
      if m < |t.links[i].children| then
        assert LinkedAt(t.links, i);
        var c := t.links[i].children[m];
        if Rest(path) != "" then FindOrInsert(t, c, Rest(path)) else (t, Agent(c))
      else
        PushedFits(t, i, Head(path));
        var t' := Pushed(t, i, Head(path));
        if Rest(path) != "" then FindOrInsert(t', |t.links|, Rest(path)) else (t', Agent(|t.links|))
  }

  // ----- upper and lower case

  /** The same character, or the same letter in the other case. */
  predicate SameLetter(c: char, d: char) {
    || c == d
    || ('A' <= c <= 'Z' && d as int == c as int + 32)
    || ('A' <= d <= 'Z' && c as int == d as int + 32)
  }

  predicate SameButCase(p: string, q: string) {
    |p| == |q| && forall k :: 0 <= k < |p| ==> SameLetter(p[k], q[k])
  }

  lemma {:induction false} SlashIgnoresCase(p: string, q: string)
    requires SameButCase(p, q)
    ensures Slash(p) == Slash(q)
  {
    if p != "" && p[0] != '/' {
      SlashIgnoresCase(p[1..], q[1..]);
    }
  }

  lemma {:induction false} FirstMatchIgnoresCase(t: Agents, i: nat, p: string, q: string, k: nat)
    requires i < |t.links| && k <= |t.links[i].children| && SameButCase(p, q)
    ensures FirstMatch(t, i, p, k) == FirstMatch(t, i, q, k)
    decreases |t.links[i].children| - k
  {
    if k < |t.links[i].children| {
      assert forall j :: 0 <= j < |p| ==> Lower(p[j]) == Lower(q[j]);
      FirstMatchIgnoresCase(t, i, p, q, k + 1);
    }
  }

  /** Paths that differ only in the case of letters find the same agent. */
  lemma {:induction false} FindIgnoresCase(t: Agents, i: nat, p: string, q: string, required: bool)
    requires Fits(t) && i < |t.links| && SameButCase(p, q)
    ensures Find(t, i, p, required) == Find(t, i, q, required)
    decreases |p|
  {
    if p != "" {
      var p', q' := Trimmed(p), Trimmed(q);
      assert SameButCase(p', q');
      SlashIgnoresCase(p', q');
      assert SameButCase(Head(p), Head(q)) && SameButCase(Rest(p), Rest(q));
      FirstMatchIgnoresCase(t, i, Head(p), Head(q), 0);
      var m := FirstMatch(t, i, Head(p), 0);
      if m < |t.links[i].children| && Rest(p) != "" {
        assert LinkedAt(t.links, i);
        FindIgnoresCase(t, t.links[i].children[m], Rest(p), Rest(q), required);
      }
    }
  }

  // ----- one step of a lookup

  /** The name begins with the head, upper and lower case being the same. */
  predicate BeginsWith(name: string, head: string) {
    |head| <= |name| && forall k :: 0 <= k < |head| ==> SameLetter(name[k], head[k])
  }

  /** Child `m` is the first of `i` whose name begins with the head. */
  ghost predicate FirstNamed(t: Agents, i: nat, head: string, m: nat)
    requires Fits(t) && i < |t.links|
  {
    assert LinkedAt(t.links, i);
    var children := t.links[i].children;
    && m < |children| && BeginsWith(t.names[children[m]], head)
    && forall k :: 0 <= k < m ==> !BeginsWith(t.names[children[k]], head)
  }

  ghost predicate NoneNamed(t: Agents, i: nat, head: string)
    requires Fits(t) && i < |t.links|
  {
    assert LinkedAt(t.links, i);
    forall c :: c in t.links[i].children ==> !BeginsWith(t.names[c], head)
  }

  lemma {:induction false} LowerIsSameLetter(c: char, d: char)
    ensures Lower(c) == Lower(d) <==> SameLetter(c, d)
  {
  }

  lemma {:induction false} AnswersBegins(t: Agents, c: nat, head: string)
    requires c < |t.names|
    ensures Answers(t, c, head) <==> BeginsWith(t.names[c], head)
  {
    var name := t.names[c];
    if |head| <= |name| {
      forall k | 0 <= k < |head| ensures Lower(name[k]) == Lower(head[k]) <==> SameLetter(name[k], head[k]) {
        LowerIsSameLetter(name[k], head[k]);
      }
    }
  }

  lemma {:induction false} FirstMatchIsFirst(t: Agents, i: nat, head: string, k: nat)
    requires Fits(t) && i < |t.links| && k <= |t.links[i].children|
    ensures LinkedAt(t.links, i)
    ensures var m := FirstMatch(t, i, head, k);
      && (m < |t.links[i].children| ==> BeginsWith(t.names[t.links[i].children[m]], head))
      && (forall j :: k <= j < m ==> !BeginsWith(t.names[t.links[i].children[j]], head))
    decreases |t.links[i].children| - k
  {
    assert LinkedAt(t.links, i);
    if k < |t.links[i].children| {
      AnswersBegins(t, t.links[i].children[k], head);
      if !Answers(t, t.links[i].children[k], head) {
        FirstMatchIsFirst(t, i, head, k + 1);
      }
    }
  }

  /** A path that begins with `head`, with a leading slash or not, and goes on
      with `tail`. */
  predicate Asks(path: string, head: string, tail: string) {
    && path != "" && '/' !in head && (tail == "" || tail[0] == '/')
    && path == (if path[0] == '/' then "/" else "") + head + tail
  }

  lemma {:induction false} AskedFor(path: string, head: string, tail: string)
    requires Asks(path, head, tail)
    ensures Head(path) == head && Rest(path) == if |tail| > 1 then tail[1..] else ""
  {
    var p := Trimmed(path);
    assert p == head + tail;
    SlashAfter(head, tail);
    assert p[..|head|] == head;
    if |tail| > 1 { assert p[|head| + 1..] == tail[1..]; }
  }

  /** A step of a lookup: into the first child named, to its end or on with what
      follows the slash. Where no child is named so the answer is an error if
      the agent is required, and none otherwise. */
  lemma {:induction false} FindStep(t: Agents, i: nat, path: string, head: string, tail: string, required: bool)
    requires Fits(t) && i < |t.links| && Asks(path, head, tail)
    ensures LinkedAt(t.links, i)
    ensures forall m: nat :: FirstNamed(t, i, head, m) ==>
      Find(t, i, path, required) ==
        if |tail| > 1 then Find(t, t.links[i].children[m], tail[1..], required) else Agent(t.links[i].children[m])
    ensures NoneNamed(t, i, head) ==> Find(t, i, path, required) == if required then NotFound else Missing
  {
    hide Head, Rest, FirstMatch, Asks;
    assert LinkedAt(t.links, i);
    NonemptyPath(path, head, tail);
    AskedFor(path, head, tail);
    FirstMatchIsFirst(t, i, head, 0);
  }

  lemma {:induction false} NonemptyPath(path: string, head: string, tail: string)
    requires Asks(path, head, tail)
    ensures path != ""
  {
  }

  /** A lookup that fails says so in one way: an empty request is invalid, an
      agent that is required is an error, and one that is not is just missing. */
  lemma {:induction false} FailedLookup(t: Agents, i: nat, path: string, required: bool)
    requires Fits(t) && i < |t.links| && !Find(t, i, path, required).Agent?
    ensures Find(t, i, path, required) ==
      if path == "" then InvalidRequest else if required then NotFound else Missing
    decreases |path|
  {
    hide Head, Rest, FirstMatch;
    assert LinkedAt(t.links, i);
    if path != "" && FirstMatch(t, i, Head(path), 0) < |t.links[i].children| && Rest(path) != "" {
      FailedLookup(t, t.links[i].children[FirstMatch(t, i, Head(path), 0)], Rest(path), required);
    }
  }

  /** Inserting where no child is named so: a last child of that name, `unnamed`
      if there is none, in which the rest of the path is inserted. */
  lemma {:induction false} InsertStep(t: Agents, i: nat, path: string, head: string, tail: string)
    returns (t1: Agents)
    requires Fits(t) && i < |t.links| && Asks(path, head, tail) && NoneNamed(t, i, head)
    ensures t1.names == t.names + [if head == "" then "unnamed" else head]
    ensures |t1.links| == |t.links| + 1 && t1.links[|t.links|] == Link(Some(i), [])
    ensures t1.links[i] == t.links[i].(children := t.links[i].children + [|t.links|])
    ensures forall x :: 0 <= x < |t.links| && x != i ==> t1.links[x] == t.links[x]
    ensures Fits(t1)
    ensures FindOrInsert(t, i, path) ==
      if |tail| > 1 then FindOrInsert(t1, |t.links|, tail[1..]) else (t1, Agent(|t.links|))
  {
    hide Head, Rest, FirstMatch, Asks;
    assert LinkedAt(t.links, i);
    NonemptyPath(path, head, tail);
    AskedFor(path, head, tail);
    FirstMatchIsFirst(t, i, head, 0);
    PushedFits(t, i, head);
    t1 := Pushed(t, i, head);
  }

  /** Inserting where a child is named so: the rest of the path goes below it. */
  lemma {:induction false} InsertGoesDown(t: Agents, i: nat, path: string, head: string, tail: string, m: nat)
    requires Fits(t) && i < |t.links| && Asks(path, head, tail) && FirstNamed(t, i, head, m)
    ensures m < |t.links[i].children| && t.links[i].children[m] < |t.links|
    ensures FindOrInsert(t, i, "") == (t, InvalidRequest)
    ensures FindOrInsert(t, i, path) ==
      if |tail| > 1 then FindOrInsert(t, t.links[i].children[m], tail[1..]) else (t, Agent(t.links[i].children[m]))
  {
    hide Head, Rest, FirstMatch, Asks;
    assert LinkedAt(t.links, i);
    NonemptyPath(path, head, tail);
    AskedFor(path, head, tail);
    FirstMatchIsFirst(t, i, head, 0);
  }

  // ----- path

  function Path(t: Agents, i: nat): string
    requires Fits(t) && i < |t.links|
    decreases i
  {
    assert LinkedAt(t.links, i);
    if t.links[i].parent.None? then "" else Path(t, t.links[i].parent.value) + "/" + t.names[i]
  }

  // ----- insertion

  /** `t'` is `t` with agents added at the ends of child lists. */
  ghost predicate Extends(t: Agents, t': Agents) {
    && |t.links| <= |t'.links| && |t.names| <= |t'.names|
    && t.names == t'.names[..|t.names|]
    && forall i :: 0 <= i < |t.links| ==>
         && t'.links[i].parent == t.links[i].parent
         && |t.links[i].children| <= |t'.links[i].children|
         && t.links[i].children == t'.links[i].children[..|t.links[i].children|]
  }

  lemma {:induction false} MatchSurvives(t: Agents, t': Agents, i: nat, head: string, k: nat)
    requires Fits(t) && Fits(t') && Extends(t, t') && i < |t.links| && k <= |t.links[i].children|
    ensures var m := FirstMatch(t, i, head, k);
      m < |t.links[i].children| ==>
        && FirstMatch(t', i, head, k) == m
        && t'.links[i].children[m] == t.links[i].children[m]
    decreases |t.links[i].children| - k
  {
    if k < |t.links[i].children| {
      assert LinkedAt(t.links, i);
      var c := t.links[i].children[k];
      assert t'.links[i].children[k] == c;
      assert t'.names[c] == t'.names[..|t.names|][c];
      if !Answers(t, c, head) {
        MatchSurvives(t, t', i, head, k + 1);
      }
    }
  }

  /** A name that matched in `t` leads the same way in the larger `t'`. */
  lemma {:induction false} LookupGoesOn(t: Agents, t': Agents, i: nat, path: string, required: bool, r: Found)
    requires Fits(t) && Fits(t') && Extends(t, t') && i < |t.links| && path != ""
    requires FirstMatch(t, i, Head(path), 0) < |t.links[i].children|
    requires var c := t.links[i].children[FirstMatch(t, i, Head(path), 0)];
      && c < |t'.links|
      && r == if Rest(path) != "" then Find(t', c, Rest(path), required) else Agent(c)
    ensures Find(t', i, path, required) == r
  {
    hide Head, Rest, FirstMatch;
    MatchSurvives(t, t', i, Head(path), 0);
  }

  /** A lookup that succeeds gives the same agent in every larger tree. */
  lemma {:induction false} SuccessSurvives(t: Agents, t': Agents, i: nat, path: string, required: bool)
    requires Fits(t) && Fits(t') && Extends(t, t') && i < |t.links|
    requires Find(t, i, path, required).Agent?
    ensures Find(t', i, path, required) == Find(t, i, path, required)
    decreases |path|
  {
    hide Head, Rest, FirstMatch;
    assert LinkedAt(t.links, i);
    if Rest(path) != "" {
      SuccessSurvives(t, t', t.links[i].children[FirstMatch(t, i, Head(path), 0)], Rest(path), required);
    }
    LookupGoesOn(t, t', i, path, required, Find(t, i, path, required));
  }

  lemma {:induction false} PushedExtends(t: Agents, i: nat, name: string)
    requires Fits(t) && i < |t.links|
    ensures Extends(t, Pushed(t, i, name))
  {
  }

  lemma {:induction false} ExtendsTransitive(a: Agents, b: Agents, c: Agents)
    requires Fits(a) && Fits(b) && Fits(c) && Extends(a, b) && Extends(b, c)
    ensures Extends(a, c)
  {
    assert a.names == c.names[..|b.names|][..|a.names|];
    forall i | 0 <= i < |a.links|
      ensures |a.links[i].children| <= |c.links[i].children|
        && a.links[i].children == c.links[i].children[..|a.links[i].children|]
        && c.links[i].parent == a.links[i].parent
    {
      assert b.links[i].children[..|a.links[i].children|] ==
        c.links[i].children[..|b.links[i].children|][..|a.links[i].children|];
    }
  }

  /** After the new agent has been pushed it is what the name finds. */
  lemma {:induction false} PushedIsFound(t: Agents, i: nat, head: string, k: nat)
    requires Fits(t) && i < |t.links| && k <= |t.links[i].children|
    requires FirstMatch(t, i, head, k) == |t.links[i].children|
    ensures FirstMatch(Pushed(t, i, head), i, head, k) == |t.links[i].children|
    ensures Pushed(t, i, head).links[i].children[|t.links[i].children|] == |t.links|
    decreases |t.links[i].children| - k
  {
    var t' := Pushed(t, i, head);
    assert LinkedAt(t.links, i);
    if k < |t.links[i].children| {
      assert t'.links[i].children[k] == t.links[i].children[k];
      PushedIsFound(t, i, head, k + 1);
    } else {
      assert Answers(t', |t.links|, head);
    }
  }

  /** Insertion extends the tree, and the agent it returns is what the lookup
      finds from then on. */
  lemma {:induction false} InsertFinds(t: Agents, i: nat, path: string)
    requires Fits(t) && i < |t.links| && path != ""
    ensures var (t', r) := FindOrInsert(t, i, path);
      && Extends(t, t')
      && r.Agent? && r.id < |t'.links|
      && (forall required :: Find(t', i, path, required) == r)
    decreases |path|
  {
    hide Head, Rest, FirstMatch, Find, Pushed;
    var head := Head(path);
    var m := FirstMatch(t, i, head, 0);
    var (t', r) := FindOrInsert(t, i, path);
    assert LinkedAt(t.links, i);
    if m < |t.links[i].children| {
      if Rest(path) != "" {
        InsertFinds(t, t.links[i].children[m], Rest(path));
      }
      forall required ensures Find(t', i, path, required) == r {
        LookupGoesOn(t, t', i, path, required, r);
      }
    } else {
      var t1 := Pushed(t, i, head);
      PushedFits(t, i, head);
      PushedExtends(t, i, head);
      PushedIsFound(t, i, head, 0);
      if Rest(path) != "" {
        InsertFinds(t1, |t.links|, Rest(path));
        ExtendsTransitive(t, t1, t');
      }
      forall required ensures Find(t', i, path, required) == r {
        LookupGoesOn(t1, t', i, path, required, r);
      }
    }
  }

  /** Where the lookup succeeds, asking for insertion inserts nothing. */
  lemma {:induction false} NothingToInsert(t: Agents, i: nat, path: string, required: bool)
    requires Fits(t) && i < |t.links| && Find(t, i, path, required).Agent?
    ensures FindOrInsert(t, i, path) == (t, Find(t, i, path, required))
    decreases |path|
  {
    hide Head, Rest, FirstMatch;
    assert LinkedAt(t.links, i);
    if Rest(path) != "" {
      NothingToInsert(t, t.links[i].children[FirstMatch(t, i, Head(path), 0)], Rest(path), required);
    }
  }

  /** `find` with insertion is idempotent and disturbs no lookup that succeeded. */
  lemma {:induction false} InsertIsIdempotent(t: Agents, i: nat, path: string)
    requires Fits(t) && i < |t.links|
    ensures var (t', r) := FindOrInsert(t, i, path);
      && Fits(t')
      && FindOrInsert(t', i, path) == (t', r)
      && forall j: nat, q: string, required: bool ::
           j < |t.links| && Find(t, j, q, required).Agent? ==>
             Find(t', j, q, required) == Find(t, j, q, required)
  {
    if path != "" {
      var (t', r) := FindOrInsert(t, i, path);
      InsertFinds(t, i, path);
      NothingToInsert(t', i, path, false);
      forall j: nat, q: string, required: bool | j < |t.links| && Find(t, j, q, required).Agent?
        ensures Find(t', j, q, required) == Find(t, j, q, required)
      {
        SuccessSurvives(t, t', j, q, required);
      }
    }
  }

  // ----- finding an agent by its own path

  /** The path of `i` seen from its ancestor `a`, without the leading slash. */
  function PathFrom(t: Agents, a: nat, i: nat): string
    requires Fits(t) && i < |t.links| && Below(t.links, a, i)
    decreases i
  {
    var p := t.links[i].parent.value;
    if p == a then t.names[i] else PathFrom(t, a, p) + "/" + t.names[i]
  }

  predicate ProperName(name: string) {
    name != "" && '/' !in name
  }

  /** Every agent from below `a` down to `i` has a proper name. */
  predicate ProperNames(t: Agents, a: nat, i: nat)
    requires Fits(t) && i < |t.links| && Below(t.links, a, i)
    decreases i
  {
    var p := t.links[i].parent.value;
    ProperName(t.names[i]) && (p == a || ProperNames(t, a, p))
  }

  /** `x` is not among the first `k` children. */
  predicate Before(children: seq<nat>, k: nat, x: nat)
    requires k <= |children|
  {
    x !in children[..k]
  }

  /** No earlier sibling of `x` has a name that begins, ignoring case, with the
      name of `x`. */
  predicate Unshadowed(t: Agents, x: nat)
    requires Fits(t) && x < |t.links| && t.links[x].parent.Some?
  {
    assert LinkedAt(t.links, x);
    var children := t.links[t.links[x].parent.value].children;
    forall k :: 0 <= k < |children| && children[k] != x && Before(children, k, x) ==>
      !Answers(t, children[k], t.names[x])
  }

  predicate AllUnshadowed(t: Agents, a: nat, i: nat)
    requires Fits(t) && i < |t.links| && Below(t.links, a, i)
    decreases i
  {
    var p := t.links[i].parent.value;
    Unshadowed(t, i) && (p == a || AllUnshadowed(t, a, p))
  }

  /** The first step of a path leads to the child it goes through. */
  lemma {:induction false} PathFromTop(t: Agents, a: nat, c: nat, i: nat)
    requires Fits(t) && a < |t.links| && c < |t.links| && t.links[c].parent == Some(a)
    requires i < |t.links| && (i == c || Below(t.links, c, i))
    ensures Below(t.links, a, i)
    ensures PathFrom(t, a, i) == t.names[c] + if i == c then "" else "/" + PathFrom(t, c, i)
    ensures ProperNames(t, a, i) <==> ProperName(t.names[c]) && (i == c || ProperNames(t, c, i))
    ensures AllUnshadowed(t, a, i) <==> Unshadowed(t, c) && (i == c || AllUnshadowed(t, c, i))
    decreases i
  {
    assert LinkedAt(t.links, c);
    assert Below(t.links, a, c);
    if Below(t.links, c, c) { BelowIsLater(t.links, c, c); }
    if i == c {
      assert t.names[c] + "" == t.names[c];
    } else {
      var p := t.links[i].parent.value;
      PathFromTop(t, a, c, p);
      assert p != a by {
        if p != c { BelowIsLater(t.links, c, p); }
      }
      if p != c {
        assert (t.names[c] + ("/" + PathFrom(t, c, p))) + "/" + t.names[i]
            == t.names[c] + ("/" + (PathFrom(t, c, p) + "/" + t.names[i]));
      } else {
        assert t.names[c] + "" + "/" + t.names[i] == t.names[c] + ("/" + t.names[i]);
      }
    }
  }

  lemma {:induction false} SlashAfter(name: string, rest: string)
    requires '/' !in name && (rest == "" || rest[0] == '/')
    ensures Slash(name + rest) == |name|
  {
    if name == "" {
      assert name + rest == rest;
    } else {
      assert (name + rest)[1..] == name[1..] + rest;
      SlashAfter(name[1..], rest);
    }
  }

  lemma {:induction false} FirstMatchFinds(t: Agents, i: nat, head: string, k: nat, m: nat)
    requires Fits(t) && i < |t.links| && k <= m < |t.links[i].children|
    requires Answers(t, t.links[i].children[m], head)
    ensures FirstMatch(t, i, head, k) <= m
    ensures FirstMatch(t, i, head, k) == m <==>
      forall j :: k <= j < m ==> !Answers(t, t.links[i].children[j], head)
    decreases m - k
  {
    if k < m && !Answers(t, t.links[i].children[k], head) {
      FirstMatchFinds(t, i, head, k + 1, m);
    }
  }

  /** The lookup takes the step to child `m` exactly when nothing shadows it. */
  lemma {:induction false} StepTaken(t: Agents, a: nat, m: nat)
    requires Fits(t) && a < |t.links| && m < |t.links[a].children|
    requires t.links[a].children[m] < |t.links| && t.links[t.links[a].children[m]].parent == Some(a)
    ensures var c := t.links[a].children[m];
      && FirstMatch(t, a, t.names[c], 0) <= m
      && (FirstMatch(t, a, t.names[c], 0) == m <==> Unshadowed(t, c))
  {
    var children, c := t.links[a].children, t.links[a].children[m];
    assert LinkedAt(t.links, a);
    assert Answers(t, c, t.names[c]);
    FirstMatchFinds(t, a, t.names[c], 0, m);
    forall k | 0 <= k < |children|
      ensures children[k] != c && Before(children, k, c) <==> k < m
    {
      if k > m { assert children[..k][m] == c; }
      assert forall j :: 0 <= j < k ==> children[..k][j] == children[j];
    }
  }

  lemma {:induction false} FindIsBelow(t: Agents, i: nat, path: string, required: bool)
    requires Fits(t) && i < |t.links| && Find(t, i, path, required).Agent?
    ensures Find(t, i, path, required).id < |t.links|
    ensures Below(t.links, i, Find(t, i, path, required).id)
    decreases |path|
  {
    hide Head, Rest, FirstMatch;
    var m := FirstMatch(t, i, Head(path), 0);
    ChildIsBelow(t.links, i, m);
    if Rest(path) != "" {
      var c := t.links[i].children[m];
      FindIsBelow(t, c, Rest(path), required);
      BelowTransitive(t.links, i, c, Find(t, i, path, required).id);
    }
  }

  lemma {:induction false} HeadAndRest(name: string, rest: string)
    requires ProperName(name)
    ensures Head(name) == name && Rest(name) == ""
    ensures rest != "" ==> Head(name + "/" + rest) == name && Rest(name + "/" + rest) == rest
  {
    assert name[0] in name;
    assert name + "" == name;
    SlashAfter(name, "");
    if rest != "" {
      var path := name + "/" + rest;
      assert path == name + ("/" + rest);
      SlashAfter(name, "/" + rest);
      assert path[..|name|] == name && path[|name| + 1..] == rest;
    }
  }

  /** From an ancestor, the relative path finds the agent exactly when no agent
      on the way is shadowed. */
  lemma {:induction false} RelativePathFindsExactly(t: Agents, a: nat, i: nat, required: bool)
    requires Fits(t) && a < |t.links| && i < |t.links| && Below(t.links, a, i) && ProperNames(t, a, i)
    ensures PathFrom(t, a, i) != "" && PathFrom(t, a, i)[0] != '/'
    ensures Find(t, a, PathFrom(t, a, i), required) == Agent(i) <==> AllUnshadowed(t, a, i)
    decreases |t.links| - a
  {
    hide Head, Rest, FirstMatch, PathFrom, ProperNames, AllUnshadowed;
    var m := BelowGoesThroughChild(t.links, a, i);
    ChildIsBelow(t.links, a, m);
    var c := t.links[a].children[m];
    PathFromTop(t, a, c, i);
    var n, path := t.names[c], PathFrom(t, a, i);
    assert n[0] in n;
    StepTaken(t, a, m);
    if i == c {
      HeadAndRest(n, "");
      assert n + "" == n;
    } else {
      RelativePathFindsExactly(t, c, i, required);
      HeadAndRest(n, PathFrom(t, c, i));
      assert path == n + "/" + PathFrom(t, c, i);
    }
    var f := FirstMatch(t, a, n, 0);
    if f != m {
      ChildIsBelow(t.links, a, f);
      SiblingsAreApart(t.links, a, m, f, i);
      if Find(t, a, path, required).Agent? && i != c {
        FindIsBelow(t, t.links[a].children[f], Rest(path), required);
      }
    }
  }

  lemma {:induction false} PathIsRelative(t: Agents, i: nat)
    requires Fits(t) && 0 < i < |t.links|
    ensures Below(t.links, 0, i) && Path(t, i) == "/" + PathFrom(t, 0, i)
    decreases i
  {
    assert LinkedAt(t.links, i);
    AllBelowRoot(t.links, i);
    var p := t.links[i].parent.value;
    if p == 0 {
      assert LinkedAt(t.links, 0);
      assert "" + "/" + t.names[i] == "/" + t.names[i];
    } else {
      PathIsRelative(t, p);
      assert ("/" + PathFrom(t, 0, p)) + "/" + t.names[i] == "/" + (PathFrom(t, 0, p) + "/" + t.names[i]);
    }
  }

  /** For an agent other than the root, with nonempty and slash-free names on
      the way: looking up its own path finds it if and only if no agent on the
      way has an earlier sibling whose name begins with its own. */
  lemma {:induction false} OwnPathFindsExactly(t: Agents, i: nat, required: bool)
    requires Fits(t) && 0 < i < |t.links|
    requires Below(t.links, 0, i) && ProperNames(t, 0, i)
    ensures Find(t, 0, Path(t, i), required) == Agent(i) <==> AllUnshadowed(t, 0, i)
  {
    hide FirstMatch;
    PathIsRelative(t, i);
    RelativePathFindsExactly(t, 0, i, required);
    LeadingSlash(PathFrom(t, 0, i));
  }

  lemma {:induction false} LeadingSlash(s: string)
    requires s != "" && s[0] != '/'
    ensures Head("/" + s) == Head(s) && Rest("/" + s) == Rest(s)
  {
    assert Trimmed("/" + s) == s && Trimmed(s) == s;
  }

  // ----- the object

  class Registry {
    var links: seq<Link>
    var names: seq<string>

    constructor (rootName: string)
      ensures Valid() && Now() == Agents([Link(None, [])], [rootName])
    {
      links := [Link(None, [])];
      names := [rootName];
      new;
      assert LinkedAt(links, 0);
    }

    ghost predicate Valid()
      reads this
    {
      Fits(Now())
    }

    ghost function Now(): Agents
      reads this
    {
      Agents(links, names)
    }

    /** Set the parent of the new agent and append it to the child list. */
    method PushBack(i: nat, name: string) returns (agent: nat)
      requires Valid() && i < |links|
      modifies this
      ensures Valid() && Now() == Pushed(old(Now()), i, name) && agent == |old(links)|
    {
      PushedFits(Now(), i, name);
      agent := |links|;
      names := names + [GivenName(name)];
      links := links + [Link(Some(i), [])];
      links := links[i := links[i].(children := links[i].children + [agent])];
      assert links == Pushed(old(Now()), i, name).links;
    }

    /** `find`: the loop over the children, then down or the insertion. */
    method FindAgent(i: nat, path: string, required: bool, autoins: bool) returns (r: Found)
      requires Valid() && i < |links|
      modifies this
      ensures Valid()
      ensures if autoins then (Now(), r) == FindOrInsert(old(Now()), i, path)
        else Now() == old(Now()) && r == Find(old(Now()), i, path, required)
      decreases |path|
    {
      hide Head, Rest, Pushed;
      if path == "" {
        return InvalidRequest;
      }
      var head, rest := Head(path), Rest(path);
      assert LinkedAt(links, i);
      var k := 0;
      while k < |links[i].children|
        invariant k <= |links[i].children|
        invariant FirstMatch(Now(), i, head, k) == FirstMatch(Now(), i, head, 0)
      {
        var child := links[i].children[k];
        if Matches(names[child], head) {
          if rest != "" {
            r := FindAgent(child, rest, required, autoins);
            return;
          }
          return Agent(child);
        }
        k := k + 1;
      }
      if autoins {
        var child := PushBack(i, head);
        if rest != "" {
          r := FindAgent(child, rest, required, autoins);
          return;
        }
        return Agent(child);
      }
      r := if required then NotFound else Missing;
    }

    /** `path`: collect the names up to the root, then join them. */
    method PathOf(i: nat) returns (r: string)
      requires Valid() && i < |links|
      ensures r == Path(Now(), i)
    {
      var collected: seq<string> := [];
      var agent: nat := i;
      while links[agent].parent.Some?
        invariant agent < |links|
        invariant Path(Now(), agent) + Joined(collected) == Path(Now(), i)
        decreases agent
      {
        assert LinkedAt(links, agent);
        collected := [names[agent]] + collected;
        assert Joined(collected) == "/" + names[agent] + Joined(collected[1..]);
        agent := links[agent].parent.value;
      }
      r := "";
      var k := 0;
      assert collected[0..] == collected;
      while k < |collected|
        invariant k <= |collected|
        invariant r + Joined(collected[k..]) == Joined(collected)
      {
        r := r + "/";
        r := r + collected[k];
        assert collected[k..][1..] == collected[k + 1..];
        k := k + 1;
      }
    }
  }

  function Joined(collected: seq<string>): string {
    if collected == [] then "" else "/" + collected[0] + Joined(collected[1..])
  }
}
