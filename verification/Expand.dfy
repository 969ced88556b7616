/** Replacing `${key}` in place, and the two loops of the library that do it. */
module Expand {
  import opened Wrappers

  /** What is known about a key: its value, nothing, or that it is malformed. */
  datatype Lookup = Known(value: string) | Unknown | Malformed

  datatype Error = InvalidUse

  // ----- searching

  predicate StartsAt(text: string, marker: char, k: nat) {
    k + 1 < |text| && text[k] == marker && text[k + 1] == '{'
  }

  /** `find` of the marker and an opening brace from `k` on; the length is `npos`. */
  function FindStart(text: string, marker: char, k: nat): (m: nat)
    requires k <= |text|
    ensures k <= m <= |text| && (m < |text| ==> StartsAt(text, marker, m))
    ensures forall j :: k <= j < m ==> !StartsAt(text, marker, j)
    decreases |text| - k
  {
    if k == |text| || StartsAt(text, marker, k) then k else FindStart(text, marker, k + 1)
  }

  /** `find` of one character from `k` on, which may be beyond the end. */
  function FindChar(text: string, c: char, k: nat): (m: nat)
    ensures m <= |text| && (m < |text| ==> k <= m && text[m] == c)
    ensures m == |text| ==> forall j :: k <= j < |text| ==> text[j] != c
    ensures forall j :: k <= j < m ==> text[j] != c
    decreases |text| - k
  {
    if k >= |text| then |text|
    else if text[k] == c then k
    else FindChar(text, c, k + 1)
  }

  // ----- simultaneous substitution

  /** Where the key that opens at `j` closes; it has at least one character. */
  function Close(text: string, j: nat): (to: nat)
    ensures to <= |text| && (to < |text| ==> j + 3 <= to && text[to] == '}')
  {
    FindChar(text, '}', j + 3)
  }

  /** The first key of a text: what comes before it, the key, the key as it is
      written, and what follows it. */
  datatype Split = NoKey | Unclosed | Key(before: string, key: string, written: string, rest: string)

  function FirstKey(text: string, marker: char): (s: Split)
    ensures s.Key? ==> |s.rest| < |text|
  {
    var j := FindStart(text, marker, 0);
    if j == |text| then NoKey
    else
      var to := Close(text, j);
      if to == |text| then Unclosed
      else Key(text[..j], text[j + 2..to], text[j..to + 1], text[to + 1..])
  }

  /** The first key is the leftmost: it is written as marker, brace, at least one
      character, and the first closing brace after that. */
  lemma {:induction false} FirstKeyMeans(text: string, marker: char)
    ensures match FirstKey(text, marker)
      case NoKey => forall k :: 0 <= k < |text| ==> !StartsAt(text, marker, k)
      case Unclosed =>
        exists k :: 0 <= k < |text| && StartsAt(text, marker, k)
          && (forall j :: 0 <= j < k ==> !StartsAt(text, marker, j))
          && forall j :: k + 3 <= j < |text| ==> text[j] != '}'
      case Key(before, key, written, rest) =>
        && text == before + written + rest
        && written == [marker, '{'] + key + "}"
        && key != "" && '}' !in key[1..]
        && forall k :: 0 <= k < |before| ==> !StartsAt(text, marker, k)
  {
    hide FindStart, FindChar, FirstKey;
    FirstKeyIs(text, marker);
    var j := FindStart(text, marker, 0);
    if j < |text| && Close(text, j) < |text| {
      CloseIsFirst(text, j);
      KeyIsWritten(text, marker, j, Close(text, j));
    }
  }

  lemma {:induction false} CloseIsFirst(text: string, j: nat)
    ensures forall k :: j + 3 <= k < Close(text, j) ==> text[k] != '}'
  {
  }

  lemma {:induction false} KeyIsWritten(text: string, marker: char, j: nat, to: nat)
    requires StartsAt(text, marker, j) && j + 3 <= to < |text| && text[to] == '}'
    requires forall k :: j + 3 <= k < to ==> text[k] != '}'
    ensures text == text[..j] + text[j..to + 1] + text[to + 1..]
    ensures text[j..to + 1] == [marker, '{'] + text[j + 2..to] + "}"
    ensures text[j + 2..to] != "" && '}' !in text[j + 2..to][1..]
  {
    var tail := text[j + 2..to][1..];
    assert tail == text[j + 3..to];
  }

  lemma {:induction false} FirstKeyIs(t: string, marker: char)
    ensures var j := FindStart(t, marker, 0);
      && (j == |t| ==> FirstKey(t, marker) == NoKey)
      && (j < |t| && Close(t, j) == |t| ==> FirstKey(t, marker) == Unclosed)
      && (j < |t| && Close(t, j) < |t| ==>
            var to := Close(t, j);
            FirstKey(t, marker) == Key(t[..j], t[j + 2..to], t[j..to + 1], t[to + 1..]))
  {
  }

  function Glue(done: string, r: Result<string, Error>): Result<string, Error> {
    if r.Err? then r else Ok(done + r.value)
  }

  /** Every key of the original text replaced once, from left to right; text
      that comes out of a value is not looked at again. */
  function Substituted(text: string, marker: char, lookup: string -> Lookup): Result<string, Error>
    decreases |text|
  {
    match FirstKey(text, marker)
    case NoKey => Ok(text)
    case Unclosed => Err(InvalidUse)
    case Key(before, key, written, rest) =>
      match lookup(key)
      case Malformed => Err(InvalidUse)
      case Known(v) => Glue(before + v, Substituted(rest, marker, lookup))
      case Unknown => Glue(before + written, Substituted(rest, marker, lookup))
  }

  /** No value that is inserted begins a new key where it stands. */
  predicate Undisturbed(text: string, marker: char, lookup: string -> Lookup)
    decreases |text|
  {
    match FirstKey(text, marker)
    case NoKey => true
    case Unclosed => true
    case Key(_, key, _, rest) =>
      match lookup(key)
      case Malformed => true
      case Known(v) => FindStart(v + rest, marker, 0) >= |v| && Undisturbed(rest, marker, lookup)
      case Unknown => Undisturbed(rest, marker, lookup)
  }

  /** The keys of a text, in order. */
  function Keys(text: string, marker: char): seq<string>
    decreases |text|
  {
    var s := FirstKey(text, marker);
    if s.Key? then [s.key] + Keys(s.rest, marker) else []
  }

  /** Values without the marker character disturb nothing. */
  lemma {:induction false} MarkerFreeValuesAreUndisturbed(text: string, marker: char, lookup: string -> Lookup)
    requires forall k :: 0 <= k < |Keys(text, marker)| ==>
      var l := lookup(Keys(text, marker)[k]); l.Known? ==> marker !in l.value
    ensures Undisturbed(text, marker, lookup)
    decreases |text|
  {
    var s := FirstKey(text, marker);
    if s.Key? {
      var keys := Keys(text, marker);
      assert keys[0] == s.key && keys[1..] == Keys(s.rest, marker);
      assert forall k :: 0 <= k < |keys| - 1 ==> Keys(s.rest, marker)[k] == keys[k + 1];
      MarkerFreeValuesAreUndisturbed(s.rest, marker, lookup);
      var l := lookup(s.key);
      if l.Known? {
        assert forall k :: 0 <= k < |l.value| ==> (l.value + s.rest)[k] == l.value[k];
        assert forall k :: 0 <= k < |l.value| ==> l.value[k] in l.value;
      }
    }
  }

  /** Only the keys of the text matter. */
  lemma {:induction false} OnlyKeysMatter(text: string, marker: char, f: string -> Lookup, g: string -> Lookup)
    requires forall k :: 0 <= k < |Keys(text, marker)| ==> f(Keys(text, marker)[k]) == g(Keys(text, marker)[k])
    ensures Substituted(text, marker, f) == Substituted(text, marker, g)
    ensures Undisturbed(text, marker, f) == Undisturbed(text, marker, g)
    decreases |text|
  {
    var s := FirstKey(text, marker);
    if s.Key? {
      var keys := Keys(text, marker);
      assert keys[0] == s.key && keys[1..] == Keys(s.rest, marker);
      assert forall k :: 0 <= k < |keys| - 1 ==> Keys(s.rest, marker)[k] == keys[k + 1];
      OnlyKeysMatter(s.rest, marker, f, g);
    }
  }

  /** A text whose keys are all unknown stays as it is. */
  lemma {:induction false} UnknownKeysStay(text: string, marker: char, lookup: string -> Lookup)
    requires forall k :: 0 <= k < |Keys(text, marker)| ==> lookup(Keys(text, marker)[k]).Unknown?
    ensures Substituted(text, marker, lookup).Ok? ==> Substituted(text, marker, lookup).value == text
    decreases |text|
  {
    var s := FirstKey(text, marker);
    if s.Key? {
      FirstKeyMeans(text, marker);
      var keys := Keys(text, marker);
      assert keys[0] == s.key && keys[1..] == Keys(s.rest, marker);
      assert forall k :: 0 <= k < |keys| - 1 ==> Keys(s.rest, marker)[k] == keys[k + 1];
      UnknownKeysStay(s.rest, marker, lookup);
    }
  }

  // ----- the two expanders

  /** The free-standing expander hands the key over as it is. */
  function Direct(resolve: string -> Option<string>): string -> Lookup {
    (key: string) => if resolve(key).Some? then Known(resolve(key).value) else Unknown
  }

  /** `String::expand` first takes a slice `[from:to]` off the key. `range` reads
      the two numbers; it is `None` where the source throws. */
  function WithSlice(resolve: string -> Option<string>, range: string -> Option<(nat, nat)>): string -> Lookup {
    (key: string) =>
      var ix := FindChar(key, '[', 0);
      if ix == |key| then Direct(resolve)(key)
      else
        var iy := FindChar(key, ']', ix + 1);
        if iy == |key| || range(key[ix + 1..iy]).None? then Malformed
        else
          var (a, b) := range(key[ix + 1..iy]).value;
          if a == b then Malformed
          else Slice(Direct(resolve)(key[..ix]), a, b)
  }

  /** `substr`, which throws when the start is beyond the end. */
  function Slice(l: Lookup, a: nat, b: nat): Lookup {
    if !l.Known? || b <= a then l
    else if a > |l.value| then Malformed
    else Known(l.value[a..if b < |l.value| then b else |l.value|])
  }

  /** A slice is as long as asked for, or as the value allows, and begins where
      asked; one that begins beyond the end is an error, and one whose end is
      before its start is the whole value. */
  lemma {:induction false} SliceIsPart(v: string, a: nat, b: nat)
    ensures b <= a ==> Slice(Known(v), a, b) == Known(v)
    ensures a < b && a > |v| ==> Slice(Known(v), a, b) == Malformed
    ensures a < b && a <= |v| ==>
      var r := Slice(Known(v), a, b);
      && r.Known?
      && |r.value| == (if b <= |v| then b - a else |v| - a)
      && forall k :: 0 <= k < |r.value| ==> r.value[k] == v[a + k]
    ensures Slice(Unknown, a, b) == Unknown
  {
  }

  /** How `String::expand` reads a key without `[`: it is the name to resolve. */
  lemma {:induction false} PlainKeyIsRead(name: string, resolve: string -> Option<string>,
                                          range: string -> Option<(nat, nat)>)
    requires '[' !in name
    ensures WithSlice(resolve, range)(name) == if resolve(name).Some? then Known(resolve(name).value) else Unknown
    ensures Direct(resolve)(name) == if resolve(name).Some? then Known(resolve(name).value) else Unknown
  {
    FindsNone(name, '[', 0);
    assert WithSlice(resolve, range)(name) == Direct(resolve)(name);
  }

  /** With one, the name ends there, and up to the next `]` stand the two numbers.
      What follows the `]` is ignored. */
  lemma {:induction false} SlicedKeyIsRead(name: string, numbers: string, rest: string, resolve: string -> Option<string>,
                                           range: string -> Option<(nat, nat)>)
    requires '[' !in name && ']' !in numbers
    ensures WithSlice(resolve, range)(name + "[" + numbers) == Malformed
    ensures var l := WithSlice(resolve, range)(name + "[" + numbers + "]" + rest);
      match range(numbers)
      case None => l == Malformed
      case Some((a, b)) =>
        if a == b then l == Malformed
        else l == Slice(if resolve(name).Some? then Known(resolve(name).value) else Unknown, a, b)
  {
    var open := name + "[" + numbers;
    assert open == name + ['['] + numbers;
    FindsFirst(name, '[', numbers, 0);
    FindsNone(open, ']', |name| + 1);
    var full := open + "]" + rest;
    assert full == name + ['['] + (numbers + "]" + rest);
    FindsFirst(name, '[', numbers + "]" + rest, 0);
    assert full == open + [']'] + rest;
    FindsFirst(open, ']', rest, |name| + 1);
    assert full[|name| + 1..|open|] == numbers && full[..|name|] == name;
    assert Direct(resolve)(name) == if resolve(name).Some? then Known(resolve(name).value) else Unknown;
  }

  lemma {:induction false} FindsFirst(before: string, c: char, after: string, k: nat)
    requires k <= |before| && forall j :: k <= j < |before| ==> before[j] != c
    ensures FindChar(before + [c] + after, c, k) == |before|
  {
    var t := before + [c] + after;
    assert t[|before|] == c;
    assert forall j :: k <= j < |before| ==> t[j] == before[j];
  }

  lemma {:induction false} FindsNone(t: string, c: char, k: nat)
    requires forall j :: k <= j < |t| ==> t[j] != c
    ensures FindChar(t, c, k) == |t|
  {
  }

  /** Without `[` in its keys a text means the same to both expanders. */
  lemma {:induction false} ExpandersAgree(text: string, marker: char, resolve: string -> Option<string>,
                       range: string -> Option<(nat, nat)>)
    requires forall k :: 0 <= k < |Keys(text, marker)| ==> '[' !in Keys(text, marker)[k]
    ensures Substituted(text, marker, WithSlice(resolve, range)) == Substituted(text, marker, Direct(resolve))
    ensures Undisturbed(text, marker, WithSlice(resolve, range)) == Undisturbed(text, marker, Direct(resolve))
  {
    var f, g := WithSlice(resolve, range), Direct(resolve);
    forall k | 0 <= k < |Keys(text, marker)| ensures f(Keys(text, marker)[k]) == g(Keys(text, marker)[k]) {
      var key := Keys(text, marker)[k];
      assert forall j :: 0 <= j < |key| ==> key[j] in key;
      assert FindChar(key, '[', 0) == |key|;
    }
    OnlyKeysMatter(text, marker, f, g);
  }

  // ----- the loop as it runs

  /** The text and position after one turn at a key that opens at `from`. */
  function Turn(text: string, marker: char, from: nat, lookup: string -> Lookup): (r: Result<(string, nat), Error>)
    requires from < |text|
    ensures r.Ok? ==> r.value.1 <= |r.value.0|
  {
    var to := Close(text, from);
    if to == |text| then Err(InvalidUse)
    else
      match lookup(text[from + 2..to])
      case Malformed => Err(InvalidUse)
      case Known(v) =>
        var text' := text[..from] + v + text[to + 1..];
        Ok((text', FindStart(text', marker, from)))
      case Unknown => Ok((text, FindStart(text, marker, to + 1)))
  }

  /** What is known after some turns: that it is not over yet, that it failed, or
      the text and how many of the turns were not needed. */
  datatype Outcome = Pending | Failed | Done(text: string, left: nat)

  /** The loop at `from`, for at most `n` turns. */
  function Looped(text: string, marker: char, from: nat, lookup: string -> Lookup, n: nat): Outcome
    requires from <= |text|
    decreases n
  {
    if from == |text| then Done(text, n)
    else if n == 0 then Pending
    else
      match Turn(text, marker, from, lookup)
      case Err(_) => Failed
      case Ok(next) => Looped(next.0, marker, next.1, lookup, n - 1)
  }

  function Preceded(done: string, o: Outcome): Outcome {
    if o.Done? then Done(done + o.text, o.left) else o
  }

  /** The same on the unfinished text alone: a value that is inserted is looked at
      again, together with what follows it. */
  function Rescanned(todo: string, marker: char, lookup: string -> Lookup, n: nat): Outcome
    decreases n
  {
    match FirstKey(todo, marker)
    case NoKey => Done(todo, n)
    case Unclosed => if n == 0 then Pending else Failed
    case Key(before, key, written, rest) =>
      if n == 0 then Pending
      else
        match lookup(key)
        case Malformed => Failed
        case Known(v) => Preceded(before, Rescanned(v + rest, marker, lookup, n - 1))
        case Unknown => Preceded(before + written, Rescanned(rest, marker, lookup, n - 1))
  }

  ghost predicate Ends(text: string, marker: char, lookup: string -> Lookup) {
    exists n: nat :: !Rescanned(text, marker, lookup, n).Pending?
  }

  predicate Gives(o: Outcome, r: Result<string, Error>) {
    (o.Done? && r == Ok(o.text)) || (o.Failed? && r.Err?)
  }

  ghost predicate Yields(text: string, marker: char, lookup: string -> Lookup, r: Result<string, Error>) {
    exists n: nat :: Gives(Rescanned(text, marker, lookup, n), r)
  }

  /** A turn at a key leaves the loop where it was if and only if the value of the
      key is the key itself, written out. */
  lemma {:induction false} TurnStandsStillExactly(text: string, marker: char, from: nat, lookup: string -> Lookup)
    requires StartsAt(text, marker, from) && Close(text, from) < |text|
    ensures var to := Close(text, from);
      Turn(text, marker, from, lookup) == Ok((text, from)) <==>
        lookup(text[from + 2..to]) == Known(text[from..to + 1])
  {
    hide FindChar;
    var to := Close(text, from);
    assert text[..from] + text[from..to + 1] + text[to + 1..] == text;
    match lookup(text[from + 2..to])
    case Known(v) =>
      var text' := text[..from] + v + text[to + 1..];
      if text' == text {
        assert |v| == to + 1 - from;
        assert text'[from..to + 1] == v;
      }
    case _ =>
  }

  /** Then it is never finished, however many turns it takes. */
  lemma {:induction false} SelfReferenceNeverEnds(text: string, marker: char, from: nat, lookup: string -> Lookup, n: nat)
    requires StartsAt(text, marker, from) && Close(text, from) < |text|
    requires var to := Close(text, from); lookup(text[from + 2..to]) == Known(text[from..to + 1])
    ensures Looped(text, marker, from, lookup, n) == Pending
    decreases n
  {
    TurnStandsStillExactly(text, marker, from, lookup);
    if n > 0 {
      SelfReferenceNeverEnds(text, marker, from, lookup, n - 1);
    }
  }

  // ----- the loops

  lemma {:induction false} FindStartShift(text: string, marker: char, p: nat, k: nat)
    requires p <= k <= |text|
    ensures FindStart(text, marker, k) == p + FindStart(text[p..], marker, k - p)
    decreases |text| - k
  {
    if k < |text| {
      assert StartsAt(text, marker, k) <==> StartsAt(text[p..], marker, k - p);
      if !StartsAt(text, marker, k) {
        FindStartShift(text, marker, p, k + 1);
      }
    }
  }

  lemma {:induction false} FindCharShift(text: string, c: char, p: nat, k: nat)
    requires p <= k && p <= |text|
    ensures FindChar(text, c, k) == p + FindChar(text[p..], c, k - p)
    decreases |text| - k
  {
    if k < |text| && text[k] != c {
      FindCharShift(text, c, p, k + 1);
    }
  }

  /** Nothing starts between `p` and `q`: searching from either is the same. */
  lemma {:induction false} FindStartSkips(text: string, marker: char, p: nat, q: nat)
    requires p <= q <= |text| && forall k :: p <= k < q ==> !StartsAt(text, marker, k)
    ensures FindStart(text, marker, p) == FindStart(text, marker, q)
    decreases q - p
  {
    if p < q {
      FindStartSkips(text, marker, p + 1, q);
    }
  }

  /** The first key of the unfinished part, as the loop sees it. */
  lemma {:induction false} FirstKeyFrom(text: string, marker: char, p: nat)
    requires p <= |text|
    ensures var from := FindStart(text, marker, p);
      FirstKey(text[p..], marker) ==
        if from == |text| then NoKey
        else
          var to := Close(text, from);
          if to == |text| then Unclosed
          else Key(text[p..from], text[from + 2..to], text[from..to + 1], text[to + 1..])
  {
    hide FindStart, Close, FirstKey, StartsAt;
    var t, from := text[p..], FindStart(text, marker, p);
    FindStartShift(text, marker, p, p);
    FirstKeyIs(t, marker);
    if from < |text| {
      CloseShift(text, p, from);
      var to := Close(text, from);
      if to < |text| {
        Slices(text, p, from, to);
      }
    }
  }

  lemma {:induction false} CloseShift(text: string, p: nat, from: nat)
    requires p <= from && p <= |text|
    ensures Close(text, from) == p + Close(text[p..], from - p)
  {
    FindCharShift(text, '}', p, from + 3);
  }

  lemma {:induction false} Slices(text: string, p: nat, from: nat, to: nat)
    requires p <= from && from + 2 <= to < |text|
    ensures text[p..][..from - p] == text[p..from]
    ensures text[p..][from - p + 2..to - p] == text[from + 2..to]
    ensures text[p..][from - p..to - p + 1] == text[from..to + 1]
    ensures text[p..][to - p + 1..] == text[to + 1..]
  {
  }

  lemma {:induction false} PrecededTwice(a: string, b: string, o: Outcome)
    ensures Preceded(a, Preceded(b, o)) == Preceded(a + b, o)
  {
    if o.Done? {
      assert a + (b + o.text) == (a + b) + o.text;
    }
  }

  lemma {:induction false} LoopedTurn(text: string, marker: char, from: nat, lookup: string -> Lookup, n: nat)
    requires from < |text| && n > 0
    ensures var to := Close(text, from);
      Looped(text, marker, from, lookup, n) ==
        if to == |text| then Failed
        else
          match lookup(text[from + 2..to])
          case Malformed => Failed
          case Known(v) =>
            var text' := text[..from] + v + text[to + 1..];
            Looped(text', marker, FindStart(text', marker, from), lookup, n - 1)
          case Unknown => Looped(text, marker, FindStart(text, marker, to + 1), lookup, n - 1)
  {
  }

  lemma {:induction false} RescannedTurn(todo: string, marker: char, lookup: string -> Lookup, n: nat)
    requires !FirstKey(todo, marker).NoKey? && n > 0
    ensures Rescanned(todo, marker, lookup, n) ==
      match FirstKey(todo, marker)
      case NoKey => Failed
      case Unclosed => Failed
      case Key(before, key, written, rest) =>
        match lookup(key)
        case Malformed => Failed
        case Known(v) => Preceded(before, Rescanned(v + rest, marker, lookup, n - 1))
        case Unknown => Preceded(before + written, Rescanned(rest, marker, lookup, n - 1))
  {
  }

  lemma {:induction false} RescannedOut(todo: string, marker: char, lookup: string -> Lookup, n: nat)
    ensures FirstKey(todo, marker).NoKey? ==> Rescanned(todo, marker, lookup, n) == Done(todo, n)
    ensures !FirstKey(todo, marker).NoKey? ==> Rescanned(todo, marker, lookup, 0) == Pending
  {
  }

  lemma {:induction false} TwoParts(text: string, p: nat)
    requires p <= |text|
    ensures text[..p] + text[p..] == text
  {
  }

  /** The loop in place does to the text from `p` on what rescanning does to that
      part alone, turn by turn. */
  lemma {:induction false} LoopIsRescan(text: string, marker: char, p: nat, lookup: string -> Lookup, n: nat)
    requires p <= |text|
    ensures Looped(text, marker, FindStart(text, marker, p), lookup, n) ==
      Preceded(text[..p], Rescanned(text[p..], marker, lookup, n))
    decreases n
  {
    hide FindStart, FindChar, FirstKey, Looped, Rescanned;
    FirstKeyFrom(text, marker, p);
    RescannedOut(text[p..], marker, lookup, n);
    var from := FindStart(text, marker, p);
    if from == |text| {
      LoopedToTheEnd(text, marker, lookup, n);
      TwoParts(text, p);
    } else if n == 0 {
      LoopedOut(text, marker, from, lookup);
    } else {
      LoopedTurn(text, marker, from, lookup, n);
      RescannedTurn(text[p..], marker, lookup, n);
      var to := Close(text, from);
      if to < |text| {
        match lookup(text[from + 2..to]) {
          case Malformed =>
          case Known(v) => LoopIsRescanAtKnown(text, marker, p, from, to, v, lookup, n);
          case Unknown => LoopIsRescanAtUnknown(text, marker, p, from, to, lookup, n);
        }
      }
    }
  }

  lemma {:induction false} LoopIsRescanAtUnknown(text: string, marker: char, p: nat, from: nat, to: nat,
                                                 lookup: string -> Lookup, n: nat)
    requires p <= from < to < |text| && n > 0
    ensures Looped(text, marker, FindStart(text, marker, to + 1), lookup, n - 1) ==
      Preceded(text[..p], Preceded(text[p..from] + text[from..to + 1], Rescanned(text[to + 1..], marker, lookup, n - 1)))
    decreases n, 0
  {
    hide FindStart, FindChar, FirstKey, Looped, Rescanned;
    LoopIsRescan(text, marker, to + 1, lookup, n - 1);
    PrecededTwice(text[..p], text[p..from] + text[from..to + 1], Rescanned(text[to + 1..], marker, lookup, n - 1));
    assert text[..p] + (text[p..from] + text[from..to + 1]) == text[..to + 1];
  }

  lemma {:induction false} LoopIsRescanAtKnown(text: string, marker: char, p: nat, from: nat, to: nat, v: string,
                                               lookup: string -> Lookup, n: nat)
    requires p <= from < to < |text| && n > 0
    ensures var text' := text[..from] + v + text[to + 1..];
      Looped(text', marker, FindStart(text', marker, from), lookup, n - 1) ==
        Preceded(text[..p], Preceded(text[p..from], Rescanned(v + text[to + 1..], marker, lookup, n - 1)))
    decreases n, 0
  {
    hide FindStart, FindChar, FirstKey, Looped, Rescanned;
    var text' := text[..from] + v + text[to + 1..];
    LoopIsRescan(text', marker, from, lookup, n - 1);
    assert text'[from..] == v + text[to + 1..] && text'[..from] == text[..from];
    PrecededTwice(text[..p], text[p..from], Rescanned(v + text[to + 1..], marker, lookup, n - 1));
    assert text[..p] + text[p..from] == text[..from];
  }

  /** More turns than needed change nothing. */
  lemma {:induction false} MoreTurns(todo: string, marker: char, lookup: string -> Lookup, n: nat, m: nat)
    requires !Rescanned(todo, marker, lookup, n).Pending?
    ensures var o := Rescanned(todo, marker, lookup, n);
      Rescanned(todo, marker, lookup, n + m) == if o.Done? then Done(o.text, o.left + m) else o
    decreases n
  {
    hide FirstKey;
    var s := FirstKey(todo, marker);
    if s.Key? {
      match lookup(s.key)
      case Malformed =>
      case Known(v) => MoreTurns(v + s.rest, marker, lookup, n - 1, m);
      case Unknown => MoreTurns(s.rest, marker, lookup, n - 1, m);
    }
  }

  lemma {:induction false} YieldsOne(text: string, marker: char, lookup: string -> Lookup, r: Result<string, Error>,
                                     q: Result<string, Error>)
    requires Yields(text, marker, lookup, r) && Yields(text, marker, lookup, q)
    ensures r.Ok? == q.Ok? && (r.Ok? ==> r.value == q.value)
  {
    hide Rescanned;
    var n: nat :| Gives(Rescanned(text, marker, lookup, n), r);
    var m: nat :| Gives(Rescanned(text, marker, lookup, m), q);
    if n <= m {
      MoreTurns(text, marker, lookup, n, m - n);
    } else {
      MoreTurns(text, marker, lookup, m, n - m);
    }
  }

  /** A key that is not closed is an error, and so is one that is malformed. */
  lemma {:induction false} BadKeysFail(text: string, marker: char, lookup: string -> Lookup)
    requires match FirstKey(text, marker)
      case NoKey => false
      case Unclosed => true
      case Key(_, key, _, _) => lookup(key) == Malformed
    ensures Yields(text, marker, lookup, Err(InvalidUse))
    ensures !exists s: string :: Yields(text, marker, lookup, Ok(s))
  {
    hide FirstKey;
    assert Gives(Rescanned(text, marker, lookup, 1), Err(InvalidUse));
    forall s: string ensures !Yields(text, marker, lookup, Ok(s)) {
      if Yields(text, marker, lookup, Ok(s)) {
        YieldsOne(text, marker, lookup, Err(InvalidUse), Ok(s));
      }
    }
  }

  // ----- values that begin no key

  /** Nothing starts in `v`: its text comes out first. */
  lemma {:induction false} PlainPrefix(v: string, rest: string, marker: char)
    requires FindStart(v + rest, marker, 0) >= |v|
    ensures FirstKey(v + rest, marker) ==
      match FirstKey(rest, marker)
      case Key(before, key, written, after) => Key(v + before, key, written, after)
      case other => other
  {
    hide FindStart, FindChar, FirstKey;
    var t := v + rest;
    FindStartSkips(t, marker, 0, |v|);
    FirstKeyFrom(t, marker, 0);
    FirstKeyFrom(t, marker, |v|);
    assert t[0..] == t && t[|v|..] == rest;
    var from := FindStart(t, marker, 0);
    assert t[0..from] == v + t[|v|..from];
  }

  lemma {:induction false} PlainPrefixComesOut(v: string, rest: string, marker: char, lookup: string -> Lookup, n: nat)
    requires FindStart(v + rest, marker, 0) >= |v|
    ensures Rescanned(v + rest, marker, lookup, n) == Preceded(v, Rescanned(rest, marker, lookup, n))
  {
    hide FindStart, FirstKey;
    PlainPrefix(v, rest, marker);
    var s := FirstKey(rest, marker);
    if s.Key? && n > 0 {
      match lookup(s.key)
      case Malformed =>
      case Known(x) => PrecededTwice(v, s.before, Rescanned(x + s.rest, marker, lookup, n - 1));
      case Unknown =>
        PrecededTwice(v, s.before + s.written, Rescanned(s.rest, marker, lookup, n - 1));
        assert (v + s.before) + s.written == v + (s.before + s.written);
    }
  }

  function Resulting(r: Result<string, Error>, left: nat): Outcome {
    if r.Ok? then Done(r.value, left) else Failed
  }

  /** The turns the loop takes when no value begins a new key. */
  function PlainTurns(text: string, marker: char, lookup: string -> Lookup): nat
    decreases |text|
  {
    match FirstKey(text, marker)
    case NoKey => 0
    case Unclosed => 1
    case Key(_, key, _, rest) => if lookup(key).Malformed? then 1 else 1 + PlainTurns(rest, marker, lookup)
  }

  /** Then the loop ends, and its result is the simultaneous substitution. */
  lemma {:induction false} UndisturbedSubstitutes(text: string, marker: char, lookup: string -> Lookup, left: nat)
    requires Undisturbed(text, marker, lookup)
    ensures Rescanned(text, marker, lookup, PlainTurns(text, marker, lookup) + left) ==
      Resulting(Substituted(text, marker, lookup), left)
    decreases |text|
  {
    hide FirstKey, FindStart, Rescanned;
    var n := PlainTurns(text, marker, lookup) + left;
    RescannedOut(text, marker, lookup, n);
    var s := FirstKey(text, marker);
    if !s.NoKey? {
      RescannedTurn(text, marker, lookup, n);
    }
    if s.Key? {
      match lookup(s.key)
      case Malformed =>
      case Known(v) =>
        UndisturbedSubstitutes(s.rest, marker, lookup, left);
        PlainPrefixComesOut(v, s.rest, marker, lookup, n - 1);
        PrecededTwice(s.before, v, Rescanned(s.rest, marker, lookup, n - 1));
      case Unknown =>
        UndisturbedSubstitutes(s.rest, marker, lookup, left);
    }
  }

  lemma {:induction false} UndisturbedEnds(text: string, marker: char, lookup: string -> Lookup)
    requires Undisturbed(text, marker, lookup)
    ensures Ends(text, marker, lookup)
    ensures Yields(text, marker, lookup, Substituted(text, marker, lookup))
  {
    hide Rescanned, Substituted;
    UndisturbedSubstitutes(text, marker, lookup, 0);
    assert Gives(Rescanned(text, marker, lookup, PlainTurns(text, marker, lookup) + 0), Substituted(text, marker, lookup));
  }

  lemma {:induction false} UndisturbedGives(text: string, marker: char, lookup: string -> Lookup, n: nat)
    requires !Rescanned(text, marker, lookup, n).Pending?
    ensures Undisturbed(text, marker, lookup) ==>
      Gives(Rescanned(text, marker, lookup, n), Substituted(text, marker, lookup))
  {
    hide Rescanned, Substituted, PlainTurns, FirstKey, FindStart;
    if Undisturbed(text, marker, lookup) {
      UndisturbedSubstitutes(text, marker, lookup, n);
      MoreTurns(text, marker, lookup, n, PlainTurns(text, marker, lookup));
    }
  }

  // ----- values with keys of their own

  /** The keys of `v` are complete, and nothing that follows `v` can join its end
      to make another. */
  predicate Contained(v: string, marker: char)
    decreases |v|
  {
    match FirstKey(v, marker)
    case NoKey => v == "" || v[|v| - 1] != marker
    case Unclosed => false
    case Key(_, _, _, rest) => Contained(rest, marker)
  }

  ghost predicate ContainedValues(marker: char, lookup: string -> Lookup) {
    forall key :: lookup(key).Known? ==> Contained(lookup(key).value, marker)
  }

  /** Each key stands for its value with the keys of that value expanded first,
      to a depth of `d`. */
  function Deep(marker: char, lookup: string -> Lookup, d: nat): string -> Lookup
    decreases d
  {
    (key: string) =>
      match lookup(key)
      case Known(v) =>
        if d == 0 then Malformed
        else
          var r := Substituted(v, marker, Deep(marker, lookup, d - 1));
          if r.Ok? then Known(r.value) else Malformed
      case other => other
  }

  /** The keys nest at most `d` deep, up to the first error. */
  predicate Shallow(text: string, marker: char, lookup: string -> Lookup, d: nat)
    decreases d, |text|
  {
    match FirstKey(text, marker)
    case NoKey => true
    case Unclosed => true
    case Key(_, key, _, rest) =>
      match lookup(key)
      case Malformed => true
      case Unknown => Shallow(rest, marker, lookup, d)
      case Known(v) =>
        && d > 0 && Shallow(v, marker, lookup, d - 1)
        && (Deep(marker, lookup, d)(key).Known? ==> Shallow(rest, marker, lookup, d))
  }

  /** A key of `v` stays the first key whatever follows `v`. */
  lemma {:induction false} KeyPrefix(v: string, rest: string, marker: char)
    requires FirstKey(v, marker).Key?
    ensures var s := FirstKey(v, marker);
      FirstKey(v + rest, marker) == Key(s.before, s.key, s.written, s.rest + rest)
  {
    hide FindStart, FindChar, FirstKey;
    FirstKeyIs(v, marker);
    FirstKeyIs(v + rest, marker);
    var t := v + rest;
    var j := FindStart(v, marker, 0);
    FindStartPrefix(v, rest, marker, 0);
    FindCharPrefix(v, rest, '}', j + 3);
    var to := Close(v, j);
    assert t[..j] == v[..j] && t[j + 2..to] == v[j + 2..to] && t[j..to + 1] == v[j..to + 1];
    assert t[to + 1..] == v[to + 1..] + rest;
  }

  lemma {:induction false} FindStartPrefix(v: string, rest: string, marker: char, k: nat)
    requires k <= |v| && FindStart(v, marker, k) < |v|
    ensures FindStart(v + rest, marker, k) == FindStart(v, marker, k)
    decreases |v| - k
  {
    if !StartsAt(v, marker, k) && k < |v| {
      FindStartPrefix(v, rest, marker, k + 1);
    }
  }

  lemma {:induction false} FindCharPrefix(v: string, rest: string, c: char, k: nat)
    requires FindChar(v, c, k) < |v|
    ensures FindChar(v + rest, c, k) == FindChar(v, c, k)
    decreases |v| - k
  {
    if k < |v| && v[k] != c {
      FindCharPrefix(v, rest, c, k + 1);
    }
  }

  lemma {:induction false} PlainContained(v: string, rest: string, marker: char)
    requires FirstKey(v, marker).NoKey? && Contained(v, marker)
    ensures FindStart(v + rest, marker, 0) >= |v|
  {
    FirstKeyMeans(v, marker);
    forall k | 0 <= k < |v| ensures !StartsAt(v + rest, marker, k) {
      assert !StartsAt(v, marker, k);
    }
  }

  lemma {:induction false} ContainedAppend(v: string, w: string, marker: char)
    requires Contained(v, marker) && Contained(w, marker)
    ensures Contained(v + w, marker)
    decreases |v|
  {
    hide FindStart, FindChar, FirstKey;
    var s := FirstKey(v, marker);
    if s.Key? {
      KeyPrefix(v, w, marker);
      ContainedAppend(s.rest, w, marker);
    } else {
      PlainContained(v, w, marker);
      PlainPrefix(v, w, marker);
      if w == "" { assert v + w == v; }
    }
  }

  function Then(o: Outcome, rest: string, marker: char, lookup: string -> Lookup): Outcome {
    if o.Done? then Preceded(o.text, Rescanned(rest, marker, lookup, o.left)) else o
  }

  /** A contained text is finished before what follows it is looked at. */
  lemma {:induction false} OneAfterTheOther(v: string, rest: string, marker: char, lookup: string -> Lookup, n: nat)
    requires ContainedValues(marker, lookup) && Contained(v, marker)
    ensures Rescanned(v + rest, marker, lookup, n) == Then(Rescanned(v, marker, lookup, n), rest, marker, lookup)
    decreases n
  {
    hide FindStart, FindChar, FirstKey, Rescanned;
    var s := FirstKey(v, marker);
    RescannedOut(v, marker, lookup, n);
    RescannedOut(v + rest, marker, lookup, n);
    if s.NoKey? {
      PlainContained(v, rest, marker);
      PlainPrefixComesOut(v, rest, marker, lookup, n);
    } else {
      KeyPrefix(v, rest, marker);
      if n > 0 {
        RescannedTurn(v, marker, lookup, n);
        RescannedTurn(v + rest, marker, lookup, n);
        match lookup(s.key) {
          case Malformed =>
          case Known(x) =>
            ContainedAppend(x, s.rest, marker);
            assert x + (s.rest + rest) == (x + s.rest) + rest;
            OneAfterTheOther(x + s.rest, rest, marker, lookup, n - 1);
            ThenPreceded(s.before, Rescanned(x + s.rest, marker, lookup, n - 1), rest, marker, lookup);
          case Unknown =>
            OneAfterTheOther(s.rest, rest, marker, lookup, n - 1);
            ThenPreceded(s.before + s.written, Rescanned(s.rest, marker, lookup, n - 1), rest, marker, lookup);
        }
      }
    }
  }

  lemma {:induction false} ThenPreceded(done: string, o: Outcome, rest: string, marker: char, lookup: string -> Lookup)
    ensures Then(Preceded(done, o), rest, marker, lookup) == Preceded(done, Then(o, rest, marker, lookup))
  {
    hide Rescanned;
    if o.Done? {
      PrecededTwice(done, o.text, Rescanned(rest, marker, lookup, o.left));
    }
  }

  /** The turns the loop takes when keys nest at most `d` deep. */
  function DeepTurns(text: string, marker: char, lookup: string -> Lookup, d: nat): nat
    decreases d, |text|
  {
    match FirstKey(text, marker)
    case NoKey => 0
    case Unclosed => 1
    case Key(_, key, _, rest) =>
      match lookup(key)
      case Malformed => 1
      case Unknown => 1 + DeepTurns(rest, marker, lookup, d)
      case Known(v) =>
        if d == 0 then 0
        else
          1 + DeepTurns(v, marker, lookup, d - 1)
          + if Deep(marker, lookup, d)(key).Known? then DeepTurns(rest, marker, lookup, d) else 0
  }

  /** When keys nest to a bounded depth the loop ends, and its result is the
      substitution of fully expanded values. */
  lemma {:induction false} ShallowExpands(text: string, marker: char, lookup: string -> Lookup, d: nat, left: nat)
    requires ContainedValues(marker, lookup) && Shallow(text, marker, lookup, d)
    ensures Rescanned(text, marker, lookup, DeepTurns(text, marker, lookup, d) + left) ==
      Resulting(Substituted(text, marker, Deep(marker, lookup, d)), left)
    decreases d, |text|
  {
    hide FirstKey, FindStart, Rescanned;
    var n := DeepTurns(text, marker, lookup, d) + left;
    RescannedOut(text, marker, lookup, n);
    var s := FirstKey(text, marker);
    if !s.NoKey? {
      RescannedTurn(text, marker, lookup, n);
    }
    if s.Key? {
      match lookup(s.key)
      case Malformed =>
      case Unknown => ShallowExpands(s.rest, marker, lookup, d, left);
      case Known(v) => ShallowKnown(text, marker, lookup, d, left, v);
    }
  }

  lemma {:induction false} ShallowKnown(text: string, marker: char, lookup: string -> Lookup, d: nat, left: nat, v: string)
    requires ContainedValues(marker, lookup) && Shallow(text, marker, lookup, d)
    requires FirstKey(text, marker).Key? && lookup(FirstKey(text, marker).key) == Known(v)
    ensures var s := FirstKey(text, marker);
      && DeepTurns(text, marker, lookup, d) > 0
      && Preceded(s.before, Rescanned(v + s.rest, marker, lookup, DeepTurns(text, marker, lookup, d) + left - 1)) ==
           Resulting(Substituted(text, marker, Deep(marker, lookup, d)), left)
    decreases d, |text|, 0
  {
    hide FirstKey, FindStart, Rescanned, Shallow, Substituted, DeepTurns, Deep, Contained;
    ShallowUnfolds(text, marker, lookup, d, v);
    var s := FirstKey(text, marker);
    var inner := Substituted(v, marker, Deep(marker, lookup, d - 1));
    var after := if inner.Ok? then DeepTurns(s.rest, marker, lookup, d) else 0;
    ShallowExpands(v, marker, lookup, d - 1, after + left);
    assert Contained(lookup(s.key).value, marker);
    OneAfterTheOther(v, s.rest, marker, lookup, DeepTurns(text, marker, lookup, d) + left - 1);
    if inner.Ok? {
      ShallowExpands(s.rest, marker, lookup, d, left);
      PrecededTwice(s.before, inner.value, Rescanned(s.rest, marker, lookup, after + left));
    }
  }

  /** What nesting means at a known key. */
  lemma {:induction false} ShallowUnfolds(text: string, marker: char, lookup: string -> Lookup, d: nat, v: string)
    requires Shallow(text, marker, lookup, d)
    requires FirstKey(text, marker).Key? && lookup(FirstKey(text, marker).key) == Known(v)
    ensures d > 0 && Shallow(v, marker, lookup, d - 1)
    ensures var s := FirstKey(text, marker);
      var inner := Substituted(v, marker, Deep(marker, lookup, d - 1));
      && (inner.Ok? ==> Shallow(s.rest, marker, lookup, d))
      && DeepTurns(text, marker, lookup, d) ==
           1 + DeepTurns(v, marker, lookup, d - 1) + (if inner.Ok? then DeepTurns(s.rest, marker, lookup, d) else 0)
      && Substituted(text, marker, Deep(marker, lookup, d)) ==
           if inner.Ok? then Glue(s.before + inner.value, Substituted(s.rest, marker, Deep(marker, lookup, d)))
           else Err(InvalidUse)
  {
    hide FirstKey, FindStart;
  }

  /** Looking deeper than needed changes nothing. */
  lemma {:induction false} DeeperIsSame(text: string, marker: char, lookup: string -> Lookup, d: nat, e: nat)
    requires Shallow(text, marker, lookup, d) && d <= e
    ensures Shallow(text, marker, lookup, e)
    ensures Substituted(text, marker, Deep(marker, lookup, d)) == Substituted(text, marker, Deep(marker, lookup, e))
    decreases d, |text|
  {
    hide FirstKey, FindStart;
    var s := FirstKey(text, marker);
    if s.Key? {
      match lookup(s.key)
      case Malformed =>
      case Unknown => DeeperIsSame(s.rest, marker, lookup, d, e);
      case Known(v) =>
        DeeperIsSame(v, marker, lookup, d - 1, e - 1);
        if Deep(marker, lookup, d)(s.key).Known? {
          DeeperIsSame(s.rest, marker, lookup, d, e);
        }
    }
  }

  /** A loop that ends has met keys nested to some depth only. */
  lemma {:induction false} EndsShallow(text: string, marker: char, lookup: string -> Lookup, n: nat) returns (d: nat)
    requires ContainedValues(marker, lookup) && !Rescanned(text, marker, lookup, n).Pending?
    ensures Shallow(text, marker, lookup, d)
    decreases n, |text|
  {
    hide FirstKey, FindStart, Rescanned;
    RescannedOut(text, marker, lookup, n);
    var s := FirstKey(text, marker);
    d := 0;
    if s.Key? {
      RescannedTurn(text, marker, lookup, n);
      match lookup(s.key)
      case Malformed =>
      case Unknown => d := EndsShallow(s.rest, marker, lookup, n - 1);
      case Known(v) => d := EndsShallowKnown(text, marker, lookup, n, v);
    }
  }

  lemma {:induction false} EndsShallowKnown(text: string, marker: char, lookup: string -> Lookup, n: nat, v: string) returns (d: nat)
    requires ContainedValues(marker, lookup) && n > 0
    requires FirstKey(text, marker).Key? && lookup(FirstKey(text, marker).key) == Known(v)
    requires !Rescanned(v + FirstKey(text, marker).rest, marker, lookup, n - 1).Pending?
    ensures Shallow(text, marker, lookup, d)
    decreases n, |text|, 0
  {
    hide FirstKey, FindStart, Rescanned, Shallow, Substituted, Deep, Contained;
    var s := FirstKey(text, marker);
    assert Contained(lookup(s.key).value, marker);
    OneAfterTheOther(v, s.rest, marker, lookup, n - 1);
    var d1 := EndsShallow(v, marker, lookup, n - 1);
    var o := Rescanned(v, marker, lookup, n - 1);
    d := d1 + 1;
    if o.Done? {
      LeftIsLess(v, marker, lookup, n - 1);
      var d2 := EndsShallow(s.rest, marker, lookup, o.left);
      d := if d1 + 1 > d2 then d1 + 1 else d2;
      DeeperIsSame(v, marker, lookup, d1, d - 1);
      DeeperIsSame(s.rest, marker, lookup, d2, d);
    } else {
      FailedStaysFailed(v, marker, lookup, d1, n - 1);
    }
    ShallowFolds(text, marker, lookup, d, v);
  }

  lemma {:induction false} ShallowFolds(text: string, marker: char, lookup: string -> Lookup, d: nat, v: string)
    requires FirstKey(text, marker).Key? && lookup(FirstKey(text, marker).key) == Known(v)
    requires d > 0 && Shallow(v, marker, lookup, d - 1)
    requires Substituted(v, marker, Deep(marker, lookup, d - 1)).Ok? ==>
      Shallow(FirstKey(text, marker).rest, marker, lookup, d)
    ensures Shallow(text, marker, lookup, d)
  {
    hide FirstKey, FindStart;
  }

  lemma {:induction false} LeftIsLess(todo: string, marker: char, lookup: string -> Lookup, n: nat)
    ensures var o := Rescanned(todo, marker, lookup, n); o.Done? ==> o.left <= n
    decreases n
  {
    hide FirstKey;
    var s := FirstKey(todo, marker);
    if s.Key? && n > 0 {
      match lookup(s.key)
      case Malformed =>
      case Known(v) => LeftIsLess(v + s.rest, marker, lookup, n - 1);
      case Unknown => LeftIsLess(s.rest, marker, lookup, n - 1);
    }
  }

  lemma {:induction false} FailedStaysFailed(v: string, marker: char, lookup: string -> Lookup, d: nat, n: nat)
    requires ContainedValues(marker, lookup) && Shallow(v, marker, lookup, d)
    requires Rescanned(v, marker, lookup, n).Failed?
    ensures Substituted(v, marker, Deep(marker, lookup, d)).Err?
  {
    hide FirstKey, FindStart, Rescanned, Substituted;
    ShallowExpands(v, marker, lookup, d, n);
    MoreTurns(v, marker, lookup, n, DeepTurns(v, marker, lookup, d));
  }

  /** The loop ends if and only if keys nest to some bounded depth. */
  lemma {:induction false} EndsExactly(text: string, marker: char, lookup: string -> Lookup)
    requires ContainedValues(marker, lookup)
    ensures Ends(text, marker, lookup) <==> exists d: nat :: Shallow(text, marker, lookup, d)
  {
    hide Rescanned, Shallow;
    if Ends(text, marker, lookup) {
      var n: nat :| !Rescanned(text, marker, lookup, n).Pending?;
      var d := EndsShallow(text, marker, lookup, n);
    }
    if d: nat :| Shallow(text, marker, lookup, d) {
      ShallowExpands(text, marker, lookup, d, 0);
      assert !Rescanned(text, marker, lookup, DeepTurns(text, marker, lookup, d) + 0).Pending?;
    }
  }

  /** Then it gives the text with each key replaced by its expanded value. */
  lemma {:induction false} NestedKeysExpand(text: string, marker: char, lookup: string -> Lookup, d: nat)
    requires ContainedValues(marker, lookup) && Shallow(text, marker, lookup, d)
    ensures Yields(text, marker, lookup, Substituted(text, marker, Deep(marker, lookup, d)))
  {
    hide Rescanned, Substituted, Shallow;
    ShallowExpands(text, marker, lookup, d, 0);
    assert Gives(Rescanned(text, marker, lookup, DeepTurns(text, marker, lookup, d) + 0),
                 Substituted(text, marker, Deep(marker, lookup, d)));
  }

  /** Keys whose values all begin with a key of the same set are never finished. */
  lemma {:induction false} CyclesNeverEnd(text: string, marker: char, lookup: string -> Lookup, cycle: set<string>, n: nat)
    requires FirstKey(text, marker).Key? && FirstKey(text, marker).key in cycle
    requires forall key :: key in cycle ==>
      && lookup(key).Known? && FirstKey(lookup(key).value, marker).Key?
      && FirstKey(lookup(key).value, marker).key in cycle
    ensures Rescanned(text, marker, lookup, n) == Pending
    decreases n
  {
    hide FirstKey, Rescanned;
    RescannedOut(text, marker, lookup, n);
    if n > 0 {
      var s := FirstKey(text, marker);
      RescannedTurn(text, marker, lookup, n);
      KeyPrefix(lookup(s.key).value, s.rest, marker);
      CyclesNeverEnd(lookup(s.key).value + s.rest, marker, lookup, cycle, n - 1);
    }
  }

  /** `rank` decreases from every known key to the keys of its value. */
  ghost predicate Ranked(marker: char, lookup: string -> Lookup, rank: string -> nat) {
    forall key, k :: lookup(key).Known? && 0 <= k < |Keys(lookup(key).value, marker)| ==>
      rank(Keys(lookup(key).value, marker)[k]) < rank(key)
  }

  /** With such a rank keys nest no deeper than the ranks of the text allow, so
      the loop ends on every text. */
  lemma {:induction false} RankedIsShallow(text: string, marker: char, lookup: string -> Lookup, rank: string -> nat, d: nat)
    requires Ranked(marker, lookup, rank)
    requires forall k :: 0 <= k < |Keys(text, marker)| ==> rank(Keys(text, marker)[k]) < d
    ensures Shallow(text, marker, lookup, d)
    decreases d, |text|
  {
    hide FirstKey, FindStart, Deep;
    var s := FirstKey(text, marker);
    if s.Key? {
      var keys := Keys(text, marker);
      assert keys[0] == s.key && keys[1..] == Keys(s.rest, marker);
      assert forall k :: 0 <= k < |keys| - 1 ==> Keys(s.rest, marker)[k] == keys[k + 1];
      RankedIsShallow(s.rest, marker, lookup, rank, d);
      var l := lookup(s.key);
      if l.Known? {
        RankedIsShallow(l.value, marker, lookup, rank, d - 1);
      }
    }
  }

  /** A string object that the loops rewrite in place. */
  class Text {
    var text: string

    constructor (text: string)
      ensures this.text == text
    {
      this.text := text;
    }

    /** The loop both expanders run; `false` stands for the exception. */
    method Rewrite(marker: char, lookup: string -> Lookup) returns (ok: bool)
      requires Ends(text, marker, lookup)
      modifies this
      ensures Yields(old(text), marker, lookup, if ok then Ok(text) else Err(InvalidUse))
      ensures Undisturbed(old(text), marker, lookup) ==>
        Gives(if ok then Done(text, 0) else Failed, Substituted(old(text), marker, lookup))
    {
      hide Rescanned, FindStart, FindChar, Looped, Turn, FirstKey;
      ghost var n: nat :| !Rescanned(text, marker, lookup, n).Pending?;
      ghost var whole := Rescanned(text, marker, lookup, n);
      LoopFromTheStart(text, marker, lookup, n);
      UndisturbedGives(text, marker, lookup, n);
      var from: nat := FindStart(text, marker, 0);
      while from < |text|
        invariant from <= |text|
        invariant Looped(text, marker, from, lookup, n) == whole
        decreases n
      {
        if n == 0 { LoopedOut(text, marker, from, lookup); }
        LoopedTurn(text, marker, from, lookup, n);
        var to := Close(text, from);
        if to == |text| {
          return false;
        }
        n := n - 1;
        match lookup(text[from + 2..to]) {
          case Malformed =>
            return false;
          case Known(v) =>
            text := text[..from] + v + text[to + 1..];
            from := FindStart(text, marker, from);
          case Unknown =>
            from := FindStart(text, marker, to + 1);
        }
      }
      LoopedToTheEnd(text, marker, lookup, n);
      ok := true;
    }

    /** `String::expand`. */
    method ExpandString(marker: char, resolve: string -> Option<string>, range: string -> Option<(nat, nat)>)
      returns (ok: bool)
      requires Ends(text, marker, WithSlice(resolve, range))
      modifies this
      ensures Yields(old(text), marker, WithSlice(resolve, range), if ok then Ok(text) else Err(InvalidUse))
      ensures Undisturbed(old(text), marker, WithSlice(resolve, range)) ==>
        Gives(if ok then Done(text, 0) else Failed, Substituted(old(text), marker, WithSlice(resolve, range)))
    {
      ok := Rewrite(marker, WithSlice(resolve, range));
    }

    /** The free-standing `expand`, which knows one marker. */
    method ExpandFree(resolve: string -> Option<string>) returns (ok: bool)
      requires Ends(text, '$', Direct(resolve))
      modifies this
      ensures Yields(old(text), '$', Direct(resolve), if ok then Ok(text) else Err(InvalidUse))
      ensures Undisturbed(old(text), '$', Direct(resolve)) ==>
        Gives(if ok then Done(text, 0) else Failed, Substituted(old(text), '$', Direct(resolve)))
    {
      ok := Rewrite('$', Direct(resolve));
    }
  }

  lemma {:induction false} LoopFromTheStart(text: string, marker: char, lookup: string -> Lookup, n: nat)
    ensures Looped(text, marker, FindStart(text, marker, 0), lookup, n) == Rescanned(text, marker, lookup, n)
  {
    LoopIsRescan(text, marker, 0, lookup, n);
    assert text[0..] == text;
    var o := Rescanned(text, marker, lookup, n);
    if o.Done? { assert "" + o.text == o.text; }
  }

  lemma {:induction false} LoopedOut(text: string, marker: char, from: nat, lookup: string -> Lookup)
    requires from < |text|
    ensures Looped(text, marker, from, lookup, 0) == Pending
  {
  }

  lemma {:induction false} LoopedToTheEnd(text: string, marker: char, lookup: string -> Lookup, n: nat)
    ensures Looped(text, marker, |text|, lookup, n) == Done(text, n)
  {
  }
}
