/** Splitting a command line into arguments, and printing them back. Strings
    are C strings: their end stands for the terminating NUL. */
module Arguments {
  import opened Wrappers

  datatype Error = MissingQuote

  predicate IsSpace(c: char) {
    c == ' ' || c == '\t' || c == '\n' || c == '\U{0B}' || c == '\U{0C}' || c == '\r'
  }

  predicate IsQuote(c: char) {
    c == '\'' || c == '\"'
  }

  // ----- what the parser computes

  /** The first index from `k` on that holds a space, or the length. */
  function SpaceFrom(t: string, k: nat): (m: nat)
    requires k <= |t|
    ensures k <= m <= |t| && (m < |t| ==> IsSpace(t[m]))
    ensures forall j :: k <= j < m ==> !IsSpace(t[j])
    decreases |t| - k
  {
    if k == |t| || IsSpace(t[k]) then k else SpaceFrom(t, k + 1)
  }

  /** The first index from `k` on that holds the quote, or the length. */
  function QuoteFrom(t: string, quote: char, k: nat): (m: nat)
    requires k <= |t|
    ensures k <= m <= |t| && (m < |t| ==> t[m] == quote)
    ensures forall j :: k <= j < m ==> t[j] != quote
    decreases |t| - k
  {
    if k == |t| || t[k] == quote then k else QuoteFrom(t, quote, k + 1)
  }

  function SkipSpaces(t: string): (r: string)
    ensures |r| <= |t| && (r != [] ==> !IsSpace(r[0]))
  {
    if t == [] || !IsSpace(t[0]) then t else SkipSpaces(t[1..])
  }

  /** The white space of the C locale and the two quotes, by number. */
  lemma {:induction false} SpacesAndQuotes(c: char)
    ensures IsSpace(c) <==> c as int in {9, 10, 11, 12, 13, 32}
    ensures IsQuote(c) <==> c as int in {34, 39}
  {
  }

  /** What is left is what follows the longest run of spaces. */
  lemma {:induction false} SkippedIsTheRest(t: string) returns (n: nat)
    ensures n <= |t| && SkipSpaces(t) == t[n..]
    ensures forall k :: 0 <= k < n ==> t[k] as int in {9, 10, 11, 12, 13, 32}
    ensures n < |t| ==> t[n] as int !in {9, 10, 11, 12, 13, 32}
    decreases |t|
  {
    n := 0;
    if t != [] && IsSpace(t[0]) {
      n := SkippedIsTheRest(t[1..]);
      assert t[1..][n..] == t[n + 1..];
      n := n + 1;
    }
  }

  function Prepend(value: string, r: Result<seq<string>, Error>): Result<seq<string>, Error> {
    if r.Err? then r else Ok([value] + r.value)
  }

  /** The arguments of a text that does not begin with a space. */
  function Scan(t: string): Result<seq<string>, Error>
    decreases |t|
  {
    if t == [] then Ok([])
    else if IsQuote(t[0]) then
      var m := QuoteFrom(t, t[0], 1);
      if m == |t| then Err(MissingQuote)
      else Prepend(t[1..m], Scan(SkipSpaces(t[m + 1..])))
    else
      var m := SpaceFrom(t, 1);
      Prepend(t[..m], if m == |t| then Ok([]) else Scan(SkipSpaces(t[m + 1..])))
  }

  function Parsed(t: string): Result<seq<string>, Error> {
    Scan(SkipSpaces(t))
  }

  function Join(args: seq<string>, sep: string): string
    requires args != []
  {
    if |args| == 1 then args[0] else args[0] + sep + Join(args[1..], sep)
  }

  // ----- when printing and parsing are inverse

  /** Neither empty nor quoted, and free of spaces. */
  predicate Plain(a: string) {
    && a != []
    && !IsQuote(a[0])
    && forall k :: 0 <= k < |a| ==> !IsSpace(a[k])
  }

  function Total(args: seq<string>): nat {
    if args == [] then 0 else |args[0]| + Total(args[1..])
  }

  lemma {:induction false} JoinLength(args: seq<string>)
    requires args != []
    ensures |Join(args, " ")| == Total(args) + |args| - 1
  {
    if |args| > 1 {
      JoinLength(args[1..]);
    }
  }

  /** The character belongs to an argument that is not quoted. */
  predicate InWord(c: char) {
    c as int !in {9, 10, 11, 12, 13, 32}
  }

  /** A run of characters that begins with no quote is one argument up to the
      next space, quotes inside it included; the space itself is dropped. */
  lemma {:induction false} WordIsTaken(word: string, space: char, rest: string)
    requires word != "" && word[0] as int !in {34, 39} && forall k :: 0 <= k < |word| ==> InWord(word[k])
    requires !InWord(space)
    ensures Scan(word) == Ok([word])
    ensures Scan(word + [space] + rest) == Prepended(word, Parsed(rest))
  {
    var t := word + [space] + rest;
    assert forall k :: 0 <= k < |word| ==> t[k] == word[k];
    assert t[|word|] == space;
    assert SpaceFrom(t, 1) == |word| && t[..|word|] == word && t[|word| + 1..] == rest;
    assert SpaceFrom(word, 1) == |word| && word[..|word|] == word;
    assert [word] + [] == [word];
  }

  /** A quoted run is one argument without its quotes, spaces and the other quote
      included. What follows the closing quote begins another argument. */
  lemma {:induction false} QuotedIsTaken(quote: char, body: string, rest: string)
    requires quote as int in {34, 39} && quote !in body
    ensures Scan([quote] + body + [quote] + rest) == Prepended(body, Parsed(rest))
    ensures Scan([quote] + body) == Err(MissingQuote)
  {
    var t := [quote] + body + [quote] + rest;
    var m := |body| + 1;
    assert forall k :: 1 <= k < m ==> t[k] == body[k - 1];
    assert t[m] == quote;
    assert QuoteFrom(t, quote, 1) == m && t[1..m] == body && t[m + 1..] == rest;
    var u := [quote] + body;
    assert forall k :: 1 <= k < m ==> u[k] == body[k - 1];
    assert QuoteFrom(u, quote, 1) == |u|;
  }

  /** The first argument and those of the rest, unless the rest has no end. */
  function Prepended(first: string, rest: Result<seq<string>, Error>): (r: Result<seq<string>, Error>)
    ensures rest.Err? ==> r.Err?
    ensures rest.Ok? ==> r.Ok? && |r.value| == |rest.value| + 1 && r.value[0] == first && r.value[1..] == rest.value
  {
    if rest.Ok? then Ok([first] + rest.value) else rest
  }

  /** A text that spends no more characters than its arguments and one space
      between each two holds only plain arguments. */
  lemma {:induction false} ScanSpends(t: string)
    requires t != [] && !IsSpace(t[0])
    ensures Scan(t).Ok? ==>
      var args := Scan(t).value;
      && args != []
      && |t| >= Total(args) + |args| - 1
      && (|t| == Total(args) + |args| - 1 ==> forall k :: 0 <= k < |args| ==> Plain(args[k]))
    decreases |t|
  {
    if Scan(t).Ok? {
      var args := Scan(t).value;
      var m := if IsQuote(t[0]) then QuoteFrom(t, t[0], 1) else SpaceFrom(t, 1);
      if m < |t| {
        var rest := SkipSpaces(t[m + 1..]);
        var more := Scan(rest).value;
        assert args[1..] == more;
        if rest != [] {
          ScanSpends(rest);
        }
        if !IsQuote(t[0]) && |t| == Total(args) + |args| - 1 {
          assert rest != [];
          assert Plain(args[0]);
          forall k | 0 <= k < |args| ensures Plain(args[k]) {
            if k > 0 { assert args[k] == more[k - 1]; }
          }
        }
      } else {
        assert t[..m] == t;
        assert args == [t] + [];
        assert args[1..] == [];
      }
    }
  }

  lemma {:induction false} PlainComesBack(args: seq<string>)
    requires args != [] && forall k :: 0 <= k < |args| ==> Plain(args[k])
    ensures Join(args, " ") != [] && !IsSpace(Join(args, " ")[0])
    ensures Scan(Join(args, " ")) == Ok(args)
    decreases |args|
  {
    var t := Join(args, " ");
    var a := args[0];
    assert Plain(a);
    assert forall k :: 0 <= k < |a| ==> t[k] == a[k];
    var m := SpaceFrom(t, 1);
    if |args| == 1 {
      assert m == |t| && t[..m] == a;
      assert args == [a] + [];
    } else {
      var rest := Join(args[1..], " ");
      PlainComesBack(args[1..]);
      assert t[|a|] == ' ' && t[|a| + 1..] == rest;
      assert m == |a|;
      assert t[..m] == a && SkipSpaces(rest) == rest;
      assert args == [a] + args[1..];
    }
  }

  /** Parsing the space-joined print of a list of arguments gives the list back
      if and only if every argument is plain. */
  lemma {:induction false} RoundTripsExactly(args: seq<string>)
    requires args != []
    ensures Parsed(Join(args, " ")) == Ok(args) <==> forall k :: 0 <= k < |args| ==> Plain(args[k])
  {
    var t := Join(args, " ");
    if forall k :: 0 <= k < |args| ==> Plain(args[k]) {
      PlainComesBack(args);
      assert SkipSpaces(t) == t;
    }
    if Parsed(t) == Ok(args) {
      JoinLength(args);
      ScanSpends(SkipSpaces(t));
    }
  }

  // ----- the loops over the text

  method SkipFrom(text: string, from: nat) returns (at: nat)
    requires from <= |text|
    ensures from <= at <= |text| && text[at..] == SkipSpaces(text[from..])
    ensures at < |text| ==> !IsSpace(text[at])
  {
    at := from;
    while at < |text| && IsSpace(text[at])
      invariant from <= at <= |text|
      invariant SkipSpaces(text[at..]) == SkipSpaces(text[from..])
    {
      assert text[at..][1..] == text[at + 1..];
      at := at + 1;
    }
  }

  /** The argument at `at` begins at `start` and ends before `mark`. */
  method ReadToken(text: string, at: nat) returns (start: nat, mark: nat)
    requires at < |text|
    ensures start == (if IsQuote(text[at]) then at + 1 else at)
    ensures at < mark <= |text|
    ensures mark == at + (if IsQuote(text[at]) then QuoteFrom(text[at..], text[at], 1) else SpaceFrom(text[at..], 1))
  {
    start, mark := at, at + 1;
    if IsQuote(text[at]) {
      start := at + 1;
      while mark < |text| && text[mark] != text[at]
        invariant at < mark <= |text|
        invariant forall j :: at < j < mark ==> text[j] != text[at]
      {
        mark := mark + 1;
      }
      QuoteFound(text, at, mark);
    } else {
      while mark < |text| && !IsSpace(text[mark])
        invariant at < mark <= |text|
        invariant forall j :: at < j < mark ==> !IsSpace(text[j])
      {
        mark := mark + 1;
      }
      SpaceFound(text, at, mark);
    }
  }

  // ----- the object

  class ArgumentList {
    var values: array?<Option<string>>
    var count: nat

    /** `count` entries and a terminating null, in an array of exactly that size. */
    ghost predicate Valid()
      reads this, values
    {
      && (values == null ==> count == 0)
      && (values != null ==>
            && values.Length == count + 1
            && values[count] == None
            && forall k :: 0 <= k < count ==> values[k].Some?)
    }

    function Contents(): (r: seq<string>)
      requires Valid()
      reads this, values
      ensures |r| == count
    {
      if values == null then []
      else seq(count, k requires 0 <= k < count && Valid() && values != null reads this, values => values[k].value)
    }

    constructor ()
      ensures Valid() && Contents() == []
    {
      values := null;
      count := 0;
    }

    method Append(arg: string)
      requires Valid()
      modifies this
      ensures Valid() && fresh(values)
      ensures Contents() == old(Contents()) + [arg]
    {
      if values != null {
        var larger := new Option<string>[count + 2](_ => None);
        var k := 0;
        while k < count
          invariant k <= count && values == old(values) && count == old(count) && Valid()
          invariant forall j :: 0 <= j < k ==> larger[j] == old(values[j])
          invariant forall j :: k <= j < larger.Length ==> larger[j] == None
        {
          larger[k] := values[k];
          k := k + 1;
        }
        values := larger;
      } else {
        values := new Option<string>[2](_ => None);
        count := 0;
      }
      values[count] := Some(arg);
      count := count + 1;
      values[count] := None;
    }

    /** One turn of the parser: append the argument at `at` and go to the next. */
    method TakeArgument(cmdline: string, at: nat) returns (ok: bool, next: nat, ghost value: string)
      requires Valid() && at < |cmdline|
      modifies this
      ensures Valid()
      ensures !ok ==> Scan(cmdline[at..]).Err?
      ensures ok ==> at < next <= |cmdline| && (next < |cmdline| ==> !IsSpace(cmdline[next]))
      ensures ok ==> Contents() == old(Contents()) + [value]
      ensures ok ==> Scan(cmdline[at..]) == Prepend(value, Scan(cmdline[next..]))
    {
      hide Scan, IsSpace, IsQuote, Prepend, SkipSpaces;
      var start, mark := ReadToken(cmdline, at);
      next := mark;
      if mark == |cmdline| && IsQuote(cmdline[at]) {
        ScanFails(cmdline, at);
        return false, next, "";
      }
      ScanTurn(cmdline, at, mark);
      value := cmdline[start..mark];
      Append(cmdline[start..mark]);
      if mark < |cmdline| {
        next := SkipFrom(cmdline, mark + 1);
      }
      ok := true;
      assert mark == |cmdline| ==> cmdline[next..] == "";
    }

    /** The constructor from a command line; `false` stands for the exception. */
    method Parse(cmdline: string) returns (ok: bool)
      requires Valid() && Contents() == []
      modifies this
      ensures Valid()
      ensures ok == Parsed(cmdline).Ok?
      ensures ok ==> Contents() == Parsed(cmdline).value
    {
      hide Scan, IsSpace, Prepend, SkipSpaces;
      ghost var whole := Parsed(cmdline);
      GlueLaws([], "", whole);
      assert cmdline[0..] == cmdline;
      var at := SkipFrom(cmdline, 0);
      while at < |cmdline|
        invariant at <= |cmdline| && Valid()
        invariant Glue(Contents(), Scan(cmdline[at..])) == whole
      {
        ghost var before := Contents();
        var next;
        ghost var value;
        ok, next, value := TakeArgument(cmdline, at);
        if !ok {
          return false;
        }
        GlueLaws(before, value, Scan(cmdline[next..]));
        at := next;
      }
      assert cmdline[at..] == "";
      ScanNothing();
      GlueLaws(Contents(), "", whole);
      ok := true;
    }

    /** `to_string`, on a list that holds at least one argument. */
    method Print(sep: string) returns (r: string)
      requires Valid() && count > 0
      ensures r == Join(Contents(), sep)
    {
      r := values[0].value;
      var k := 1;
      ghost var args := Contents();
      JoinOne(args, sep);
      while values[k].Some?
        decreases count - k
        invariant 1 <= k <= count
        invariant r == Join(args[..k], sep)
      {
        JoinSnoc(args[..k], args[k], sep);
        assert args[..k + 1] == args[..k] + [args[k]];
        r := r + sep;
        r := r + values[k].value;
        k := k + 1;
      }
      assert args[..k] == args;
    }
  }

  // ----- lemmas of the loops

  function Glue(done: seq<string>, r: Result<seq<string>, Error>): Result<seq<string>, Error> {
    if r.Err? then r else Ok(done + r.value)
  }

  lemma {:induction false} GlueLaws(done: seq<string>, value: string, r: Result<seq<string>, Error>)
    ensures Glue([], r) == r
    ensures Glue(done, Ok([])) == Ok(done)
    ensures Glue(done, Prepend(value, r)) == Glue(done + [value], r)
  {
    assert done + [] == done;
    if r.Ok? {
      assert [] + r.value == r.value;
      assert done + ([value] + r.value) == (done + [value]) + r.value;
    }
  }

  lemma {:induction false} QuoteFound(text: string, at: nat, mark: nat)
    requires at < mark <= |text| && (mark < |text| ==> text[mark] == text[at])
    requires forall j :: at < j < mark ==> text[j] != text[at]
    ensures QuoteFrom(text[at..], text[at], 1) == mark - at
  {
    var t := text[at..];
    assert forall j :: 0 <= j < |t| ==> t[j] == text[at + j];
  }

  lemma {:induction false} SpaceFound(text: string, at: nat, mark: nat)
    requires at < mark <= |text| && (mark < |text| ==> IsSpace(text[mark]))
    requires forall j :: at < j < mark ==> !IsSpace(text[j])
    ensures SpaceFrom(text[at..], 1) == mark - at
  {
    var t := text[at..];
    assert forall j :: 0 <= j < |t| ==> t[j] == text[at + j];
  }

  /** The scan that continues after an argument ending at `mark`. */
  function ScanAfter(text: string, mark: nat): Result<seq<string>, Error>
    requires mark <= |text|
  {
    if mark == |text| then Scan("") else Scan(SkipSpaces(text[mark + 1..]))
  }

  /** One turn of the outer loop. */
  lemma {:induction false} ScanTurn(text: string, at: nat, mark: nat)
    requires at < mark <= |text|
    requires IsQuote(text[at]) ==> mark < |text| && mark == at + QuoteFrom(text[at..], text[at], 1)
    requires !IsQuote(text[at]) ==> mark == at + SpaceFrom(text[at..], 1)
    ensures Scan(text[at..]) == Prepend(
      text[if IsQuote(text[at]) then at + 1 else at..mark], ScanAfter(text, mark))
  {
    var t := text[at..];
    if mark < |text| {
      assert t[mark - at + 1..] == text[mark + 1..];
    }
    assert t[1..mark - at] == text[at + 1..mark];
    assert t[..mark - at] == text[at..mark];
  }

  lemma {:induction false} ScanFails(text: string, at: nat)
    requires at < |text| && IsQuote(text[at]) && at + QuoteFrom(text[at..], text[at], 1) == |text|
    ensures Scan(text[at..]) == Err(MissingQuote)
  {
  }

  lemma {:induction false} ScanNothing()
    ensures Scan("") == Ok([])
  {
  }

  lemma {:induction false} JoinOne(args: seq<string>, sep: string)
    requires args != []
    ensures Join(args[..1], sep) == args[0]
  {
  }

  lemma {:induction false} JoinSnoc(args: seq<string>, a: string, sep: string)
    requires args != []
    ensures Join(args + [a], sep) == Join(args, sep) + sep + a
  {
    if |args| == 1 {
      assert (args + [a])[1..] == [a];
    } else {
      assert (args + [a])[1..] == args[1..] + [a];
      JoinSnoc(args[1..], a, sep);
    }
  }
}
