/** Escaping every character that is not a letter or a digit as a marker and
    two hexadecimal digits, and back. */
module Escape {
  import opened Wrappers

  type Byte = n: nat | n < 256

  datatype Error =
    | BiggerThanExpected
    | UnexpectedSequence
    | InvalidCharacter(c: Byte)

  // ----- C strings

  predicate NulFree(s: seq<Byte>) {
    forall k :: 0 <= k < |s| ==> s[k] != 0
  }

  /** What a function taking a `const char *` sees of the bytes. */
  function Text(s: seq<Byte>): seq<Byte> {
    if s == [] || s[0] == 0 then [] else [s[0]] + Text(s[1..])
  }

  lemma {:induction false} NulFreeIsText(s: seq<Byte>)
    ensures NulFree(Text(s)) && |Text(s)| <= |s| && Text(s) == s[..|Text(s)|]
    ensures |Text(s)| < |s| ==> s[|Text(s)|] == 0
    ensures Text(s) == s <==> NulFree(s)
  {
    if s != [] && s[0] != 0 {
      NulFreeIsText(s[1..]);
    }
  }

  // ----- characters

  /** `isalnum` in the C locale. */
  predicate IsAlnum(c: Byte) {
    48 <= c <= 57 || 65 <= c <= 90 || 97 <= c <= 122
  }

  function Digit(n: nat): Byte
    requires n < 16
  {
    if n < 10 then 48 + n else 65 + (n - 10)
  }

  function HexDigits(n: nat): seq<Byte> {
    if n < 16 then [Digit(n)] else HexDigits(n / 16) + [Digit(n % 16)]
  }

  /** A `char` converted to `unsigned int`: plain `char` is signed. */
  function Widened(c: Byte): nat {
    if c < 128 then c else 0x1_0000_0000 - 256 + c
  }

  /** `snprintf` of `%02X` into three bytes: two digits and the terminator. */
  function Printed(c: Byte): seq<Byte> {
    var digits := HexDigits(Widened(c));
    if |digits| < 2 then [48] + digits else digits[..2]
  }

  function XDigitValue(c: Byte): Option<nat> {
    if 48 <= c <= 57 then Some(c - 48)
    else if 65 <= c <= 70 then Some(10 + (c - 65))
    else if 97 <= c <= 102 then Some(10 + (c - 97))
    else None
  }

  function UnescapeCharacter(a: Byte, b: Byte): Result<Byte, Error> {
    match XDigitValue(a)
    case None => Err(InvalidCharacter(a))
    case Some(x) =>
      match XDigitValue(b)
      case None => Err(InvalidCharacter(b))
      case Some(y) => Ok((x * 16 + y) % 256)
  }

  // ----- the two transformations

  function EscapedByte(c: Byte, marker: Byte): seq<Byte> {
    if IsAlnum(c) && c != marker then [c] else [marker] + Printed(c)
  }

  function EscapedBytes(s: seq<Byte>, marker: Byte): seq<Byte> {
    if s == [] then [] else EscapedByte(s[0], marker) + EscapedBytes(s[1..], marker)
  }

  /** `escape`: the result goes through a C string on both ends. */
  function Escaped(s: seq<Byte>, marker: Byte): seq<Byte> {
    Text(EscapedBytes(Text(s), marker))
  }

  function UnescapedBytes(t: seq<Byte>, marker: Byte): Result<seq<Byte>, Error> {
    if t == [] then Ok([])
    else if t[0] == marker then
      if |t| < 3 then Err(UnexpectedSequence)
      else
        match UnescapeCharacter(t[1], t[2])
        case Err(e) => Err(e)
        case Ok(c) => Prepend(c, UnescapedBytes(t[3..], marker))
    else Prepend(t[0], UnescapedBytes(t[1..], marker))
  }

  function Prepend(c: Byte, r: Result<seq<Byte>, Error>): Result<seq<Byte>, Error> {
    if r.Err? then r else Ok([c] + r.value)
  }

  function Unescaped(s: seq<Byte>, marker: Byte): Result<seq<Byte>, Error> {
    var r := UnescapedBytes(Text(s), marker);
    if r.Err? then r else Ok(Text(r.value))
  }

  // ----- printing a byte

  lemma {:induction false} WideHex(n: nat, high: nat)
    requires n / 256 == high && high >= 16
    ensures HexDigits(n) == HexDigits(high) + [Digit(n / 16 % 16), Digit(n % 16)]
  {
    assert n / 16 / 16 == high;
    assert HexDigits(n / 16) == HexDigits(high) + [Digit(n / 16 % 16)];
  }

  /** Below 128 the two digits are the value in upper case, as section 2.1 of
      RFC 3986 asks; from 128 on sign extension leaves the first two F's. */
  lemma {:induction false} PrintedIsTwoDigits(c: Byte)
    ensures Printed(c) == if c < 128 then [Digit(c / 16), Digit(c % 16)] else [70, 70]
  {
    if c >= 128 {
      var n := Widened(c);
      assert HexDigits(0xFF) == [70, 70];
      WideHex(0xFFFF, 0xFF);
      WideHex(0xFFFFFF, 0xFFFF);
      WideHex(n, 0xFFFFFF);
      assert HexDigits(n)[..2] == [70, 70];
    } else if c >= 16 {
      assert HexDigits(c / 16) == [Digit(c / 16)];
    }
  }

  /** Digits 0 to 9, and letters A to F, by number. */
  function UpperDigit(n: nat): (r: Byte)
    requires n < 16
    ensures n < 10 ==> r == 48 + n
    ensures n >= 10 ==> r == 55 + n
  {
    Digit(n)
  }

  /** What an ASCII byte is written as: digits and letters that are not the
      marker as they are, everything else as the marker and two digits. */
  lemma {:induction false} EscapedAs(c: Byte, marker: Byte)
    ensures c == marker || c < 48 || 57 < c < 65 || 90 < c < 97 || 122 < c ==>
      EscapedByte(c, marker) ==
        [marker, if c < 128 then UpperDigit(c / 16) else 70, if c < 128 then UpperDigit(c % 16) else 70]
    ensures c != marker && (48 <= c <= 57 || 65 <= c <= 90 || 97 <= c <= 122) ==> EscapedByte(c, marker) == [c]
  {
    PrintedIsTwoDigits(c);
  }

  /** The value of a hexadecimal digit in either case, by number. */
  lemma {:induction false} HexValues(c: Byte)
    ensures 48 <= c <= 57 ==> XDigitValue(c) == Some(c - 48)
    ensures 65 <= c <= 70 ==> XDigitValue(c) == Some(c - 55)
    ensures 97 <= c <= 102 ==> XDigitValue(c) == Some(c - 87)
    ensures c < 48 || 57 < c < 65 || 70 < c < 97 || 102 < c ==> XDigitValue(c) == None
  {
  }

  /** A marker needs two more bytes, both hexadecimal digits; of two that are not
      the first is reported. What comes before a marker stays. */
  lemma {:induction false} UnescapedAs(plain: seq<Byte>, t: seq<Byte>, marker: Byte)
    requires marker !in plain
    ensures UnescapedBytes(plain, marker) == Ok(plain)
    ensures |t| < 2 ==> UnescapedBytes(plain + [marker] + t, marker) == Err(UnexpectedSequence)
    ensures |t| >= 2 && XDigitValue(t[0]) == None ==>
      UnescapedBytes(plain + [marker] + t, marker) == Err(InvalidCharacter(t[0]))
    ensures |t| >= 2 && XDigitValue(t[0]).Some? && XDigitValue(t[1]) == None ==>
      UnescapedBytes(plain + [marker] + t, marker) == Err(InvalidCharacter(t[1]))
    ensures |t| >= 2 && XDigitValue(t[0]).Some? && XDigitValue(t[1]).Some? ==>
      var rest := UnescapedBytes(t[2..], marker);
      UnescapedBytes(plain + [marker] + t, marker) ==
        if rest.Err? then rest
        else Ok(plain + [16 * XDigitValue(t[0]).value + XDigitValue(t[1]).value] + rest.value)
    decreases |plain|
  {
    var whole := plain + [marker] + t;
    if plain == [] {
      assert whole == [marker] + t;
      if |t| >= 2 {
        assert whole[1] == t[0] && whole[2] == t[1] && whole[3..] == t[2..];
        HexValues(t[0]);
        HexValues(t[1]);
        var rest := UnescapedBytes(t[2..], marker);
        if rest.Ok? && XDigitValue(t[0]).Some? && XDigitValue(t[1]).Some? {
          var c := 16 * XDigitValue(t[0]).value + XDigitValue(t[1]).value;
          assert [] + [c] + rest.value == [c] + rest.value;
        }
      }
    } else {
      assert plain[0] in plain;
      UnescapedAs(plain[1..], t, marker);
      assert whole[0] == plain[0] && whole[1..] == plain[1..] + [marker] + t;
      assert plain == [plain[0]] + plain[1..];
      var rest := if |t| >= 2 then UnescapedBytes(t[2..], marker) else Ok([]);
      if |t| >= 2 && rest.Ok? && XDigitValue(t[0]).Some? && XDigitValue(t[1]).Some? {
        HexValues(t[0]);
        HexValues(t[1]);
        var c := 16 * XDigitValue(t[0]).value + XDigitValue(t[1]).value;
        assert [plain[0]] + (plain[1..] + [c] + rest.value) == plain + [c] + rest.value;
      }
    }
  }

  /** What comes back for an escaped byte. */
  function Back(c: Byte): Byte {
    if c < 128 then c else 255
  }

  lemma {:induction false} PrintedComesBack(c: Byte)
    ensures |Printed(c)| == 2
    ensures UnescapeCharacter(Printed(c)[0], Printed(c)[1]) == Ok(Back(c))
    ensures Printed(c)[0] != 0 && Printed(c)[1] != 0
  {
    PrintedIsTwoDigits(c);
  }

  // ----- main results

  function BackAll(s: seq<Byte>): (r: seq<Byte>)
    ensures |r| == |s| && forall k :: 0 <= k < |s| ==> r[k] == Back(s[k])
  {
    seq(|s|, k requires 0 <= k < |s| => Back(s[k]))
  }

  lemma {:induction false} EscapedComesBack(s: seq<Byte>, marker: Byte)
    requires marker != 0 && NulFree(s)
    ensures NulFree(EscapedBytes(s, marker))
    ensures UnescapedBytes(EscapedBytes(s, marker), marker) == Ok(BackAll(s))
  {
    if s != [] {
      var c, rest := s[0], EscapedBytes(s[1..], marker);
      EscapedComesBack(s[1..], marker);
      PrintedComesBack(c);
      var t := EscapedBytes(s, marker);
      assert t[|EscapedByte(c, marker)|..] == rest;
      assert BackAll(s) == [Back(c)] + BackAll(s[1..]);
    }
  }

  /** With NUL as the marker the C string ends at the first escape. */
  lemma {:induction false} NulMarkerCuts(s: seq<Byte>)
    requires NulFree(s)
    ensures Text(EscapedBytes(s, 0)) == s <==> forall k :: 0 <= k < |s| ==> IsAlnum(s[k])
    ensures |Text(EscapedBytes(s, 0))| <= |s|
  {
    if s != [] {
      NulMarkerCuts(s[1..]);
      var rest := EscapedBytes(s[1..], 0);
      if IsAlnum(s[0]) {
        assert EscapedBytes(s, 0)[1..] == rest;
        assert Text(EscapedBytes(s, 0)) == [s[0]] + Text(rest);
        assert s == [s[0]] + s[1..];
      } else {
        assert EscapedBytes(s, 0)[0] == 0;
      }
    }
  }

  lemma {:induction false} NothingToUnescape(s: seq<Byte>)
    requires NulFree(s)
    ensures UnescapedBytes(s, 0) == Ok(s)
  {
    if s != [] {
      NothingToUnescape(s[1..]);
      assert s == [s[0]] + s[1..];
    }
  }

  /** The bytes that survive a round trip. */
  predicate Survives(c: Byte, marker: Byte) {
    c != 0 && if marker == 0 then IsAlnum(c) else c < 128 || c == 255
  }

  /** For every string and marker: unescaping an escaped string gives it back
      if and only if each byte is one that survives. ASCII text without NULs
      does, for every marker but NUL. */
  lemma {:induction false} RoundTripsExactly(s: seq<Byte>, marker: Byte)
    ensures Unescaped(Escaped(s, marker), marker) == Ok(s)
      <==> forall k :: 0 <= k < |s| ==> Survives(s[k], marker)
  {
    var t := Text(s);
    NulFreeIsText(s);
    if marker == 0 {
      NulMarkerCuts(t);
      var e := Escaped(s, 0);
      NulFreeIsText(EscapedBytes(t, 0));
      NulFreeIsText(e);
      NothingToUnescape(e);
      assert Unescaped(e, 0) == Ok(e);
      if e == s {
        assert |t| <= |s| && |e| <= |t|;
        assert t == s;
      }
    } else {
      EscapedComesBack(t, marker);
      var e := EscapedBytes(t, marker);
      NulFreeIsText(e);
      NulFreeIsText(BackAll(t));
      assert Unescaped(Escaped(s, marker), marker) == Ok(BackAll(t));
      if BackAll(t) == s {
        assert |t| == |s| && t == s;
        forall k | 0 <= k < |s| ensures Survives(s[k], marker) {
          assert s[k] == Back(s[k]);
        }
      }
      if forall k :: 0 <= k < |s| ==> Survives(s[k], marker) {
        assert t == s && BackAll(s) == s;
      }
    }
  }

  // ----- the loops

  lemma {:induction false} EscapedSnoc(s: seq<Byte>, c: Byte, marker: Byte)
    ensures EscapedBytes(s + [c], marker) == EscapedBytes(s, marker) + EscapedByte(c, marker)
  {
    if s == [] {
      assert s + [c] == [c];
    } else {
      assert (s + [c])[1..] == s[1..] + [c];
      EscapedSnoc(s[1..], c, marker);
    }
  }

  lemma {:induction false} NothingEscaped(marker: Byte)
    ensures EscapedBytes([], marker) == []
  {
  }

  method PutEscape(buffer: array<Byte>, at: nat, c: Byte, marker: Byte) returns (index: nat)
    requires at + 3 <= buffer.Length
    modifies buffer
    ensures index == at + 3 && buffer[..index] == old(buffer[..at]) + ([marker] + Printed(c))
  {
    hide Printed;
    PrintedComesBack(c);
    var hexvalue := Printed(c);
    index := at;
    buffer[index] := marker;
    index := index + 1;
    buffer[index] := hexvalue[0];
    index := index + 1;
    buffer[index] := hexvalue[1];
    index := index + 1;
    assert [marker] + hexvalue == [marker, hexvalue[0], hexvalue[1]];
  }

  /** The size check inside the loop never fires. */
  method EscapeLoop(s: seq<Byte>, marker: Byte) returns (r: Result<seq<Byte>, Error>)
    ensures r == Ok(Escaped(s, marker))
  {
    hide EscapedBytes, Printed, Text;
    assert s[..0] == [];
    NothingEscaped(marker);
    var maxlen := |s| * 4;
    var buffer := new Byte[maxlen + 4];
    var src, index := 0, 0;
    while src < |s| && s[src] != 0
      invariant src <= |s| && NulFree(s[..src])
      invariant index <= 3 * src && index < maxlen + 4
      invariant buffer[..index] == EscapedBytes(s[..src], marker)
    {
      if index >= maxlen {
        return Err(BiggerThanExpected);
      }
      EscapedSnoc(s[..src], s[src], marker);
      assert s[..src + 1] == s[..src] + [s[src]];
      ghost var done := buffer[..index];
      if IsAlnum(s[src]) && s[src] != marker {
        buffer[index] := s[src];
        index := index + 1;
        assert buffer[..index] == done + [s[src]];
      } else {
        index := PutEscape(buffer, index, s[src], marker);
      }
      src := src + 1;
    }
    ghost var done := buffer[..index];
    buffer[index] := 0;
    assert buffer[..][..index] == done;
    TextUpTo(s, src);
    TextOfTerminated(buffer[..], index);
    r := Ok(Text(buffer[..]));
  }

  lemma {:induction false} TextUpTo(s: seq<Byte>, n: nat)
    requires n <= |s| && NulFree(s[..n]) && (n == |s| || s[n] == 0)
    ensures Text(s) == s[..n]
  {
    if n > 0 {
      assert s[1..][..n - 1] == s[..n][1..];
      TextUpTo(s[1..], n - 1);
      assert s[0] == s[..n][0];
    }
  }

  /** A terminator at `n`: the C string is that of the bytes before it. */
  lemma {:induction false} TextOfTerminated(s: seq<Byte>, n: nat)
    requires n < |s| && s[n] == 0
    ensures Text(s) == Text(s[..n])
  {
    if n > 0 {
      assert s[1..][..n - 1] == s[..n][1..];
      TextOfTerminated(s[1..], n - 1);
    }
  }

  function Glue(done: seq<Byte>, r: Result<seq<Byte>, Error>): Result<seq<Byte>, Error> {
    if r.Err? then r else Ok(done + r.value)
  }

  lemma {:induction false} GlueLaws(done: seq<Byte>, c: Byte, r: Result<seq<Byte>, Error>)
    ensures Glue([], r) == r
    ensures Glue(done, Ok([])) == Ok(done)
    ensures Glue(done, Prepend(c, r)) == Glue(done + [c], r)
  {
    assert done + [] == done;
    if r.Ok? {
      assert [] + r.value == r.value;
      assert done + ([c] + r.value) == (done + [c]) + r.value;
    }
  }

  /** One turn of the loop on the text that is left. */
  lemma {:induction false} UnescapedTurn(t: seq<Byte>, marker: Byte)
    ensures t == [] ==> UnescapedBytes(t, marker) == Ok([])
    ensures t != [] && t[0] != marker ==>
      UnescapedBytes(t, marker) == Prepend(t[0], UnescapedBytes(t[1..], marker))
    ensures 0 < |t| < 3 && t[0] == marker ==> UnescapedBytes(t, marker) == Err(UnexpectedSequence)
    ensures |t| >= 3 && t[0] == marker ==>
      var u := UnescapeCharacter(t[1], t[2]);
      UnescapedBytes(t, marker) == if u.Err? then Err(u.error) else Prepend(u.value, UnescapedBytes(t[3..], marker))
  {
  }

  method UnescapeLoop(s: seq<Byte>, marker: Byte) returns (r: Result<seq<Byte>, Error>)
    ensures r == Unescaped(s, marker)
  {
    hide UnescapedBytes, UnescapeCharacter, Text;
    NulFreeIsText(s);
    ghost var text := Text(s);
    ghost var whole := UnescapedBytes(text, marker);
    var buffer := new Byte[|s| + 1];
    var src, dst := 0, 0;
    assert text[0..] == text && buffer[..0] == [];
    GlueLaws([], 0, whole);
    while src < |s| && s[src] != 0
      invariant dst <= src <= |text|
      invariant Glue(buffer[..dst], UnescapedBytes(text[src..], marker)) == whole
    {
      assert src < |text| && text[src..][0] == s[src];
      ghost var done := buffer[..dst];
      UnescapedTurn(text[src..], marker);
      if s[src] == marker {
        if src + 1 < |s| && s[src + 1] != 0 && src + 2 < |s| && s[src + 2] != 0 {
          assert src + 2 < |text|;
          assert text[src..][1] == s[src + 1] && text[src..][2] == s[src + 2];
          assert text[src..][3..] == text[src + 3..];
          match UnescapeCharacter(s[src + 1], s[src + 2]) {
            case Err(e) => return Err(e);
            case Ok(c) =>
              buffer[dst] := c;
              dst := dst + 1;
              assert buffer[..dst] == done + [c];
              src := src + 3;
              GlueLaws(done, c, UnescapedBytes(text[src..], marker));
          }
        } else {
          assert |text[src..]| < 3;
          return Err(UnexpectedSequence);
        }
      } else {
        assert text[src..][1..] == text[src + 1..];
        buffer[dst] := s[src];
        assert buffer[..dst + 1] == done + [s[src]];
        GlueLaws(done, s[src], UnescapedBytes(text[src + 1..], marker));
        dst, src := dst + 1, src + 1;
      }
    }
    assert text[src..] == [];
    UnescapedTurn([], marker);
    GlueLaws(buffer[..dst], 0, whole);
    ghost var done := buffer[..dst];
    buffer[dst] := 0;
    TextOfTerminated(buffer[..], dst);
    assert buffer[..][..dst] == done;
    r := Ok(Text(buffer[..]));
  }
}
