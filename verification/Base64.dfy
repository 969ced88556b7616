/** The Base64 encoder and decoder, against the encoding of section 4 of RFC 4648. */
module Base64 {

  type Byte = bv8

  const PAD := '='

  const UPPER: string := "ABCDEFGHIJKLMNOPQRSTUVWXYZ"
  const LOWER: string := "abcdefghijklmnopqrstuvwxyz"
  const OTHERS: string := "0123456789+/"

  /** The table both loops use. */
  const BASE64_CHARS: string := UPPER + LOWER + OTHERS

  /** `find` on the table, as the byte it is stored in: `npos` becomes 255. */
  function Find(c: char, k: nat): Byte
    requires k <= |BASE64_CHARS|
    decreases |BASE64_CHARS| - k
  {
    if k == |BASE64_CHARS| then 255
    else if BASE64_CHARS[k] == c then (k % 256) as bv8
    else Find(c, k + 1)
  }

  /** `isalnum` in the C locale, or one of the two signs. */
  predicate IsBase64(c: char) {
    || '0' <= c <= '9' || 'A' <= c <= 'Z' || 'a' <= c <= 'z'
    || c == '+' || c == '/'
  }

  // ----- the alphabet of RFC 4648

  function Letter(k: nat): char
    requires k < 64
  {
    if k < 26 then ('A' as int + k) as char
    else if k < 52 then ('a' as int + (k - 26)) as char
    else if k < 62 then ('0' as int + (k - 52)) as char
    else if k == 62 then '+'
    else '/'
  }

  function Value(c: char): (k: nat)
    requires IsBase64(c)
    ensures k < 64 && Letter(k) == c
  {
    if c == '+' then 62
    else if c == '/' then 63
    else if c <= '9' then c as int - '0' as int + 52
    else if c <= 'Z' then c as int - 'A' as int
    else c as int - 'a' as int + 26
  }

  lemma {:induction false} UpperTable(k: nat)
    requires k < 26
    ensures |UPPER| == 26 && UPPER[k] == Letter(k)
  {
    assert k == 0 || k == 1 || k == 2 || k == 3 || k == 4 || k == 5 || k == 6 || k == 7 || k == 8 || k == 9
      || k == 10 || k == 11 || k == 12 || k == 13 || k == 14 || k == 15 || k == 16 || k == 17 || k == 18
      || k == 19 || k == 20 || k == 21 || k == 22 || k == 23 || k == 24 || k == 25;
  }

  lemma {:induction false} LowerTable(k: nat)
    requires 26 <= k < 52
    ensures |LOWER| == 26 && LOWER[k - 26] == Letter(k)
  {
    assert k == 26 || k == 27 || k == 28 || k == 29 || k == 30 || k == 31 || k == 32 || k == 33 || k == 34
      || k == 35 || k == 36 || k == 37 || k == 38 || k == 39 || k == 40 || k == 41 || k == 42 || k == 43
      || k == 44 || k == 45 || k == 46 || k == 47 || k == 48 || k == 49 || k == 50 || k == 51;
  }

  lemma {:induction false} OthersTable(k: nat)
    requires 52 <= k < 64
    ensures |OTHERS| == 12 && OTHERS[k - 52] == Letter(k)
  {
    assert k == 52 || k == 53 || k == 54 || k == 55 || k == 56 || k == 57 || k == 58 || k == 59 || k == 60
      || k == 61 || k == 62 || k == 63;
  }

  lemma {:induction false} TableIsTheAlphabet(k: nat)
    requires k < 64
    ensures |BASE64_CHARS| == 64 && BASE64_CHARS[k] == Letter(k)
    ensures Letter(k) as int ==
      if k < 26 then 65 + k else if k < 52 then 71 + k else if k < 62 then k - 4 else if k == 62 then 43 else 47
  {
    TableSizes();
    if k < 26 {
      UpperTable(k);
      assert (UPPER + LOWER + OTHERS)[k] == UPPER[k];
    } else if k < 52 {
      LowerTable(k);
      assert (UPPER + LOWER + OTHERS)[k] == LOWER[k - 26];
    } else {
      OthersTable(k);
      assert (UPPER + LOWER + OTHERS)[k] == OTHERS[k - 52];
    }
  }

  lemma {:induction false} TableSizes()
    ensures |UPPER| == 26 && |LOWER| == 26 && |OTHERS| == 12 && |BASE64_CHARS| == 64
  {
  }

  lemma {:induction false} FindIsValue(c: char, k: nat)
    requires IsBase64(c) && k <= 64
    ensures |BASE64_CHARS| == 64
    ensures Find(c, k) == if Value(c) >= k then Value(c) as bv8 else 255
    decreases 64 - k
  {
    TableIsTheAlphabet(0);
    if k < 64 {
      TableIsTheAlphabet(k);
      TableIsTheAlphabet(Value(c));
      FindIsValue(c, k + 1);
      assert Letter(k) == c <==> k == Value(c);
    }
  }

  // ----- the encoding of RFC 4648: 24-bit groups read as four 6-bit groups

  function Group(x: Byte, y: Byte, z: Byte): bv24 {
    (x as bv24 << 16) | (y as bv24 << 8) | z as bv24
  }

  function Sextet(g: bv24, k: nat): (r: Byte)
    requires k < 4
    ensures r < 64
  {
    if k == 0 then ((g >> 18) & 63) as Byte
    else if k == 1 then ((g >> 12) & 63) as Byte
    else if k == 2 then ((g >> 6) & 63) as Byte
    else (g & 63) as Byte
  }

  function LetterOf(b: Byte): char
    requires b < 64
  {
    Letter(b as int)
  }

  /** The letters of one group. */
  function Quad(x: Byte, y: Byte, z: Byte): (q: string)
    ensures |q| == 4
  {
    var g := Group(x, y, z);
    [LetterOf(Sextet(g, 0)), LetterOf(Sextet(g, 1)), LetterOf(Sextet(g, 2)), LetterOf(Sextet(g, 3))]
  }

  /** Full groups first; a last group of one or two bytes is filled with zero
      bits and padded. */
  function Encoded(b: seq<Byte>): string {
    if |b| == 0 then ""
    else if |b| == 1 then Quad(b[0], 0, 0)[..2] + [PAD, PAD]
    else if |b| == 2 then Quad(b[0], b[1], 0)[..3] + [PAD]
    else Quad(b[0], b[1], b[2]) + Encoded(b[3..])
  }

  // ----- decoding

  /** The longest prefix in the alphabet: decoding stops where it ends. */
  function Lead(s: string): string {
    if s == [] || !IsBase64(s[0]) then [] else [s[0]] + Lead(s[1..])
  }

  function SextetOf(c: char): (r: Byte)
    requires IsBase64(c)
    ensures r < 64
  {
    Value(c) as Byte
  }

  /** The three bytes of four 6-bit groups. */
  function Triple(p: Byte, q: Byte, r: Byte, s: Byte): (t: seq<Byte>)
    requires p < 64 && q < 64 && r < 64 && s < 64
    ensures |t| == 3
  {
    var g := (p as bv24 << 18) | (q as bv24 << 12) | (r as bv24 << 6) | s as bv24;
    [(g >> 16) as Byte, ((g >> 8) & 255) as Byte, (g & 255) as Byte]
  }

  /** The whole bytes that a string over the alphabet spells. */
  function Bytes(s: string): seq<Byte>
    requires forall k :: 0 <= k < |s| ==> IsBase64(s[k])
  {
    if |s| < 2 then []
    else if |s| == 2 then Triple(SextetOf(s[0]), SextetOf(s[1]), 0, 0)[..1]
    else if |s| == 3 then Triple(SextetOf(s[0]), SextetOf(s[1]), SextetOf(s[2]), 0)[..2]
    else Triple(SextetOf(s[0]), SextetOf(s[1]), SextetOf(s[2]), SextetOf(s[3])) + Bytes(s[4..])
  }

  lemma {:induction false} LeadIsBase64(s: string)
    ensures forall k :: 0 <= k < |Lead(s)| ==> IsBase64(Lead(s)[k])
    ensures |Lead(s)| <= |s|
  {
    if s != [] && IsBase64(s[0]) {
      LeadIsBase64(s[1..]);
    }
  }

  function Decoded(s: string): seq<Byte> {
    LeadIsBase64(s);
    Bytes(Lead(s))
  }

  /** What `decode` returns for a buffer of `maxlen` bytes. */
  function DecodeResult(s: string, maxlen: nat): int {
    var n := |Decoded(s)|;
    if n > 0 && n >= maxlen then -1 else n
  }

  // ----- the byte arithmetic of the loops

  lemma {:induction false} EncodeBits(x: Byte, y: Byte, z: Byte)
    ensures (x & 0xfc) >> 2 == Sextet(Group(x, y, z), 0)
    ensures ((x & 0x03) << 4) + ((y & 0xf0) >> 4) == Sextet(Group(x, y, z), 1)
    ensures ((y & 0x0f) << 2) + ((z & 0xc0) >> 6) == Sextet(Group(x, y, z), 2)
    ensures z & 0x3f == Sextet(Group(x, y, z), 3)
  {
  }

  lemma {:induction false} DecodeBits(p: Byte, q: Byte, r: Byte, s: Byte)
    requires p < 64 && q < 64 && r < 64 && s < 64
    ensures (p << 2) + ((q & 0x30) >> 4) == Triple(p, q, r, s)[0]
    ensures ((q & 0xf) << 4) + ((r & 0x3c) >> 2) == Triple(p, q, r, s)[1]
    ensures ((r & 0x3) << 6) + s == Triple(p, q, r, s)[2]
  {
  }

  lemma {:induction false} GroupRoundTrip(x: Byte, y: Byte, z: Byte)
    ensures var g := Group(x, y, z);
      var t := Triple(Sextet(g, 0), Sextet(g, 1), Sextet(g, 2), Sextet(g, 3));
      t[0] == x && t[1] == y && t[2] == z
  {
  }

  lemma {:induction false} ZerosSpellZero(x: Byte, y: Byte)
    ensures Sextet(Group(x, y, 0), 3) == 0
    ensures Sextet(Group(x, 0, 0), 2) == 0 && Sextet(Group(x, 0, 0), 3) == 0
  {
  }

  // ----- main results

  lemma {:induction false} LetterIsBase64(k: nat)
    requires k < 64
    ensures IsBase64(Letter(k)) && Value(Letter(k)) == k
  {
  }

  lemma {:induction false} LetterSpells(b: Byte)
    requires b < 64
    ensures IsBase64(LetterOf(b)) && SextetOf(LetterOf(b)) == b
  {
    hide Letter, Value, IsBase64;
    LetterIsBase64(b as int);
  }

  lemma {:induction false} QuadSpells(x: Byte, y: Byte, z: Byte)
    ensures forall k :: 0 <= k < 4 ==>
      IsBase64(Quad(x, y, z)[k]) && SextetOf(Quad(x, y, z)[k]) == Sextet(Group(x, y, z), k)
  {
    hide Letter, Value, IsBase64, LetterOf, SextetOf, Sextet, Group;
    var g := Group(x, y, z);
    LetterSpells(Sextet(g, 0));
    LetterSpells(Sextet(g, 1));
    LetterSpells(Sextet(g, 2));
    LetterSpells(Sextet(g, 3));
  }

  lemma {:induction false} LeadThrough(s: string, t: string)
    requires forall k :: 0 <= k < |s| ==> IsBase64(s[k])
    ensures Lead(s + t) == s + Lead(t)
  {
    if s == [] {
      assert s + t == t;
    } else {
      assert (s + t)[1..] == s[1..] + t;
      LeadThrough(s[1..], t);
    }
  }

  lemma {:induction false} OneByteRoundTrip(x: Byte)
    ensures Decoded(Encoded([x])) == [x]
  {
    var q := Quad(x, 0, 0)[..2];
    QuadSpells(x, 0, 0);
    LeadThrough(q, [PAD, PAD]);
    assert Lead(Encoded([x])) == q;
    ZerosSpellZero(x, 0);
    GroupRoundTrip(x, 0, 0);
  }

  lemma {:induction false} TwoByteRoundTrip(x: Byte, y: Byte)
    ensures Decoded(Encoded([x, y])) == [x, y]
  {
    var q := Quad(x, y, 0)[..3];
    QuadSpells(x, y, 0);
    LeadThrough(q, [PAD]);
    assert Lead(Encoded([x, y])) == q;
    ZerosSpellZero(x, y);
    GroupRoundTrip(x, y, 0);
  }

  lemma {:induction false} QuadRoundTrip(x: Byte, y: Byte, z: Byte, rest: string)
    ensures Decoded(Quad(x, y, z) + rest) == [x, y, z] + Decoded(rest)
  {
    var q := Quad(x, y, z);
    QuadSpells(x, y, z);
    LeadThrough(q, rest);
    LeadIsBase64(rest);
    assert (q + Lead(rest))[4..] == Lead(rest);
    GroupRoundTrip(x, y, z);
  }

  lemma {:induction false} EncodedLength(b: seq<Byte>)
    ensures |Encoded(b)| == 4 * ((|b| + 2) / 3)
    decreases |b|
  {
    if |b| >= 3 {
      EncodedLength(b[3..]);
    }
  }

  lemma {:induction false} EncodedGroup(x: Byte, y: Byte, z: Byte, b: seq<Byte>)
    ensures Encoded([x, y, z] + b) == Quad(x, y, z) + Encoded(b)
  {
    assert ([x, y, z] + b)[3..] == b;
  }

  lemma {:induction false} BytesOfEncoded(b: seq<Byte>)
    ensures Decoded(Encoded(b)) == b
    decreases |b|
  {
    if |b| == 1 {
      assert b == [b[0]];
      OneByteRoundTrip(b[0]);
    } else if |b| == 2 {
      assert b == [b[0], b[1]];
      TwoByteRoundTrip(b[0], b[1]);
    } else if |b| >= 3 {
      var x, y, z, rest := b[0], b[1], b[2], b[3..];
      assert b == [x, y, z] + rest;
      BytesOfEncoded(rest);
      EncodedGroup(x, y, z, rest);
      QuadRoundTrip(x, y, z, Encoded(rest));
    }
  }

  /** One byte left over is padded with two signs, two with one; the letters
      before the padding hold none. */
  lemma {:induction false} EncodedEnds(b: seq<Byte>)
    ensures var e := Encoded(b);
      var pad := if |b| % 3 == 1 then 2 else if |b| % 3 == 2 then 1 else 0;
      && |e| >= pad
      && (forall k :: |e| - pad <= k < |e| ==> e[k] == '=')
      && (forall k :: 0 <= k < |e| - pad ==> e[k] != '=')
    decreases |b|
  {
    hide Quad;
    if |b| == 1 {
      QuadHasNoPad(b[0], 0, 0);
    } else if |b| == 2 {
      QuadHasNoPad(b[0], b[1], 0);
    } else if |b| >= 3 {
      QuadHasNoPad(b[0], b[1], b[2]);
      EncodedEnds(b[3..]);
    }
  }

  lemma {:induction false} QuadHasNoPad(x: Byte, y: Byte, z: Byte)
    ensures |Quad(x, y, z)| == 4 && forall k :: 0 <= k < 4 ==> Quad(x, y, z)[k] != '='
  {
    hide Quad, IsBase64;
    QuadSpells(x, y, z);
    PadIsNoLetter();
  }

  /** The test vectors of section 10 of RFC 4648, and one with both signs. */
  lemma {:induction false} TestVectors()
    ensures Encoded([]) == ""
    ensures Encoded([0x66]) == "Zg==" && Encoded([0x66, 0x6f]) == "Zm8=" && Encoded([0x66, 0x6f, 0x6f]) == "Zm9v"
    ensures Encoded([0x66, 0x6f, 0x6f, 0x62]) == "Zm9vYg==" && Encoded([0xfb, 0xff, 0xfe]) == "+//+"
  {
    assert [0x66 as Byte, 0x6f, 0x6f, 0x62][3..] == [0x62];
    assert [0x66 as Byte, 0x6f, 0x6f][3..] == [];
    assert [0xfb as Byte, 0xff, 0xfe][3..] == [];
  }

  /** Decoding stops at the first character outside the alphabet, and a letter
      alone, or bits that fill no byte, give nothing. */
  lemma {:induction false} DecodingStops(s: string, c: char, t: string)
    requires (forall k :: 0 <= k < |s| ==> IsBase64(s[k])) && !IsBase64(c)
    ensures Decoded(s + [c] + t) == Decoded(s) == Bytes(s)
    ensures |Bytes(s)| == |s| / 4 * 3 + (if |s| % 4 > 1 then |s| % 4 - 1 else 0)
  {
    LeadThrough(s, [c] + t);
    LeadThrough(s, "");
    assert s + [c] + t == s + ([c] + t) && s + "" == s;
    BytesLength(s);
  }

  lemma {:induction false} BytesLength(s: string)
    requires forall k :: 0 <= k < |s| ==> IsBase64(s[k])
    ensures |Bytes(s)| == |s| / 4 * 3 + (if |s| % 4 > 1 then |s| % 4 - 1 else 0)
    decreases |s|
  {
    hide Triple, SextetOf;
    if |s| >= 4 {
      BytesLength(s[4..]);
    }
  }

  /** Full groups of letters come back when what they decode to is encoded. */
  lemma {:induction false} EncodeOfDecode(s: string)
    requires |s| % 4 == 0 && forall k :: 0 <= k < |s| ==> IsBase64(s[k])
    ensures Encoded(Bytes(s)) == s
    decreases |s|
  {
    hide Triple, SextetOf, Quad, IsBase64;
    if |s| >= 4 {
      var rest := s[4..];
      EncodeOfDecode(rest);
      var t := Triple(SextetOf(s[0]), SextetOf(s[1]), SextetOf(s[2]), SextetOf(s[3]));
      EncodedGroup(t[0], t[1], t[2], Bytes(rest));
      assert Bytes(s) == [t[0], t[1], t[2]] + Bytes(rest);
      GroupComesBack(s[0], s[1], s[2], s[3]);
      assert s == [s[0], s[1], s[2], s[3]] + rest;
    }
  }

  lemma {:induction false} GroupComesBack(a: char, b: char, c: char, d: char)
    requires IsBase64(a) && IsBase64(b) && IsBase64(c) && IsBase64(d)
    ensures var t := Triple(SextetOf(a), SextetOf(b), SextetOf(c), SextetOf(d));
      Quad(t[0], t[1], t[2]) == [a, b, c, d]
  {
    hide Triple, SextetOf, IsBase64, LetterOf, Sextet, Group;
    BitsComeBack(SextetOf(a), SextetOf(b), SextetOf(c), SextetOf(d));
    SextetsLetter(a);
    SextetsLetter(b);
    SextetsLetter(c);
    SextetsLetter(d);
  }

  lemma {:induction false} SextetsLetter(c: char)
    requires IsBase64(c)
    ensures LetterOf(SextetOf(c)) == c
  {
    hide IsBase64, Letter, Value;
  }

  lemma {:induction false} BitsComeBack(p: Byte, q: Byte, r: Byte, s: Byte)
    requires p < 64 && q < 64 && r < 64 && s < 64
    ensures var t := Triple(p, q, r, s);
      var g := Group(t[0], t[1], t[2]);
      Sextet(g, 0) == p && Sextet(g, 1) == q && Sextet(g, 2) == r && Sextet(g, 3) == s
  {
  }

  /** Decoding an encoding returns the number of bytes whenever the buffer is
      larger than that, and -1 when there is something to write and it is not. */
  lemma {:induction false} DecodeOfEncode(b: seq<Byte>, maxlen: nat)
    ensures DecodeResult(Encoded(b), maxlen) == if |b| > 0 && maxlen <= |b| then -1 else |b|
  {
    BytesOfEncoded(b);
  }

  lemma {:induction false} EncodeIsInjective(a: seq<Byte>, b: seq<Byte>)
    requires Encoded(a) == Encoded(b)
    ensures a == b
  {
    BytesOfEncoded(a);
    BytesOfEncoded(b);
  }

  // ----- the loops

  /** The four table look-ups for the bytes in `three`. */
  method Letters(three: array<Byte>, four: array<Byte>)
    requires three.Length == 3 && four.Length == 4
    modifies four
    ensures forall k :: 0 <= k < 4 ==> four[k] == Sextet(Group(three[0], three[1], three[2]), k)
  {
    EncodeBits(three[0], three[1], three[2]);
    four[0] := (three[0] & 0xfc) >> 2;
    four[1] := ((three[0] & 0x03) << 4) + ((three[1] & 0xf0) >> 4);
    four[2] := ((three[1] & 0x0f) << 2) + ((three[2] & 0xc0) >> 6);
    four[3] := three[2] & 0x3f;
  }

  /** The letters of the first `count` 6-bit groups. */
  function LettersOf(four: seq<Byte>, count: nat): string
    requires count <= |four| && forall k :: 0 <= k < |four| ==> four[k] < 64
  {
    if count == 0 then "" else LettersOf(four, count - 1) + [LetterOf(four[count - 1])]
  }

  lemma {:induction false} LettersOfQuad(x: Byte, y: Byte, z: Byte, four: seq<Byte>, count: nat)
    requires |four| == 4 && 1 <= count <= 4
    requires forall k :: 0 <= k < 4 ==> four[k] == Sextet(Group(x, y, z), k) && four[k] < 64
    ensures LettersOf(four, count) == Quad(x, y, z)[..count]
  {
    var q := Quad(x, y, z);
    assert LettersOf(four, 1) == q[..1];
    assert LettersOf(four, 2) == q[..2];
    assert LettersOf(four, 3) == q[..3];
    assert LettersOf(four, 4) == q[..4];
  }

  method Append(text: string, four: array<Byte>, count: nat) returns (r: string)
    requires four.Length == 4 && count <= 4
    requires forall k :: 0 <= k < 4 ==> four[k] < 64
    ensures r == text + LettersOf(four[..], count)
  {
    r := text;
    var j := 0;
    while j < count
      invariant j <= count
      invariant r == text + LettersOf(four[..], j)
    {
      TableIsTheAlphabet(four[j] as int);
      r := r + [BASE64_CHARS[four[j] as int]];
      j := j + 1;
    }
  }

  /** The tail of `Encode`: a last group of `count` bytes, filled and padded. */
  method EncodeRest(text: string, three: array<Byte>, four: array<Byte>, count: nat) returns (r: string)
    requires three.Length == 3 && four.Length == 4 && three != four && 1 <= count <= 2
    modifies three, four
    ensures r == text + Encoded(old(three[..count]))
  {
    ghost var x, y := three[0], if count == 2 then three[1] else 0;
    var i, j := count, count;
    while j < 3
      invariant count <= j <= 3
      invariant three[0] == x && (count == 2 ==> three[1] == y)
      invariant forall k :: count <= k < j ==> three[k] == 0
    {
      three[j] := 0;
      j := j + 1;
    }
    Letters(three, four);
    LettersOfQuad(x, y, 0, four[..], count + 1);
    r := Append(text, four, count + 1);
    ghost var letters := Quad(x, y, 0)[..count + 1];
    ghost var pads := "";
    while i < 3
      invariant count <= i <= 3 && |pads| == i - count
      invariant forall k :: 0 <= k < |pads| ==> pads[k] == PAD
      invariant r == text + (letters + pads)
    {
      r := r + [PAD];
      pads := pads + [PAD];
      i := i + 1;
    }
    assert pads == if count == 1 then [PAD, PAD] else [PAD];
    assert old(three[..count]) == if count == 1 then [x] else [x, y];
  }

  lemma {:induction false} EncodedNothing()
    ensures Encoded([]) == ""
  {
  }

  /** Encoding goes group by group. */
  lemma {:induction false} EncodedSplit(b: seq<Byte>, m: nat)
    requires m % 3 == 0 && m <= |b|
    ensures Encoded(b) == Encoded(b[..m]) + Encoded(b[m..])
    decreases |b|
  {
    hide Encoded, Quad;
    if m == 0 {
      assert b[0..] == b && b[..0] == [];
      EncodedNothing();
    } else {
      var x, y, z, rest := b[0], b[1], b[2], b[3..];
      EncodedSplit(rest, m - 3);
      assert b == [x, y, z] + rest && b[..m] == [x, y, z] + rest[..m - 3] && b[m..] == rest[m - 3..];
      EncodedGroup(x, y, z, rest);
      EncodedGroup(x, y, z, rest[..m - 3]);
    }
  }

  lemma {:induction false} EncodedOneGroup(b: seq<Byte>, m: nat)
    requires m % 3 == 0 && m + 3 <= |b|
    ensures Encoded(b[..m + 3]) == Encoded(b[..m]) + Quad(b[m], b[m + 1], b[m + 2])
  {
    EncodedSplit(b[..m + 3], m);
    assert b[..m + 3][..m] == b[..m];
    assert b[..m + 3][m..] == [b[m], b[m + 1], b[m + 2]] + [];
    EncodedGroup(b[m], b[m + 1], b[m + 2], []);
  }

  method Encode(input: seq<Byte>) returns (r: string)
    ensures r == Encoded(input)
  {
    hide Encoded, Quad;
    EncodedNothing();
    r := "";
    var i, at := 0, 0;
    var three := new Byte[3];
    var four := new Byte[4];
    ghost var m := 0;
    while at < |input|
      invariant 0 <= i < 3 && m == at - i && m % 3 == 0 && at <= |input|
      invariant forall k :: 0 <= k < i ==> three[k] == input[m + k]
      invariant r == Encoded(input[..m])
    {
      three[i] := input[at];
      i, at := i + 1, at + 1;
      if i == 3 {
        EncodedOneGroup(input, m);
        Letters(three, four);
        LettersOfQuad(three[0], three[1], three[2], four[..], 4);
        r := Append(r, four, 4);
        i, m := 0, m + 3;
      }
    }
    EncodedSplit(input, m);
    assert three[..i] == input[m..];
    assert i == 0 ==> input[m..] == [];
    if i > 0 {
      r := EncodeRest(r, three, four, i);
    }
  }

  // ----- the decoding loop

  /** Bytes a buffer of `maxlen` takes before `decode` gives up: it checks only
      after it has written one. */
  function Room(maxlen: nat): nat {
    if maxlen == 0 then 1 else maxlen
  }

  /** Write `bytes` from `at` on; stop when the buffer is used up. */
  method Emit(buffer: array<Byte>, at: nat, bytes: seq<Byte>, maxlen: nat) returns (end: nat, full: bool)
    requires at < Room(maxlen) <= buffer.Length
    modifies buffer
    ensures full == (|bytes| > 0 && at + |bytes| >= maxlen)
    ensures !full ==> end == at + |bytes| && end < Room(maxlen)
    ensures full ==> end == Room(maxlen)
    ensures buffer[..end] == old(buffer[..at]) + bytes[..end - at]
    ensures forall k :: end <= k < buffer.Length ==> buffer[k] == old(buffer[k])
  {
    end := at;
    var j := 0;
    while j < |bytes|
      invariant j <= |bytes| && end == at + j < Room(maxlen)
      invariant j > 0 ==> end < maxlen
      invariant buffer[..end] == old(buffer[..at]) + bytes[..j]
      invariant forall k :: end <= k < buffer.Length ==> buffer[k] == old(buffer[k])
    {
      buffer[end] := bytes[j];
      end, j := end + 1, j + 1;
      if end >= maxlen {
        return end, true;
      }
    }
    full := false;
  }

  /** The three bytes of the four table values in `four`. */
  method Join(four: array<Byte>, three: array<Byte>)
    requires four.Length == 4 && three.Length == 3 && four != three
    modifies three
    ensures three[0] == (four[0] << 2) + ((four[1] & 0x30) >> 4)
    ensures three[1] == ((four[1] & 0xf) << 4) + ((four[2] & 0x3c) >> 2)
    ensures three[2] == ((four[2] & 0x3) << 6) + four[3]
  {
    three[0] := (four[0] << 2) + ((four[1] & 0x30) >> 4);
    three[1] := ((four[1] & 0xf) << 4) + ((four[2] & 0x3c) >> 2);
    three[2] := ((four[2] & 0x3) << 6) + four[3];
  }

  /** The table value of a character. */
  function Code(c: char): Byte {
    Find(c, 0)
  }

  lemma {:induction false} CodeIsSextet(c: char)
    requires IsBase64(c)
    ensures Code(c) == SextetOf(c)
  {
    FindIsValue(c, 0);
  }

  /** Replace each character by its table value. */
  method LookUp(chars: seq<char>, four: array<Byte>)
    requires |chars| == 4 && four.Length == 4
    modifies four
    ensures forall k :: 0 <= k < 4 ==> four[k] == Code(chars[k])
  {
    hide Code, Find;
    var j := 0;
    while j < 4
      invariant j <= 4
      invariant forall k :: 0 <= k < j ==> four[k] == Code(chars[k])
    {
      four[j] := Code(chars[j]);
      j := j + 1;
    }
  }

  /** Only the letters that are there reach the bytes that are written. */
  lemma {:induction false} TailBits(p: Byte, q: Byte, r: Byte, s: Byte)
    requires p < 64 && q < 64
    ensures (p << 2) + ((q & 0x30) >> 4) == Triple(p, q, 0, 0)[0]
    ensures r < 64 ==>
      (p << 2) + ((q & 0x30) >> 4) == Triple(p, q, r, 0)[0]
      && ((q & 0xf) << 4) + ((r & 0x3c) >> 2) == Triple(p, q, r, 0)[1]
  {
  }

  lemma {:induction false} LeadGoesOn(s: string, at: nat)
    requires at <= |s| && forall k :: 0 <= k < at ==> IsBase64(s[k])
    ensures Lead(s) == s[..at] + Lead(s[at..])
  {
    assert s == s[..at] + s[at..];
    LeadThrough(s[..at], s[at..]);
  }

  lemma {:induction false} PadIsNoLetter()
    ensures !IsBase64(PAD)
  {
  }

  lemma {:induction false} BytesOfNothing()
    ensures Bytes([]) == []
  {
  }

  lemma {:induction false} BytesQuadFirst(quad: string, rest: string)
    requires |quad| == 4 && forall k :: 0 <= k < |quad + rest| ==> IsBase64((quad + rest)[k])
    ensures forall k :: 0 <= k < |quad| ==> IsBase64(quad[k])
    ensures forall k :: 0 <= k < |rest| ==> IsBase64(rest[k])
    ensures Bytes(quad + rest) == Bytes(quad) + Bytes(rest)
  {
    hide Triple, SextetOf;
    assert forall k :: 0 <= k < |quad| ==> (quad + rest)[k] == quad[k];
    assert forall k :: 0 <= k < |rest| ==> (quad + rest)[4 + k] == rest[k];
    assert (quad + rest)[4..] == rest && quad[4..] == [];
  }

  /** Decoding goes group by group. */
  lemma {:induction false} BytesSplit(s: string, m: nat)
    requires m % 4 == 0 && m <= |s| && forall k :: 0 <= k < |s| ==> IsBase64(s[k])
    ensures Bytes(s) == Bytes(s[..m]) + Bytes(s[m..])
    decreases |s|
  {
    hide Bytes;
    if m == 0 {
      BytesOfNothing();
      assert s[0..] == s && s[..0] == [];
    } else {
      var quad, rest := s[..4], s[4..];
      BytesSplit(rest, m - 4);
      assert s == quad + rest && s[..m] == quad + rest[..m - 4] && s[m..] == rest[m - 4..];
      BytesQuadFirst(quad, rest);
      BytesQuadFirst(quad, rest[..m - 4]);
    }
  }

  /** What has been decoded after `m` letters is a prefix of the result. */
  lemma {:induction false} DecodedPrefix(s: string, m: nat)
    requires m % 4 == 0 && m <= |s| && forall k :: 0 <= k < m ==> IsBase64(s[k])
    ensures |Bytes(s[..m])| <= |Decoded(s)| && Decoded(s)[..|Bytes(s[..m])|] == Bytes(s[..m])
  {
    LeadGoesOn(s, m);
    LeadIsBase64(s);
    BytesSplit(Lead(s), m);
    assert Lead(s)[..m] == s[..m];
  }

  lemma {:induction false} BytesOneGroup(s: string, m: nat)
    requires m % 4 == 0 && m + 4 <= |s| && forall k :: 0 <= k < m + 4 ==> IsBase64(s[k])
    ensures Bytes(s[..m + 4]) == Bytes(s[..m]) + Bytes(s[m..m + 4])
  {
    hide Bytes;
    BytesSplit(s[..m + 4], m);
    assert s[..m + 4][..m] == s[..m];
    assert s[..m + 4][m..] == s[m..m + 4];
  }

  /** The result when the alphabet ends after `i` letters of a group. */
  lemma {:induction false} DecodedEnds(s: string, m: nat, i: nat)
    requires m % 4 == 0 && i < 4 && m + i <= |s| && forall k :: 0 <= k < m + i ==> IsBase64(s[k])
    requires m + i == |s| || !IsBase64(s[m + i])
    ensures Decoded(s) == Bytes(s[..m]) + Bytes(s[m..m + i])
  {
    LeadGoesOn(s, m + i);
    assert Lead(s) == s[..m + i];
    BytesSplit(s[..m + i], m);
    assert s[..m + i][..m] == s[..m];
    assert s[..m + i][m..] == s[m..m + i];
  }

  /** Giving up: the buffer holds the start of the result. */
  lemma {:induction false} FullStops(s: string, done: seq<Byte>, more: seq<Byte>, maxlen: nat)
    requires |done| + |more| <= |Decoded(s)| && Decoded(s)[..|done| + |more|] == done + more
    requires |done| < Room(maxlen) && |more| > 0 && |done| + |more| >= maxlen
    ensures DecodeResult(s, maxlen) == -1
    ensures done + more[..Room(maxlen) - |done|] == Decoded(s)[..Room(maxlen)]
  {
    assert done + more[..Room(maxlen) - |done|] == (done + more)[..Room(maxlen)];
  }

  lemma {:induction false} AllFits(s: string, n: nat, maxlen: nat)
    requires n == |Decoded(s)| && (n > 0 ==> n < maxlen)
    ensures DecodeResult(s, maxlen) == n
  {
  }

  /** Decode one full group from `chars` into `three`. */
  method JoinGroup(chars: seq<char>, four: array<Byte>, three: array<Byte>)
    requires |chars| == 4 && forall k :: 0 <= k < 4 ==> IsBase64(chars[k])
    requires four.Length == 4 && three.Length == 3 && four != three
    modifies four, three
    ensures three[..] == Bytes(chars)
  {
    LookUp(chars, four);
    forall k | 0 <= k < 4 ensures four[k] == SextetOf(chars[k]) {
      CodeIsSextet(chars[k]);
    }
    Join(four, three);
    DecodeBits(four[0], four[1], four[2], four[3]);
    assert chars[4..] == [];
    assert three[..] == Triple(four[0], four[1], four[2], four[3]);
  }

  lemma {:induction false} RestSpells(rest: string, three: seq<Byte>)
    requires 1 <= |rest| < 4 && |three| == 3 && forall k :: 0 <= k < |rest| ==> IsBase64(rest[k])
    requires |rest| == 2 ==> three[0] == Triple(SextetOf(rest[0]), SextetOf(rest[1]), 0, 0)[0]
    requires |rest| == 3 ==>
      var t := Triple(SextetOf(rest[0]), SextetOf(rest[1]), SextetOf(rest[2]), 0);
      three[0] == t[0] && three[1] == t[1]
    ensures three[..|rest| - 1] == Bytes(rest)
  {
    hide SextetOf, Triple;
  }

  /** Decode a last group of `i` letters; the missing ones are filled with NUL. */
  method JoinRest(chars: seq<char>, i: nat, four: array<Byte>, three: array<Byte>)
    requires |chars| == 4 && 1 <= i < 4 && forall k :: 0 <= k < i ==> IsBase64(chars[k])
    requires four.Length == 4 && three.Length == 3 && four != three
    modifies four, three
    ensures three[..i - 1] == Bytes(chars[..i])
  {
    hide Code, Find, SextetOf, Bytes, Triple;
    LookUp(chars[..i] + seq(4 - i, _ => '\0'), four);
    forall k | 0 <= k < i ensures four[k] == SextetOf(chars[k]) {
      CodeIsSextet(chars[k]);
    }
    Join(four, three);
    if i > 1 {
      TailBits(four[0], four[1], four[2], four[3]);
    }
    RestSpells(chars[..i], three[..]);
  }

  predicate IsPrefix(p: seq<Byte>, q: seq<Byte>) {
    |p| <= |q| && q[..|p|] == p
  }

  /** Write the next bytes of the result of `s`, or give up. */
  method Write(buffer: array<Byte>, at: nat, bytes: seq<Byte>, maxlen: nat, ghost s: string)
    returns (end: nat, full: bool)
    requires at < Room(maxlen) <= buffer.Length && (at > 0 ==> at < maxlen)
    requires IsPrefix(buffer[..at] + bytes, Decoded(s))
    modifies buffer
    ensures full ==> DecodeResult(s, maxlen) == -1 && buffer[..Room(maxlen)] == Decoded(s)[..Room(maxlen)]
    ensures !full ==> end < Room(maxlen) && (end > 0 ==> end < maxlen) && buffer[..end] == old(buffer[..at]) + bytes
    ensures at <= end <= Room(maxlen) && forall k :: end <= k < buffer.Length ==> buffer[k] == old(buffer[k])
  {
    hide Decoded, DecodeResult;
    ghost var done := buffer[..at];
    end, full := Emit(buffer, at, bytes, maxlen);
    if full {
      FullStops(s, done, bytes, maxlen);
    }
  }

  method Decode(s: string, buffer: array<Byte>, maxlen: nat) returns (r: int)
    requires Room(maxlen) <= buffer.Length
    modifies buffer
    ensures r == DecodeResult(s, maxlen)
    ensures r >= 0 ==> buffer[..r] == Decoded(s) && forall k :: r <= k < Room(maxlen) ==> buffer[k] == 0
    ensures r < 0 ==> buffer[..Room(maxlen)] == Decoded(s)[..Room(maxlen)]
    ensures forall k :: Room(maxlen) <= k < buffer.Length ==> buffer[k] == old(buffer[k])
  {
    hide Bytes, Decoded, DecodeResult, Triple, SextetOf, IsBase64, Lead, Value;
    PadIsNoLetter();
    BytesOfNothing();
    assert s[..0] == [];
    forall k | 0 <= k < maxlen {
      buffer[k] := 0;
    }
    var chars := seq(4, _ => '\0');
    var four := new Byte[4];
    var three := new Byte[3];
    var i, at, out, full := 0, 0, 0, false;
    ghost var m := 0;
    while at < |s| && s[at] != PAD && IsBase64(s[at])
      invariant 0 <= i < 4 && |chars| == 4 && at <= |s| && m == at - i && m % 4 == 0
      invariant 0 <= out < Room(maxlen) && (out > 0 ==> out < maxlen)
      invariant fresh(four) && fresh(three)
      invariant forall k :: 0 <= k < at ==> IsBase64(s[k])
      invariant forall k :: 0 <= k < i ==> chars[k] == s[m + k]
      invariant buffer[..out] == Bytes(s[..m])
      invariant forall k :: out <= k < maxlen ==> buffer[k] == 0
      invariant forall k :: Room(maxlen) <= k < buffer.Length ==> buffer[k] == old(buffer[k])
    {
      chars := chars[i := s[at]];
      i, at := i + 1, at + 1;
      if i == 4 {
        assert chars == s[m..at];
        JoinGroup(chars, four, three);
        BytesOneGroup(s, m);
        DecodedPrefix(s, m + 4);
        out, full := Write(buffer, out, three[..], maxlen, s);
        if full {
          return -1;
        }
        i, m := 0, m + 4;
      }
    }
    DecodedEnds(s, m, i);
    assert chars[..i] == s[m..at];
    if i > 0 {
      JoinRest(chars, i, four, three);
      out, full := Write(buffer, out, three[..i - 1], maxlen, s);
      if full {
        return -1;
      }
    } else {
      assert s[m..m] == [];
    }
    AllFits(s, out, maxlen);
    buffer[out] := 0;
    r := out;
  }
}
