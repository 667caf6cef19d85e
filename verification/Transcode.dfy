/** The transcoders between UTF-8, UTF-16 and UTF-32 strings.  Decoding is lenient: a code unit that fits no pattern
    becomes a replacement character, and patterns are not checked for being the shortest or for naming a character. */
module Transcode {
  import opened Basics

  type Unit16 = x: nat | x < 0x1_0000
  type Unit32 = x: nat | x < 0x1_0000_0000

  const REPLACEMENT: Unit32 := 0xFFFD

  /** What comes of the first code units: a code point, or the unit that is no part of one. */
  datatype Piece = Point(code: Unit32) | Stray(unit: nat)

  // ----- one code point

  /** `10xxxxxx`. */
  predicate IsTail(b: Byte) {
    0x80 <= b < 0xC0
  }

  /** How many bytes the pattern of a first byte stands for; 0 if it has none. */
  function PatternLength(b: Byte): nat {
    if b < 0x80 then 1
    else if 0xC0 <= b < 0xE0 then 2
    else if 0xE0 <= b < 0xF0 then 3
    else if 0xF0 <= b < 0xF8 then 4
    else 0
  }

  /** The low bits of a byte. */
  function Low(b: Byte, m: nat): nat
    requires m > 0
  {
    b % m
  }

  /** Six more bits of a code point, from a later byte. */
  function Joined(high: nat, b: Byte): nat {
    high * 0x40 + Low(b, 0x40)
  }

  /** `to_codepoint` for UTF-8: the piece, and how many bytes it takes. */
  function NextPiece(input: seq<Byte>): (r: (Piece, nat))
    requires input != []
    ensures 1 <= r.1 <= |input|
    ensures r.0.Point? ==> r.0.code < 0x20_0000 && r.1 == PatternLength(input[0])
    ensures r.0.Stray? ==> r.0.unit == input[0] && r.1 == 1
  {
    var b := input[0];
    var stray := (Stray(b), 1);
    if b < 0x80 then (Point(b), 1)
    else if 0xC0 <= b < 0xE0 then
      if |input| < 2 || !IsTail(input[1]) then stray
      else (Point(Joined(Low(b, 0x20), input[1])), 2)
    else if 0xE0 <= b < 0xF0 then
      if |input| < 3 || !IsTail(input[1]) || !IsTail(input[2]) then stray
      else (Point(Joined(Joined(Low(b, 0x10), input[1]), input[2])), 3)
    else if 0xF0 <= b < 0xF8 then
      if |input| < 4 || !IsTail(input[1]) || !IsTail(input[2]) || !IsTail(input[3]) then stray
      else (Point(Joined(Joined(Joined(Low(b, 8), input[1]), input[2]), input[3])), 4)
    else stray
  }

  /** The code point of a high and a low surrogate. */
  function OfPair(high: nat, low: nat): int {
    high * 0x400 + low - 0x35F_DC00
  }

  /** `to_codepoint` for UTF-16. */
  function NextPiece16(input: seq<Unit16>): (r: (Piece, nat))
    requires input != []
    ensures 1 <= r.1 <= |input| && r.1 <= 2
    ensures r.0.Point? ==> IsCharacter(r.0.code) && (r.1 == 2 <==> r.0.code >= 0x1_0000)
    ensures r.0.Stray? ==> r.0.unit == input[0] && r.1 == 1 && 0xD800 <= input[0] < 0xE000
  {
    var u := input[0];
    if u < 0xD800 || u >= 0xE000 then (Point(u), 1)
    else if u < 0xDC00 && |input| >= 2 && 0xDC00 <= input[1] < 0xE000 then (Point(OfPair(u, input[1])), 2)
    else (Stray(u), 1)
  }

  /** A Unicode scalar value. */
  predicate IsCharacter(c: Unit32) {
    c < 0x11_0000 && !(0xD800 <= c < 0xE000)
  }

  // ----- whole strings

  function CodeOf(p: Piece): Unit32 {
    if p.Point? then p.code else REPLACEMENT
  }

  function Decoded(input: seq<Byte>): seq<Unit32>
    decreases |input|
  {
    if input == [] then []
    else
      var (p, n) := NextPiece(input);
      [CodeOf(p)] + Decoded(input[n..])
  }

  function Decoded16(input: seq<Unit16>): seq<Unit32>
    decreases |input|
  {
    if input == [] then []
    else
      var (p, n) := NextPiece16(input);
      [CodeOf(p)] + Decoded16(input[n..])
  }

  /** `to_utf32_u32string` of a UTF-8 string. */
  method ToUtf32(input: seq<Byte>) returns (result: seq<Unit32>)
    ensures result == Decoded(input)
  {
    result := [];
    var rest := input;
    while rest != []
      invariant result + Decoded(rest) == Decoded(input)
      decreases |rest|
    {
      var (p, n) := NextPiece(rest);
      rest := rest[n..];
      result := result + [CodeOf(p)];
    }
  }

  /** `to_utf32_u32string` of a UTF-16 string. */
  method ToUtf32From16(input: seq<Unit16>) returns (result: seq<Unit32>)
    ensures result == Decoded16(input)
  {
    result := [];
    var rest := input;
    while rest != []
      invariant result + Decoded16(rest) == Decoded16(input)
      decreases |rest|
    {
      var (p, n) := NextPiece16(rest);
      rest := rest[n..];
      result := result + [CodeOf(p)];
    }
  }

  /** The bytes of one code point. */
  function Encoded1(c: Unit32): (r: seq<Byte>)
    ensures r != [] && PatternLength(r[0]) == |r|
  {
    if c < 0x80 then [c]
    else if c < 0x800 then [0xC0 + c / 0x40, 0x80 + c % 0x40]
    else if c < 0x1_0000 then [0xE0 + c / 0x1000, 0x80 + c / 0x40 % 0x40, 0x80 + c % 0x40]
    else if c < 0x20_0000 then [0xF0 + c / 0x4_0000, 0x80 + c / 0x1000 % 0x40, 0x80 + c / 0x40 % 0x40, 0x80 + c % 0x40]
    else [0xEF, 0xBF, 0xBD]
  }

  function Encoded(s: seq<Unit32>): seq<Byte> {
    if s == [] then [] else Encoded1(s[0]) + Encoded(s[1..])
  }

  /** The bytes of `c` are pushed one after another. */
  method PushCode(before: seq<Byte>, c: Unit32) returns (result: seq<Byte>)
    ensures result == before + Encoded1(c)
  {
    result := before;
    if c < 0x80 {
      result := result + [c];
    } else if c < 0x800 {
      result := result + [0xC0 + c / 0x40];
      result := result + [0x80 + c % 0x40];
    } else if c < 0x1_0000 {
      result := result + [0xE0 + c / 0x1000];
      result := result + [0x80 + c / 0x40 % 0x40];
      result := result + [0x80 + c % 0x40];
    } else if c < 0x20_0000 {
      result := result + [0xF0 + c / 0x4_0000];
      result := result + [0x80 + c / 0x1000 % 0x40];
      result := result + [0x80 + c / 0x40 % 0x40];
      result := result + [0x80 + c % 0x40];
    } else {
      result := result + [0xEF];
      result := result + [0xBF];
      result := result + [0xBD];
    }
  }

  /** `to_utf8_string`. */
  method ToUtf8(input: seq<Unit32>) returns (result: seq<Byte>)
    ensures result == Encoded(input)
  {
    hide Encoded1;
    result := [];
    for i := 0 to |input|
      invariant result + Encoded(input[i..]) == Encoded(input)
    {
      ghost var before := result;
      result := PushCode(result, input[i]);
      assert input[i..][1..] == input[i + 1..];
      Regrouped(before, Encoded1(input[i]), Encoded(input[i + 1..]));
    }
    assert input[|input|..] == [];
  }

  lemma Regrouped(a: seq<Byte>, b: seq<Byte>, c: seq<Byte>)
    ensures a + b + c == a + (b + c)
  {
  }

  // ----- what decoding gives back

  /** What survives of a code point: those that four bytes cannot hold are replaced. */
  function Kept(c: Unit32): Unit32 {
    if c < 0x20_0000 then c else REPLACEMENT
  }

  function KeptAll(s: seq<Unit32>): (r: seq<Unit32>)
    ensures |r| == |s| && forall i | 0 <= i < |s| :: r[i] == Kept(s[i])
  {
    seq(|s|, i requires 0 <= i < |s| => Kept(s[i]))
  }

  lemma AllKept(s: seq<Unit32>)
    requires forall c | c in s :: c < 0x20_0000
    ensures KeptAll(s) == s
  {
    forall i | 0 <= i < |s| ensures KeptAll(s)[i] == s[i] {
      assert s[i] in s;
    }
  }

  /** Decoding the bytes of a code point, whatever comes after them. */
  lemma PieceOfEncoded(c: Unit32, rest: seq<Byte>)
    ensures NextPiece(Encoded1(c) + rest) == (Point(Kept(c)), |Encoded1(c)|)
  {
    var s := Encoded1(c) + rest;
    assert forall i | 0 <= i < |Encoded1(c)| :: s[i] == Encoded1(c)[i];
    TwoDigits(c);
    ThreeDigits(c);
    FourDigits(c);
    hide Low, Joined;
  }

  lemma JoinedLast(c: nat)
    ensures Joined(c / 0x40, 0x80 + c % 0x40) == c
  {
  }

  lemma Nested(c: nat)
    ensures c / 0x1000 == c / 0x40 / 0x40 && c / 0x4_0000 == c / 0x40 / 0x40 / 0x40
  {
  }

  lemma TwoDigits(c: nat)
    ensures 0x80 <= c < 0x800 ==> Joined(Low(0xC0 + c / 0x40, 0x20), 0x80 + c % 0x40) == c
  {
  }

  lemma ThreeDigits(c: nat)
    ensures 0x800 <= c < 0x1_0000 ==>
            Joined(Joined(Low(0xE0 + c / 0x1000, 0x10), 0x80 + c / 0x40 % 0x40), 0x80 + c % 0x40) == c
  {
    hide Joined;
    JoinedLast(c);
    JoinedLast(c / 0x40);
    Nested(c);
  }

  lemma FourDigits(c: nat)
    ensures 0x1_0000 <= c < 0x20_0000 ==>
              Joined(Joined(Joined(Low(0xF0 + c / 0x4_0000, 8), 0x80 + c / 0x1000 % 0x40), 0x80 + c / 0x40 % 0x40),
                     0x80 + c % 0x40) == c
  {
    hide Joined;
    JoinedLast(c);
    JoinedLast(c / 0x40);
    JoinedLast(c / 0x40 / 0x40);
    Nested(c);
  }

  /** Decoding what was encoded gives the string back, up to replaced elements. */
  lemma {:induction false} RoundTrip(s: seq<Unit32>)
    ensures Decoded(Encoded(s)) == KeptAll(s)
  {
    hide Encoded1, NextPiece, Kept;
    if s != [] {
      var e, rest := Encoded1(s[0]), Encoded(s[1..]);
      PieceOfEncoded(s[0], rest);
      DecodedFirst(e, rest, Kept(s[0]));
      RoundTrip(s[1..]);
      assert KeptAll(s) == [Kept(s[0])] + KeptAll(s[1..]);
    }
  }

  lemma DecodedFirst(e: seq<Byte>, rest: seq<Byte>, c: Unit32)
    requires e + rest != [] && NextPiece(e + rest) == (Point(c), |e|)
    ensures Decoded(e + rest) == [c] + Decoded(rest)
  {
    hide NextPiece;
    assert (e + rest)[|e|..] == rest;
  }

  /** Different strings of code points below 2^21 have different encodings. */
  lemma EncodedApart(s: seq<Unit32>, t: seq<Unit32>)
    requires Encoded(s) == Encoded(t) && (forall c | c in s :: c < 0x20_0000) && (forall c | c in t :: c < 0x20_0000)
    ensures s == t
  {
    RoundTrip(s);
    RoundTrip(t);
    AllKept(s);
    AllKept(t);
  }

  /** A UTF-16 string, decoded, encoded as UTF-8 and decoded again is the decoded string, all of it characters. */
  lemma Utf16Through(s: seq<Unit16>)
    ensures Decoded(Encoded(Decoded16(s))) == Decoded16(s) && forall c | c in Decoded16(s) :: IsCharacter(c)
  {
    CharactersOnly(s);
    RoundTrip(Decoded16(s));
    AllKept(Decoded16(s));
  }

  lemma {:induction false} CharactersOnly(s: seq<Unit16>)
    ensures forall c | c in Decoded16(s) :: IsCharacter(c)
    decreases |s|
  {
    if s != [] {
      var (p, n) := NextPiece16(s);
      CharactersOnly(s[n..]);
    }
  }

  /** UTF-16 as section 2.1 of RFC 2781 defines it: the reference for the decoder. */
  function Utf16Of(c: Unit32): (r: seq<Unit16>)
    requires IsCharacter(c)
  {
    if c < 0x1_0000 then [c] else [0xD800 + (c - 0x1_0000) / 0x400, 0xDC00 + (c - 0x1_0000) % 0x400]
  }

  function Utf16(s: seq<Unit32>): seq<Unit16>
    requires forall c | c in s :: IsCharacter(c)
  {
    if s == [] then [] else Utf16Of(s[0]) + Utf16(s[1..])
  }

  /** The decoder undoes it. */
  lemma {:induction false} Utf16RoundTrip(s: seq<Unit32>)
    requires forall c | c in s :: IsCharacter(c)
    ensures Decoded16(Utf16(s)) == s
  {
    if s != [] {
      var u, rest := Utf16Of(s[0]), Utf16(s[1..]);
      PieceOfUtf16(s[0], rest);
      assert (u + rest)[|u|..] == rest;
      Utf16RoundTrip(s[1..]);
    }
  }

  lemma PieceOfUtf16(c: Unit32, rest: seq<Unit16>)
    requires IsCharacter(c)
    ensures NextPiece16(Utf16Of(c) + rest) == (Point(c), |Utf16Of(c)|)
  {
    var u := Utf16Of(c) + rest;
    assert forall i | 0 <= i < |Utf16Of(c)| :: u[i] == Utf16Of(c)[i];
    if c >= 0x1_0000 {
      PairOf(c - 0x1_0000);
    }
  }

  lemma PairOf(x: nat)
    requires x < 0x10_0000
    ensures OfPair(0xD800 + x / 0x400, 0xDC00 + x % 0x400) == 0x1_0000 + x && x / 0x400 < 0x400
  {
  }

  /** Which units make up a character is what the reference says, and a unit that starts none is stray. */
  lemma Decodes16(input: seq<Unit16>)
    requires input != []
    ensures forall c | IsCharacter(c) ::
              NextPiece16(input) == (Point(c), |Utf16Of(c)|) <==> Utf16Of(c) <= input
    ensures NextPiece16(input).0.Stray? <==> forall c | IsCharacter(c) :: !(Utf16Of(c) <= input)
  {
    var (p, n) := NextPiece16(input);
    if p.Point? {
      assert n == 2 ==> UnPair(input[0], input[1]) == p.code;
      assert Utf16Of(p.code) == input[..n];
    }
    forall c | IsCharacter(c) && Utf16Of(c) <= input ensures (p, n) == (Point(c), |Utf16Of(c)|) {
      PieceOfUtf16(c, input[|Utf16Of(c)|..]);
      assert input == Utf16Of(c) + input[|Utf16Of(c)|..];
    }
  }

  /** The pair of a code point, undone. */
  function UnPair(high: nat, low: nat): (c: nat)
    requires 0xD800 <= high < 0xDC00 <= low < 0xE000
    ensures c == OfPair(high, low) && (c - 0x1_0000) / 0x400 == high - 0xD800 && (c - 0x1_0000) % 0x400 == low - 0xDC00
  {
    0x1_0000 + (high - 0xD800) * 0x400 + (low - 0xDC00)
  }

  // ----- the reference for UTF-8

  /** One row of the table of section 3 of RFC 3629: a lead byte with the highest bits of the code point, and six more
      bits in every byte after it. */
  ghost predicate IsRow(s: seq<Byte>, c: nat) {
    && 1 <= |s| <= 4 && (forall i | 1 <= i < |s| :: 0x80 <= s[i] <= 0xBF)
    && var lead := [0x00, 0xC0, 0xE0, 0xF0][|s| - 1];
       && lead <= s[0] < lead + [0x80, 0x20, 0x10, 0x08][|s| - 1]
       && c == SixBits(s[0] - lead, s[1..])
  }

  /** A number followed by groups of six bits. */
  ghost function SixBits(high: nat, tail: seq<Byte>): nat
    requires forall i | 0 <= i < |tail| :: 0x80 <= tail[i]
    decreases |tail|
  {
    if tail == [] then high else SixBits(high * 0x40 + (tail[0] - 0x80), tail[1..])
  }

  /** Which bytes make up a code point is what the table says, however many bytes were needed, and a byte that starts
      no row is stray. */
  lemma DecodesRows(input: seq<Byte>)
    requires input != []
    ensures forall n: nat, c: nat | n <= |input| && c < 0x1_0000_0000 ::
              NextPiece(input) == (Point(c), n) <==> IsRow(input[..n], c)
    ensures NextPiece(input).0.Stray? <==> forall n: nat, c: nat | n <= |input| :: !IsRow(input[..n], c)
  {
    var (p, n) := NextPiece(input);
    if p.Point? { PointIsRow(input); }
    forall k: nat, c: nat | k <= |input| && IsRow(input[..k], c) ensures (p, n) == (Point(c), k) {
      RowIsPoint(input, k, c);
    }
  }

  lemma TailBits(b: Byte)
    requires IsTail(b)
    ensures Low(b, 0x40) == b - 0x80
  {
  }

  lemma LeadBits(b: Byte)
    ensures 0xC0 <= b < 0xE0 ==> Low(b, 0x20) == b - 0xC0
    ensures 0xE0 <= b < 0xF0 ==> Low(b, 0x10) == b - 0xE0
    ensures 0xF0 <= b < 0xF8 ==> Low(b, 8) == b - 0xF0
  {
  }

  /** The groups of six bits, written out. */
  lemma SixBitsAre(high: nat, tail: seq<Byte>)
    requires |tail| <= 3 && forall i | 0 <= i < |tail| :: 0x80 <= tail[i] <= 0xBF
    ensures |tail| == 0 ==> SixBits(high, tail) == high
    ensures |tail| == 1 ==> SixBits(high, tail) == Joined(high, tail[0])
    ensures |tail| == 2 ==> SixBits(high, tail) == Joined(Joined(high, tail[0]), tail[1])
    ensures |tail| == 3 ==> SixBits(high, tail) == Joined(Joined(Joined(high, tail[0]), tail[1]), tail[2])
    decreases |tail|
  {
    hide Low;
    if tail != [] {
      TailBits(tail[0]);
      SixBitsAre(Joined(high, tail[0]), tail[1..]);
    }
  }

  lemma PointIsRow(input: seq<Byte>)
    requires input != [] && NextPiece(input).0.Point?
    ensures var (p, n) := NextPiece(input); IsRow(input[..n], p.code)
  {
    hide Low, Joined, SixBits;
    var (p, n) := NextPiece(input);
    var s := input[..n];
    LeadBits(s[0]);
    SixBitsAre(s[0] - [0x00, 0xC0, 0xE0, 0xF0][n - 1], s[1..]);
  }

  lemma RowIsPoint(input: seq<Byte>, n: nat, c: nat)
    requires input != [] && n <= |input| && IsRow(input[..n], c)
    ensures c < 0x1_0000_0000 && NextPiece(input) == (Point(c), n)
  {
    hide Low, Joined, SixBits;
    var s := input[..n];
    RowBound(s, c);
    assert forall i | 0 <= i < n :: s[i] == input[i];
    assert n > 1 ==> input[1] == s[1] && IsTail(s[1]);
    assert n > 2 ==> input[2] == s[2] && IsTail(s[2]);
    assert n > 3 ==> input[3] == s[3] && IsTail(s[3]);
    LeadBits(s[0]);
    SixBitsAre(s[0] - [0x00, 0xC0, 0xE0, 0xF0][n - 1], s[1..]);
  }

  /** The bytes written are those of the table, and no row of it is shorter; from 2^21 on they are those of U+FFFD. */
  lemma EncodesRow(c: Unit32)
    ensures IsRow(Encoded1(c), if c < 0x20_0000 then c else 0xFFFD)
    ensures forall s | IsRow(s, c) :: |Encoded1(c)| <= |s|
  {
    hide NextPiece, IsRow;
    var e := Encoded1(c);
    PieceOfEncoded(c, []);
    assert e + [] == e && e[..|e|] == e;
    DecodesRows(e);
    forall s | IsRow(s, c) ensures |e| <= |s| {
      RowBound(s, c);
    }
  }

  lemma RowBound(s: seq<Byte>, c: nat)
    requires IsRow(s, c)
    ensures 1 <= |s| <= 4
    ensures |s| == 1 ==> c < 0x80
    ensures |s| == 2 ==> c < 0x800
    ensures |s| == 3 ==> c < 0x1_0000
    ensures |s| == 4 ==> c < 0x20_0000
  {
    hide SixBits, Low;
    var high := s[0] - [0x00, 0xC0, 0xE0, 0xF0][|s| - 1];
    SixBitsAre(high, s[1..]);
    forall i | 1 <= i < |s| ensures Low(s[i], 0x40) < 0x40 {
      TailBits(s[i]);
    }
  }

  // ----- counting

  /** The code points that the first bytes alone announce. */
  function Count(s: seq<Byte>): nat
    decreases |s|
  {
    if s == [] then 0
    else
      var n := if PatternLength(s[0]) == 0 then 1 else PatternLength(s[0]);
      1 + if n <= |s| then Count(s[n..]) else 0
  }

  /** `count_utf8_code_point`: the index is moved on inside the loop. */
  method CountCodePoints(str: seq<Byte>) returns (result: nat)
    ensures result == Count(str)
  {
    result := 0;
    var idx := 0;
    while idx < |str|
      invariant 0 <= idx && result + (if idx <= |str| then Count(str[idx..]) else 0) == Count(str)
      decreases |str| - idx
    {
      var c := str[idx];
      ghost var rest := str[idx..];
      if c <= 127 {
        idx := idx + 0;
      } else if 0xC0 <= c < 0xE0 {
        idx := idx + 1;
      } else if 0xE0 <= c < 0xF0 {
        idx := idx + 2;
      } else if 0xF0 <= c < 0xF8 {
        idx := idx + 3;
      }
      idx := idx + 1;
      result := result + 1;
      ghost var n := if PatternLength(c) == 0 then 1 else PatternLength(c);
      assert n <= |rest| ==> rest[n..] == str[idx..];
    }
  }

  /** No pattern is cut short: stray bytes are only such as start none. */
  predicate NoneCutShort(s: seq<Byte>)
    decreases |s|
  {
    s == [] || ((NextPiece(s).0.Point? || PatternLength(s[0]) == 0) && NoneCutShort(s[NextPiece(s).1..]))
  }

  /** How far the decoder moves on with each code point. */
  function DecoderSteps(s: seq<Byte>): (r: seq<nat>)
    ensures |r| == |Decoded(s)|
    decreases |s|
  {
    if s == [] then [] else [NextPiece(s).1] + DecoderSteps(s[NextPiece(s).1..])
  }

  /** How far the count moves on. */
  function CounterSteps(s: seq<Byte>): (r: seq<nat>)
    ensures |r| == Count(s)
    decreases |s|
  {
    if s == [] then []
    else
      var n := if PatternLength(s[0]) == 0 then 1 else PatternLength(s[0]);
      [n] + if n <= |s| then CounterSteps(s[n..]) else []
  }

  /** The count and the decoder stay in step if and only if no pattern is cut short. */
  lemma {:induction false} InStepIff(s: seq<Byte>)
    ensures CounterSteps(s) == DecoderSteps(s) <==> NoneCutShort(s)
    decreases |s|
  {
    if s != [] {
      var n, k := (if PatternLength(s[0]) == 0 then 1 else PatternLength(s[0])), NextPiece(s).1;
      FirstStep(s);
      var c, d := CounterSteps(s), DecoderSteps(s);
      assert d[0] == k && d[1..] == DecoderSteps(s[k..]);
      assert c[0] == n;
      if n == k {
        InStepIff(s[k..]);
        assert c[1..] == CounterSteps(s[k..]);
      }
    }
  }

  lemma FirstStep(s: seq<Byte>)
    requires s != []
    ensures (if PatternLength(s[0]) == 0 then 1 else PatternLength(s[0])) == NextPiece(s).1
            <==> NextPiece(s).0.Point? || PatternLength(s[0]) == 0
  {
  }

  /** Then the count is the number of code points decoded. */
  lemma CountIsLength(s: seq<Byte>)
    requires NoneCutShort(s)
    ensures Count(s) == |Decoded(s)|
  {
    InStepIff(s);
    assert |CounterSteps(s)| == Count(s) && |DecoderSteps(s)| == |Decoded(s)|;
  }

  lemma {:induction false} EncodedWhole(s: seq<Unit32>)
    ensures NoneCutShort(Encoded(s))
  {
    if s != [] {
      var e, rest := Encoded1(s[0]), Encoded(s[1..]);
      PieceOfEncoded(s[0], rest);
      assert (e + rest)[|e|..] == rest;
      EncodedWhole(s[1..]);
    }
  }

  /** Of what was encoded it is the length of the string. */
  lemma CountOfEncoded(s: seq<Unit32>)
    ensures Count(Encoded(s)) == |s|
  {
    EncodedWhole(s);
    CountIsLength(Encoded(s));
    RoundTrip(s);
  }

  /** Elsewhere the two may differ, either way: a count can leave out what is decoded after a stray byte, and it can
      count the later bytes of a pattern that it enters in the middle. */
  lemma CountsDiffer()
    ensures Count([0xC3, 0x41]) == 1 && Decoded([0xC3, 0x41]) == [REPLACEMENT, 0x41]
    ensures Count([0xE0, 0xF0, 0x90, 0x80, 0x80]) == 3 && Decoded([0xE0, 0xF0, 0x90, 0x80, 0x80])
            == [REPLACEMENT, 0x1_0000]
  {
    var s: seq<Byte>, s1: seq<Byte> := [0xC3, 0x41], [0x41];
    assert s[1..] == s1 && s[2..] == [] && s1[1..] == [];
    assert NextPiece(s) == (Stray(0xC3), 1) && NextPiece(s1) == (Point(0x41), 1);
    assert Decoded(s1) == [0x41] + Decoded([]);
    var t: seq<Byte>, t1: seq<Byte>, t3: seq<Byte>, t4: seq<Byte> := [0xE0, 0xF0, 0x90, 0x80, 0x80],
    [0xF0, 0x90, 0x80, 0x80], [0x80, 0x80], [0x80];
    assert t[1..] == t1 && t[3..] == t3 && t1[4..] == [] && t3[1..] == t4 && t4[1..] == [];
    assert NextPiece(t) == (Stray(0xE0), 1) && NextPiece(t1) == (Point(0x1_0000), 4);
    hide NextPiece;
    assert Decoded(t1) == [0x1_0000] + Decoded([]);
    assert Count(t4) == 1 + Count([]) && Count(t3) == 1 + Count(t4) && Count(t) == 1 + Count(t3);
    assert Count(s) == 1 + Count([]);
  }
}
