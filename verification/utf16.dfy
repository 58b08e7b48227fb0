/** Java strings as UTF-16 code units, and the code-point view of them that
    `String.codePointAt` and `Character.charCount` give. */
module Utf16 {

  /** A Java `char`: one UTF-16 code unit. */
  newtype CodeUnit = x: int | 0 <= x < 0x1_0000

  /** A Java `String`: a sequence of UTF-16 code units. */
  type JString = seq<CodeUnit>

  /** A Unicode code point, `Character.MIN_CODE_POINT` to
      `Character.MAX_CODE_POINT`. Surrogate values are included, because
      `codePointAt` returns an unpaired surrogate as it is. */
  type CodePoint = x: int | 0 <= x <= 0x10_FFFF

  /** `Character.MIN_SUPPLEMENTARY_CODE_POINT`: the first code point that
      needs two code units. */
  const MinSupplementary: int := 0x1_0000

  predicate IsHighSurrogate(u: CodeUnit) {
    0xD800 <= u <= 0xDBFF
  }

  predicate IsLowSurrogate(u: CodeUnit) {
    0xDC00 <= u <= 0xDFFF
  }

  /** A code point reserved for surrogates, which is not a Unicode scalar value. */
  predicate IsSurrogate(c: CodePoint) {
    0xD800 <= c <= 0xDFFF
  }

  /** `Character.highSurrogate`: the leading unit of a supplementary code point. */
  function HighSurrogate(c: CodePoint): (u: CodeUnit)
    requires c >= MinSupplementary
    ensures IsHighSurrogate(u)
  {
    ((c - MinSupplementary) / 0x400 + 0xD800) as CodeUnit
  }

  /** `Character.lowSurrogate`: the trailing unit of a supplementary code point. */
  function LowSurrogate(c: CodePoint): (u: CodeUnit)
    requires c >= MinSupplementary
    ensures IsLowSurrogate(u)
  {
    ((c - MinSupplementary) % 0x400 + 0xDC00) as CodeUnit
  }

  /** `Character.toCodePoint`: the supplementary code point a surrogate pair
      stands for; splitting it again gives back the same pair. */
  function ToCodePoint(high: CodeUnit, low: CodeUnit): (c: CodePoint)
    requires IsHighSurrogate(high) && IsLowSurrogate(low)
    ensures c >= MinSupplementary
    ensures HighSurrogate(c) == high && LowSurrogate(c) == low
  {
    var h := high as int - 0xD800;
    var l := low as int - 0xDC00;
    SplitPair(h * 0x400 + l, h, l);
    h * 0x400 + l + MinSupplementary
  }

  /** Ten bits of a pair offset split uniquely into a quotient and remainder. */
  lemma SplitPair(n: int, q: int, r: int)
    requires 0 <= r < 0x400 && n == q * 0x400 + r
    ensures n / 0x400 == q && n % 0x400 == r
  {
  }

  /** Joining the two halves of a supplementary code point gives it back. */
  lemma SurrogatesJoin(c: CodePoint)
    requires c >= MinSupplementary
    ensures ToCodePoint(HighSurrogate(c), LowSurrogate(c)) == c
  {
  }

  /** `String.codePointAt(i)`: a high surrogate followed by a low surrogate
      reads as one supplementary code point; any other unit, an unpaired
      surrogate included, reads as its own value. */
  function CodePointAt(s: JString, i: nat): (c: CodePoint)
    requires i < |s|
    ensures c >= MinSupplementary ==>
              i + 1 < |s| && s[i] == HighSurrogate(c) && s[i + 1] == LowSurrogate(c)
    ensures c < MinSupplementary ==> c == s[i] as int
    ensures c < MinSupplementary ==>
              !(IsHighSurrogate(s[i]) && i + 1 < |s| && IsLowSurrogate(s[i + 1]))
  {
    if IsHighSurrogate(s[i]) && i + 1 < |s| && IsLowSurrogate(s[i + 1]) then
      ToCodePoint(s[i], s[i + 1])
    else
      s[i] as int
  }

  /** `Character.charCount`: how many code units a code point occupies. */
  function CharCount(c: CodePoint): (n: nat)
    ensures n == 2 <==> c >= MinSupplementary
    ensures n == 1 <==> c < MinSupplementary
  {
    if c >= MinSupplementary then 2 else 1
  }

  /** The code points of `s`, in order, read with `codePointAt` and advanced
      by `charCount`, so that a surrogate pair yields one code point. */
  function CodePoints(s: JString): (cps: seq<CodePoint>)
    ensures |cps| <= |s|
    ensures |cps| == 0 <==> |s| == 0
    decreases |s|
  {
    if |s| == 0 then []
    else
      var c := CodePointAt(s, 0);
      [c] + CodePoints(s[CharCount(c)..])
  }

  /** Reading code points from `offset` on: the one at `offset`, then the
      rest after its `charCount` units. */
  lemma CodePointsFrom(s: JString, offset: nat)
    requires offset < |s|
    ensures offset + CharCount(CodePointAt(s, offset)) <= |s|
    ensures CodePoints(s[offset..])
         == [CodePointAt(s, offset)] + CodePoints(s[offset + CharCount(CodePointAt(s, offset))..])
  {
    var t := s[offset..];
    assert CodePointAt(t, 0) == CodePointAt(s, offset) by {
      assert t[0] == s[offset];
      if 1 < |t| {
        assert t[1] == s[offset + 1];
      }
    }
    var n := CharCount(CodePointAt(s, offset));
    assert t[n..] == s[offset + n..];
  }

  /** `Character.toChars`: the code units of one code point. */
  function ToChars(c: CodePoint): (us: JString)
    ensures |us| == CharCount(c)
  {
    if c >= MinSupplementary then [HighSurrogate(c), LowSurrogate(c)]
    else [c as CodeUnit]
  }

  /** `new String(int[] codePoints, ...)`: the UTF-16 encoding of a sequence
      of code points. */
  function FromCodePoints(cps: seq<CodePoint>): (s: JString)
    ensures |cps| <= |s| <= 2 * |cps|
  {
    if |cps| == 0 then []
    else ToChars(cps[0]) + FromCodePoints(cps[1..])
  }

  /** The code point at `i`, encoded again, is the units it was read from. */
  lemma ToCharsOfCodePointAt(s: JString, i: nat)
    requires i < |s|
    ensures i + CharCount(CodePointAt(s, i)) <= |s|
    ensures ToChars(CodePointAt(s, i)) == s[i..i + CharCount(CodePointAt(s, i))]
  {
  }

  lemma FromCodePointsCons(c: CodePoint, rest: seq<CodePoint>)
    ensures FromCodePoints([c] + rest) == ToChars(c) + FromCodePoints(rest)
  {
    assert ([c] + rest)[1..] == rest;
  }

  lemma Glue(s: JString, n: nat)
    requires n <= |s|
    ensures s[0..n] + s[n..] == s
  {
  }

  /** Reading a string as code points loses nothing: re-encoding them gives
      back every code unit, unpaired surrogates included. */
  lemma {:induction false} CodePointsRoundTrip(s: JString)
    ensures FromCodePoints(CodePoints(s)) == s
    decreases |s|
  {
    if |s| > 0 {
      var c := CodePointAt(s, 0);
      var n := CharCount(c);
      var rest := CodePoints(s[n..]);
      assert CodePoints(s) == [c] + rest;
      FromCodePointsCons(c, rest);
      CodePointsRoundTrip(s[n..]);
      ToCharsOfCodePointAt(s, 0);
      Glue(s, n);
    }
  }

  /** Encoding Unicode scalar values and reading them back gives the same
      code points: each supplementary one is read as a single code point,
      never as its two units. */
  lemma {:induction false} FromCodePointsRoundTrip(cps: seq<CodePoint>)
    requires forall i | 0 <= i < |cps| :: !IsSurrogate(cps[i])
    ensures CodePoints(FromCodePoints(cps)) == cps
  {
    if |cps| > 0 {
      var c := cps[0];
      var s := FromCodePoints(cps);
      var tail := FromCodePoints(cps[1..]);
      assert s == ToChars(c) + tail;
      if c >= MinSupplementary {
        SurrogatesJoin(c);
        assert CodePointAt(s, 0) == c;
      } else {
        assert !IsHighSurrogate(s[0]);
        assert CodePointAt(s, 0) == c;
      }
      assert s[CharCount(c)..] == tail;
      FromCodePointsRoundTrip(cps[1..]);
    }
  }

  /** A surrogate pair is one code point, not two. */
  lemma SurrogatePairIsOneCodePoint(high: CodeUnit, low: CodeUnit)
    requires IsHighSurrogate(high) && IsLowSurrogate(low)
    ensures CodePoints([high, low]) == [ToCodePoint(high, low)]
  {
    var s: JString := [high, low];
    assert s[2..] == [];
  }

  /** The UTF-16 form of a Dafny string, whose characters are Unicode scalar
      values: how a string literal of the source becomes a Java `String`. */
  function FromString(s: string): (j: JString)
    ensures CodePoints(j) == seq(|s|, i requires 0 <= i < |s| => s[i] as int)
  {
    var cps: seq<CodePoint> := seq(|s|, i requires 0 <= i < |s| => s[i] as int);
    FromCodePointsRoundTrip(cps);
    FromCodePoints(cps)
  }
}
