/** The HTML character references an emoji carries: one `&#<decimal>;` or
    `&#x<hex>;` per code point of its text, concatenated without separators,
    and the reader that splits such a string back into code points. */
module HtmlEntities {
  import opened Optional
  import opened Sequences
  import opened Numerals
  import opened Utf16

  /** The two notations of a numeric character reference. */
  datatype Notation = DecimalNotation | HexNotation

  /** What opens a reference: `&#` for decimal, `&#x` for hexadecimal. */
  function Opener(notation: Notation): string {
    match notation
    case DecimalNotation => "&#"
    case HexNotation => "&#x"
  }

  function DigitsOf(notation: Notation): (alphabet: string)
    ensures IsAlphabet(alphabet)
  {
    StandardAlphabets();
    match notation
    case DecimalNotation => DecimalAlphabet
    case HexNotation => HexAlphabet
  }

  /** `String.format("&#%d;", c)` or `String.format("&#x%x;", c)`: the
      opener, the numeral in ASCII digits, then `;`. `ReferenceNumerals`
      shows the numeral is `Numerals.Decimal` or `Numerals.Hex`. */
  function Reference(c: CodePoint, notation: Notation): (r: string)
    ensures Opener(notation) <= r
    ensures |r| >= |Opener(notation)| + 2 && r[|r| - 1] == ';'
    ensures forall i | |Opener(notation)| <= i < |r| - 1 :: r[i] in DigitsOf(notation)
  {
    Opener(notation) + Numeral(c, DigitsOf(notation)) + ";"
  }

  /** A reference holds exactly the canonical numeral of its code point:
      `&#` and `Decimal(c)`, or `&#x` and `Hex(c)`, then `;`. */
  lemma ReferenceNumerals(c: CodePoint)
    ensures Reference(c, DecimalNotation) == "&#" + Decimal(c) + ";"
    ensures Reference(c, HexNotation) == "&#x" + Hex(c) + ";"
  {
  }

  /** The references of `cps`, one per code point, in order, joined with no
      separator. */
  function References(cps: seq<CodePoint>, notation: Notation): (s: string)
    ensures |s| >= 4 * |cps|
    ensures |s| == 0 <==> |cps| == 0
  {
    if |cps| == 0 then ""
    else Reference(cps[0], notation) + References(cps[1..], notation)
  }

  /** Reads the reference at the front of `s`: the code point it denotes
      and what follows its `;`, or `None` when `s` does not start with a
      well-formed reference in `notation`. */
  function ReadReference(s: string, notation: Notation): (r: Option<(CodePoint, string)>)
    ensures r.Some? ==> |r.value.1| < |s|
  {
    var opener := Opener(notation);
    if !(opener <= s) then None
    else
      var body := s[|opener|..];
      match IndexOf(body, ';')
      case None => None
      case Some(k) =>
        match ParseNumeral(body[..k], DigitsOf(notation))
        case None => None
        case Some(v) => if v > 0x10_FFFF then None else Some((v, body[k + 1..]))
  }

  /** Reads a string of references in `notation` back into the code points
      they denote; `None` when the string is not such a string. */
  function ParseReferences(s: string, notation: Notation): (r: Option<seq<CodePoint>>)
    ensures r.Some? ==> |r.value| <= |s|
    decreases |s|
  {
    if |s| == 0 then Some([])
    else
      match ReadReference(s, notation)
      case None => None
      case Some((c, rest)) =>
        match ParseReferences(rest, notation)
        case None => None
        case Some(cs) => Some([c] + cs)
  }

  /** The body of a reference: its numeral, then `;`, then whatever
      follows the reference. */
  lemma ReadBody(c: CodePoint, rest: string, notation: Notation)
    ensures var numeral := Numeral(c, DigitsOf(notation));
            var body := numeral + [';'] + rest;
            && IndexOf(body, ';') == Some(|numeral|)
            && ParseNumeral(body[..|numeral|], DigitsOf(notation)) == Some(c as nat)
            && body[|numeral| + 1..] == rest
  {
    var alphabet := DigitsOf(notation);
    var numeral := Numeral(c, alphabet);
    var body := numeral + [';'] + rest;
    assert ';' !in numeral by {
      forall i | 0 <= i < |numeral| ensures numeral[i] != ';' {
        assert numeral[i] in alphabet;
      }
    }
    IndexOfSeparator(numeral, ';', rest);
    assert body[..|numeral|] == numeral;
    NumeralRoundTrip(c, alphabet);
    assert body[|numeral| + 1..] == rest;
  }

  /** A reference in front of a readable string is read as its code point,
      and reading carries on just after its `;`. */
  lemma ParseReferenceStep(c: CodePoint, rest: string, notation: Notation)
    ensures ParseReferences(rest, notation).None? ==>
              ParseReferences(Reference(c, notation) + rest, notation).None?
    ensures ParseReferences(rest, notation).Some? ==>
              ParseReferences(Reference(c, notation) + rest, notation)
              == Some([c] + ParseReferences(rest, notation).value)
  {
    var opener := Opener(notation);
    var numeral := Numeral(c, DigitsOf(notation));
    var body := numeral + [';'] + rest;
    var s := Reference(c, notation) + rest;
    assert s == opener + body by {
      assert Reference(c, notation) == opener + numeral + [';'];
      assert (opener + numeral + [';']) + rest == opener + (numeral + [';'] + rest);
    }
    assert opener <= s;
    assert s[|opener|..] == body;
    ReadBody(c, rest, notation);
    assert ReadReference(s, notation) == Some((c, rest));
  }

  /** The references of a code-point sequence read back as exactly that
      sequence: one reference per code point, in order, nothing lost. */
  lemma {:induction false} ReferencesRoundTrip(cps: seq<CodePoint>, notation: Notation)
    ensures ParseReferences(References(cps, notation), notation) == Some(cps)
  {
    if |cps| > 0 {
      ParseReferenceStep(cps[0], References(cps[1..], notation), notation);
      ReferencesRoundTrip(cps[1..], notation);
      assert [cps[0]] + cps[1..] == cps;
    }
  }

  /** Appending a code point appends its reference. */
  lemma {:induction false} ReferencesSnoc(cps: seq<CodePoint>, c: CodePoint, notation: Notation)
    ensures References(cps + [c], notation) == References(cps, notation) + Reference(c, notation)
  {
    if |cps| == 0 {
      assert References([c], notation) == Reference(c, notation) + References([], notation);
    } else {
      assert (cps + [c])[1..] == cps[1..] + [c];
      ReferencesSnoc(cps[1..], c, notation);
    }
  }

  /** `Emoji.getHtmlDecimal` of a string: the decimal references of its
      code points, at least four characters per code point. */
  function HtmlDecimal(s: JString): (html: string)
    ensures |html| >= 4 * |CodePoints(s)|
    ensures |html| == 0 <==> |s| == 0
  {
    References(CodePoints(s), DecimalNotation)
  }

  /** `Emoji.getHtmlHexadecimal` of a string: the hexadecimal references of
      its code points, at least four characters per code point. */
  function HtmlHexadecimal(s: JString): (html: string)
    ensures |html| >= 4 * |CodePoints(s)|
    ensures |html| == 0 <==> |s| == 0
  {
    References(CodePoints(s), HexNotation)
  }

  /** The decimal HTML form of a string reads back as its code points. */
  lemma HtmlDecimalReadsBack(s: JString)
    ensures ParseReferences(HtmlDecimal(s), DecimalNotation) == Some(CodePoints(s))
  {
    ReferencesRoundTrip(CodePoints(s), DecimalNotation);
  }

  /** The hexadecimal HTML form of a string reads back as its code points. */
  lemma HtmlHexadecimalReadsBack(s: JString)
    ensures ParseReferences(HtmlHexadecimal(s), HexNotation) == Some(CodePoints(s))
  {
    ReferencesRoundTrip(CodePoints(s), HexNotation);
  }
}
