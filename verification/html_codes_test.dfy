/** The numerals and references of U+1F604, the code point of the loader's
    HTML test, worked out digit by digit. */
module HtmlCodesTest {
  import opened Utf16
  import opened Numerals
  import opened HtmlEntities

  /** `%d` of U+1F604 is `128516`. */
  lemma DecimalOfSmile()
    ensures Decimal(0x1F604) == "128516"
  {
    DecimalNumeralOfSmile();
  }

  lemma DecimalNumeralOfSmile()
    ensures Numeral(0x1F604, DecimalAlphabet) == "128516"
  {
    assert Digits(1, 10) == [1];
    assert Digits(12, 10) == [1, 2];
    assert Digits(128, 10) == [1, 2, 8];
    assert Digits(1285, 10) == [1, 2, 8, 5];
    assert Digits(12851, 10) == [1, 2, 8, 5, 1];
    assert Digits(128516, 10) == [1, 2, 8, 5, 1, 6];
    RenderDecimalOfSmile();
  }

  lemma RenderDecimalOfSmile()
    ensures Render([1, 2, 8, 5, 1, 6], DecimalAlphabet) == "128516"
  {
    var s := Render([1, 2, 8, 5, 1, 6], DecimalAlphabet);
    assert s[0] == '1' && s[1] == '2' && s[2] == '8' && s[3] == '5' && s[4] == '1' && s[5] == '6';
  }

  /** `%x` of U+1F604 is `1f604`: lower case, no leading zeros. */
  lemma HexOfSmile()
    ensures Hex(0x1F604) == "1f604"
  {
    HexNumeralOfSmile();
  }

  lemma HexNumeralOfSmile()
    ensures Numeral(0x1F604, HexAlphabet) == "1f604"
  {
    assert Digits(0x1, 16) == [1];
    assert Digits(0x1F, 16) == [1, 15];
    assert Digits(0x1F6, 16) == [1, 15, 6];
    assert Digits(0x1F60, 16) == [1, 15, 6, 0];
    assert Digits(0x1F604, 16) == [1, 15, 6, 0, 4];
    RenderHexOfSmile();
  }

  lemma RenderHexOfSmile()
    ensures Render([1, 15, 6, 0, 4], HexAlphabet) == "1f604"
  {
    var s := Render([1, 15, 6, 0, 4], HexAlphabet);
    assert s[0] == '1' && s[1] == 'f' && s[2] == '6' && s[3] == '0' && s[4] == '4';
  }

  lemma DecimalReferenceOfSmile()
    ensures Reference(0x1F604, DecimalNotation) == "&#128516;"
  {
    DecimalNumeralOfSmile();
    ReferenceText(0x1F604, DecimalNotation, "128516");
    assert "&#" + "128516" + ";" == "&#128516;";
  }

  lemma HexReferenceOfSmile()
    ensures Reference(0x1F604, HexNotation) == "&#x1f604;"
  {
    HexNumeralOfSmile();
    ReferenceText(0x1F604, HexNotation, "1f604");
    assert "&#x" + "1f604" + ";" == "&#x1f604;";
  }

  /** A reference is its opener, its numeral and `;`. */
  lemma ReferenceText(c: CodePoint, notation: Notation, numeral: string)
    requires Numeral(c, DigitsOf(notation)) == numeral
    ensures Reference(c, notation) == Opener(notation) + numeral + ";"
  {
  }

  /** The references of U+1F604 alone: one decimal and one hexadecimal
      reference. */
  lemma ReferencesOfSmile()
    ensures References([0x1F604], DecimalNotation) == "&#128516;"
    ensures References([0x1F604], HexNotation) == "&#x1f604;"
  {
    var cps: seq<CodePoint> := [0x1F604];
    assert References(cps, DecimalNotation) == Reference(0x1F604, DecimalNotation);
    assert References(cps, HexNotation) == Reference(0x1F604, HexNotation);
    DecimalReferenceOfSmile();
    HexReferenceOfSmile();
  }
}
