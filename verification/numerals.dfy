/** Rendering natural numbers as digit strings, as `String.format` does for
    `%d` and `%x` on a non-negative `int`, and reading them back. */
module Numerals {
  import opened Optional
  import opened Sequences

  /** The digits `%d` writes. */
  const DecimalAlphabet: string := "0123456789"

  /** The digits `%x` writes: lower-case, unlike `%X`. */
  const HexAlphabet: string := "0123456789abcdef"

  /** An alphabet of digits: at least two, none repeated, and no `;`, so that
      a numeral can be cut out of an HTML entity at its terminator. */
  predicate IsAlphabet(alphabet: string) {
    |alphabet| >= 2 && Distinct(alphabet) && ';' !in alphabet
  }

  lemma StandardAlphabets()
    ensures IsAlphabet(DecimalAlphabet) && IsAlphabet(HexAlphabet)
  {
  }

  /** The base-`base` digits of `n`, most significant first, without
      leading zeros: zero is the single digit `0`. */
  function Digits(n: nat, base: nat): (ds: seq<nat>)
    requires base >= 2
    ensures |ds| > 0
    ensures forall i | 0 <= i < |ds| :: ds[i] < base
    ensures ds[0] == 0 <==> n == 0
    ensures n == 0 ==> ds == [0]
    decreases n
  {
    if n < base then [n]
    else
      DivStep(n, base);
      Digits(n / base, base) + [n % base]
  }

  /** One step of long division by `base` leaves a smaller, non-zero quotient. */
  lemma DivStep(n: nat, base: nat)
    requires 2 <= base <= n
    ensures 1 <= n / base < n
    ensures n == n / base * base + n % base
    ensures 0 <= n % base < base
  {
    var q := n / base;
    var r := n % base;
    assert n == q * base + r && 0 <= r < base;
    assert q * base > 0;
    PositiveFactor(q, base);
    AtLeastDouble(q, base);
  }

  lemma PositiveFactor(q: int, b: int)
    requires b > 0 && q * b > 0
    ensures q > 0
  {
  }

  lemma {:induction false} AtLeastDouble(q: nat, b: int)
    requires b >= 2
    ensures q * b >= 2 * q
  {
    if q > 0 {
      AtLeastDouble(q - 1, b);
      assert q * b == (q - 1) * b + b;
    }
  }

  /** The number that digits `ds`, most significant first, denote. */
  function ValueOf(ds: seq<nat>, base: nat): nat {
    if |ds| == 0 then 0 else ValueOf(ds[..|ds| - 1], base) * base + ds[|ds| - 1]
  }

  /** The digits of `n` denote `n`. */
  lemma {:induction false} DigitsValue(n: nat, base: nat)
    requires base >= 2
    ensures ValueOf(Digits(n, base), base) == n
    decreases n
  {
    if n >= base {
      var ds := Digits(n, base);
      DivStep(n, base);
      assert ds[..|ds| - 1] == Digits(n / base, base);
      DigitsValue(n / base, base);
    }
  }

  /** Each digit written as its character in `alphabet`. */
  function Render(ds: seq<nat>, alphabet: string): (s: string)
    requires forall i | 0 <= i < |ds| :: ds[i] < |alphabet|
    ensures |s| == |ds|
    ensures forall i | 0 <= i < |ds| :: s[i] == alphabet[ds[i]]
  {
    seq(|ds|, i requires 0 <= i < |ds| => alphabet[ds[i]])
  }

  /** `n` written in the base of `alphabet`. */
  function Numeral(n: nat, alphabet: string): (s: string)
    requires IsAlphabet(alphabet)
    ensures |s| > 0
    ensures forall i | 0 <= i < |s| :: s[i] in alphabet
  {
    Render(Digits(n, |alphabet|), alphabet)
  }

  /** A numeral never starts with a zero digit, unless it is the numeral of
      zero, which is that one digit. */
  lemma NoLeadingZeros(n: nat, alphabet: string)
    requires IsAlphabet(alphabet)
    ensures Numeral(n, alphabet)[0] == alphabet[0] <==> n == 0
    ensures n == 0 ==> Numeral(n, alphabet) == [alphabet[0]]
  {
    var ds := Digits(n, |alphabet|);
    if Numeral(n, alphabet)[0] == alphabet[0] {
      assert alphabet[ds[0]] == alphabet[0];
    }
  }

  /** The digit values of `s` in `alphabet`, or `None` when some character
      is not a digit of it. */
  function DigitsOfText(s: string, alphabet: string): (r: Option<seq<nat>>)
    ensures r.Some? ==> |r.value| == |s|
    ensures r.Some? ==> forall i | 0 <= i < |s| :: r.value[i] < |alphabet| && alphabet[r.value[i]] == s[i]
    ensures r.None? <==> exists i | 0 <= i < |s| :: s[i] !in alphabet
  {
    if |s| == 0 then Some([])
    else
      match IndexOf(alphabet, s[0])
      case None => None
      case Some(d) =>
        match DigitsOfText(s[1..], alphabet)
        case None => assert forall i | 0 <= i < |s| - 1 :: s[1..][i] == s[i + 1]; None
        case Some(ds) => Some([d] + ds)
  }

  /** Reads a non-empty, unsigned run of digits of any length in the base
      of `alphabet`; anything else is rejected. */
  function ParseNumeral(s: string, alphabet: string): (r: Option<nat>)
    requires IsAlphabet(alphabet)
    ensures r.Some? ==> |s| > 0
  {
    if |s| == 0 then None
    else
      match DigitsOfText(s, alphabet)
      case None => None
      case Some(ds) => Some(ValueOf(ds, |alphabet|))
  }

  /** Rendered digits read back as the same digits. */
  lemma {:induction false} RenderRoundTrip(ds: seq<nat>, alphabet: string)
    requires Distinct(alphabet)
    requires forall i | 0 <= i < |ds| :: ds[i] < |alphabet|
    ensures DigitsOfText(Render(ds, alphabet), alphabet) == Some(ds)
  {
    if |ds| > 0 {
      var s := Render(ds, alphabet);
      IndexOfDistinct(alphabet, ds[0]);
      assert s[1..] == Render(ds[1..], alphabet);
      RenderRoundTrip(ds[1..], alphabet);
      assert [ds[0]] + ds[1..] == ds;
    }
  }

  /** Parsing a rendered numeral gives back the number. */
  lemma NumeralRoundTrip(n: nat, alphabet: string)
    requires IsAlphabet(alphabet)
    ensures ParseNumeral(Numeral(n, alphabet), alphabet) == Some(n)
  {
    RenderRoundTrip(Digits(n, |alphabet|), alphabet);
    DigitsValue(n, |alphabet|);
  }

  /** `String.format("%d", n)` with ASCII digits: no sign, no leading
      zeros. */
  function Decimal(n: nat): (s: string)
    ensures |s| > 0
    ensures forall i | 0 <= i < |s| :: s[i] in DecimalAlphabet
    ensures s[0] == '0' <==> n == 0
    ensures n == 0 ==> s == "0"
    ensures ParseNumeral(s, DecimalAlphabet) == Some(n)
  {
    StandardAlphabets();
    NoLeadingZeros(n, DecimalAlphabet);
    NumeralRoundTrip(n, DecimalAlphabet);
    Numeral(n, DecimalAlphabet)
  }

  /** `String.format("%x", n)`: lower-case hexadecimal digits, no `0x`
      prefix, no leading zeros. */
  function Hex(n: nat): (s: string)
    ensures |s| > 0
    ensures forall i | 0 <= i < |s| :: s[i] in HexAlphabet
    ensures s[0] == '0' <==> n == 0
    ensures n == 0 ==> s == "0"
    ensures ParseNumeral(s, HexAlphabet) == Some(n)
  {
    StandardAlphabets();
    NoLeadingZeros(n, HexAlphabet);
    NumeralRoundTrip(n, HexAlphabet);
    Numeral(n, HexAlphabet)
  }
}
