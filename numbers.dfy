/**
 * Conversion of a table token to a number (`float(x)` in `static_eval`),
 * over exact reals, for the plain decimal forms the engine prints:
 * an optional sign, digits, and an optional fraction after a point.
 */
module Numbers {
  import opened Wrappers
  import opened PyStr

  function Pow10(k: nat): (r: nat)
    ensures r >= 1
  {
    if k == 0 then 1 else 10 * Pow10(k - 1)
  }

  /** The value of the digits after a decimal point. */
  function FractionValue(frac: string): real
    requires AllDigits(frac)
  {
    DigitsValue(frac) as real / Pow10(|frac|) as real
  }

  /** An unsigned decimal: `ddd`, `ddd.ddd`, `ddd.` or `.ddd`, with at least one digit. */
  function ParseUnsigned(s: string): Option<real>
  {
    var parts := Split(s, '.');
    if |parts| == 1 then
      if parts[0] != [] && AllDigits(parts[0]) then Some(DigitsValue(parts[0]) as real) else None
    else if |parts| == 2 then
      var whole, frac := parts[0], parts[1];
      if (whole != [] || frac != []) && AllDigits(whole) && AllDigits(frac)
      then Some(DigitsValue(whole) as real + FractionValue(frac))
      else None
    else None
  }

  /** `float(tok)` on a signed decimal; `None` where Python raises ValueError. */
  function ParseNum(tok: string): Option<real>
  {
    if tok != [] && (tok[0] == '-' || tok[0] == '+') then
      match ParseUnsigned(tok[1..])
      case None => None
      case Some(v) => Some(if tok[0] == '-' then -v else v)
    else ParseUnsigned(tok)
  }

  function DigitChar(d: nat): char
    requires d < 10
  {
    '0' + d as char
  }

  /** The engine's two-decimal rendering of `c` hundredths (`1.07`, `-0.36`). */
  function FormatHundredths(c: int): string
  {
    var a := if c < 0 then -c else c;
    var body := NatToString(a / 100) + ['.', DigitChar(a % 100 / 10), DigitChar(a % 10)];
    if c < 0 then ['-'] + body else body
  }

  /** The two fraction digits of `a` hundredths read back as `a % 100`. */
  lemma FractionDigitsValue(a: nat)
    ensures DigitsValue([DigitChar(a % 100 / 10), DigitChar(a % 10)]) == a % 100
  {
    var frac := [DigitChar(a % 100 / 10), DigitChar(a % 10)];
    assert frac[..1] == [DigitChar(a % 100 / 10)];
    assert [DigitChar(a % 100 / 10)][..0] == [];
    assert DigitsValue(frac[..1]) == a % 100 / 10;
  }

  /** `a / 100` is its whole part plus its hundredths. */
  lemma HundredthsSplit(a: nat)
    ensures (a / 100) as real + (a % 100) as real / 100.0 == a as real / 100.0
  {
    assert a == 100 * (a / 100) + a % 100;
    assert a as real == 100.0 * (a / 100) as real + (a % 100) as real;
  }

  lemma DigitsHaveNoPoint(s: string)
    requires AllDigits(s)
    ensures '.' !in s
  {
    forall i | 0 <= i < |s| ensures s[i] != '.' {
      assert IsDigit(s[i]);
    }
  }

  /** A point between two digit runs, the first non-empty, reads as whole plus fraction. */
  lemma ParseUnsignedPoint(whole: string, frac: string)
    requires whole != [] && AllDigits(whole) && AllDigits(frac)
    ensures ParseUnsigned(whole + ['.'] + frac) == Some(DigitsValue(whole) as real + FractionValue(frac))
  {
    DigitsHaveNoPoint(whole);
    DigitsHaveNoPoint(frac);
    SplitFirstPiece(whole, '.', frac);
    SplitNoSeparator(frac, '.');
    ParseUnsignedTwoParts(whole + ['.'] + frac, whole, frac);
  }

  lemma ParseUnsignedTwoParts(s: string, whole: string, frac: string)
    requires Split(s, '.') == [whole, frac]
    requires whole != [] && AllDigits(whole) && AllDigits(frac)
    ensures ParseUnsigned(s) == Some(DigitsValue(whole) as real + FractionValue(frac))
  {
    var parts := Split(s, '.');
    assert |parts| == 2 && parts[0] == whole && parts[1] == frac;
  }

  /** The unsigned rendering of `a` hundredths converts back to `a / 100`. */
  lemma ParseUnsignedHundredths(a: nat)
    ensures ParseUnsigned(NatToString(a / 100) + ['.', DigitChar(a % 100 / 10), DigitChar(a % 10)]) == Some(a as real / 100.0)
  {
    var whole := NatToString(a / 100);
    var frac := [DigitChar(a % 100 / 10), DigitChar(a % 10)];
    assert whole + ['.'] + frac == NatToString(a / 100) + ['.', DigitChar(a % 100 / 10), DigitChar(a % 10)];
    assert AllDigits(frac);
    calc {
      ParseUnsigned(whole + ['.'] + frac);
      { ParseUnsignedPoint(whole, frac); }
      Some(DigitsValue(whole) as real + FractionValue(frac));
      { DigitsValueOfNatToString(a / 100); FractionDigitsValue(a); assert Pow10(|frac|) == 100; }
      Some((a / 100) as real + (a % 100) as real / 100.0);
      { HundredthsSplit(a); }
      Some(a as real / 100.0);
    }
  }

  /** Every two-decimal token the engine prints converts back to its exact value. */
  lemma ParseFormatHundredths(c: int)
    ensures ParseNum(FormatHundredths(c)) == Some(c as real / 100.0)
  {
    var a := if c < 0 then -c else c;
    var body := NatToString(a / 100) + ['.', DigitChar(a % 100 / 10), DigitChar(a % 10)];
    ParseUnsignedHundredths(a);
    assert IsDigit(body[0]);
    if c < 0 {
      assert (['-'] + body)[1..] == body;
      assert ParseNum(['-'] + body) == Some(-(a as real / 100.0));
      assert a as real == -(c as real);
    } else {
      assert ParseNum(body) == Some(a as real / 100.0);
    }
  }
}
