/** Python's `int(text)` and `float(text)` on decimal text, and decimal
    formatting of integers (`f'{n:d}'`).

    Numbers are exact: `float` yields the `real` the decimal text denotes,
    without rounding to a double. */
module PyNumbers {
  import opened Results
  import opened PyStrings

  predicate IsDigit(c: char) {
    '0' <= c <= '9'
  }

  predicate AllDigits(s: string) {
    forall i :: 0 <= i < |s| ==> IsDigit(s[i])
  }

  function DigitValue(c: char): nat
    requires IsDigit(c)
  {
    c as int - '0' as int
  }

  function DigitChar(d: nat): (c: char)
    requires d < 10
    ensures IsDigit(c) && DigitValue(c) == d
  {
    ('0' as int + d) as char
  }

  /** The number a run of decimal digits denotes, most significant digit
      first; leading zeros are allowed, as in `int('007')`. */
  function DigitsValue(s: string): nat
    requires AllDigits(s)
  {
    if |s| == 0 then 0 else 10 * DigitsValue(s[..|s| - 1]) + DigitValue(s[|s| - 1])
  }

  function Pow10(n: nat): (p: nat)
    ensures p >= 1
  {
    if n == 0 then 1 else 10 * Pow10(n - 1)
  }

  /** `x * 10 ** e` for an integer exponent of either sign. */
  function Scale(x: real, e: int): real
    decreases if e < 0 then -e else e
  {
    if e == 0 then x
    else if e > 0 then 10.0 * Scale(x, e - 1)
    else Scale(x, e + 1) / 10.0
  }

  /** `f'{n:d}'` for a non-negative `n`: its decimal digits, without leading
      zeros. */
  function NatToString(n: nat): (s: string)
    ensures |s| > 0 && AllDigits(s)
    ensures DigitsValue(s) == n
    ensures |s| > 1 ==> s[0] != '0'
  {
    if n < 10 then [DigitChar(n)]
    else
      var p := NatToString(n / 10);
      var s := p + [DigitChar(n % 10)];
      assert s[..|s| - 1] == p;
      s
  }

  /** `f'{i:d}'` */
  function IntToString(i: int): string {
    if i < 0 then "-" + NatToString(-i) else NatToString(i)
  }

  /** The text after a leading `+` or `-`, and whether that sign was `-`. */
  function SplitSign(t: string): (bool, string) {
    if |t| > 0 && (t[0] == '-' || t[0] == '+') then (t[0] == '-', t[1..]) else (false, t)
  }

  function Signed(negative: bool, x: real): real {
    if negative then -x else x
  }

  /** `int(s)`: surrounding whitespace, an optional sign, then one or more
      decimal digits. */
  function ParseInt(s: string): (r: Option<int>)
    ensures r.Some? ==> |Strip(s)| > 0
    ensures r.Some? && 0 <= r.value ==> Strip(s)[0] != '-' || r.value == 0
    ensures r.Some? && r.value < 0 ==> Strip(s)[0] == '-'
  {
    var (negative, body) := SplitSign(Strip(s));
    if |body| > 0 && AllDigits(body) then
      Some(if negative then -(DigitsValue(body) as int) else DigitsValue(body))
    else None
  }

  /** `float(s)`: surrounding whitespace, an optional sign, a mantissa of
      digits with at most one `.` and at least one digit, and an optional
      exponent `e`/`E`, optional sign, digits. */
  function ParseFloat(s: string): (r: Option<real>)
  {
    var (negative, body) := SplitSign(Strip(s));
    match ParseUnsignedFloat(body)
    case Some(x) => Some(Signed(negative, x))
    case None => None
  }

  /** A float literal without sign or surrounding whitespace. */
  function ParseUnsignedFloat(body: string): Option<real> {
    var e := ExponentStart(body);
    var exponent := if e < |body| then ParseExponent(body[e + 1..]) else Some(0);
    match (ParseMantissa(body[..e]), exponent)
    case (Some(m), Some(x)) => Some(Scale(m, x))
    case _ => None
  }

  /** Digits with at most one `.`, and at least one digit. */
  function ParseMantissa(mantissa: string): Option<real> {
    var dot := IndexOf(mantissa, '.');
    var whole := mantissa[..dot];
    var fraction := if dot < |mantissa| then mantissa[dot + 1..] else "";
    if AllDigits(whole) && AllDigits(fraction) && |whole| + |fraction| > 0 then
      Some(DecimalValue(whole, fraction))
    else None
  }

  /** The number `whole.fraction` denotes. */
  function DecimalValue(whole: string, fraction: string): real
    requires AllDigits(whole) && AllDigits(fraction)
  {
    (DigitsValue(whole) as real) + FractionValue(fraction)
  }

  /** The value of the digits after a decimal point: `0.d1d2...`. */
  function FractionValue(digits: string): (v: real)
    requires AllDigits(digits)
    ensures 0.0 <= v < 1.0
  {
    if |digits| == 0 then 0.0 else ((DigitValue(digits[0]) as real) + FractionValue(digits[1..])) / 10.0
  }

  /** Index of the first `e` or `E`, or `|s|`. */
  function ExponentStart(s: string): (k: nat)
    ensures k <= |s|
    ensures k < |s| ==> s[k] == 'e' || s[k] == 'E'
  {
    if |s| == 0 || s[0] == 'e' || s[0] == 'E' then 0 else 1 + ExponentStart(s[1..])
  }

  /** The exponent after `e`: an optional sign and one or more digits. */
  function ParseExponent(s: string): Option<int> {
    var (negative, digits) := SplitSign(s);
    if |digits| > 0 && AllDigits(digits) then
      Some(if negative then -(DigitsValue(digits) as int) else DigitsValue(digits))
    else None
  }

  // ---------------------------------------------------------------------
  // Lemmas

  lemma StripOfDigits(s: string)
    requires |s| > 0 && AllDigits(s)
    ensures Strip(s) == s
  {
    assert IsDigit(s[0]) && IsDigit(s[|s| - 1]);
    StripOfTrimmed(s);
  }

  /** A leading zero does not change the value of a digit run. */
  lemma {:induction false} LeadingZero(s: string)
    requires AllDigits(s)
    ensures AllDigits("0" + s) && DigitsValue("0" + s) == DigitsValue(s)
    decreases |s|
  {
    if |s| > 0 {
      assert ("0" + s)[..|s|] == "0" + s[..|s| - 1];
      LeadingZero(s[..|s| - 1]);
    }
  }

  /** `int(f'{i:d}') == i` */
  lemma ParseIntOfIntToString(i: int)
    ensures ParseInt(IntToString(i)) == Some(i)
  {
    var s := IntToString(i);
    if i < 0 {
      var d := NatToString(-i);
      assert s[1..] == d;
      assert IsDigit(d[|d| - 1]) && s[|s| - 1] == d[|d| - 1];
      StripOfTrimmed(s);
      assert SplitSign(s) == (true, d);
    } else {
      ParseIntOfDigits(s);
    }
  }

  /** `int` of a digit run is its value. */
  lemma ParseIntOfDigits(s: string)
    requires |s| > 0 && AllDigits(s)
    ensures ParseInt(s) == Some(DigitsValue(s) as int)
  {
    StripOfDigits(s);
    assert IsDigit(s[0]);
    var (negative, body) := SplitSign(Strip(s));
    assert !negative && body == s;
  }

  /** Text that neither starts nor ends with whitespace is its own `strip()`. */
  lemma StripOfTrimmed(s: string)
    requires |s| > 0 && !IsSpace(s[0]) && !IsSpace(s[|s| - 1])
    ensures Strip(s) == s
  {
  }

  /** Without an exponent marker the whole text is mantissa. */
  lemma {:induction false} ExponentStartOfPlain(s: string)
    requires forall i :: 0 <= i < |s| ==> s[i] != 'e' && s[i] != 'E'
    ensures ExponentStart(s) == |s|
    decreases |s|
  {
    if |s| > 0 {
      ExponentStartOfPlain(s[1..]);
    }
  }

  lemma ParseMantissaOfDecimal(whole: string, fraction: string)
    requires AllDigits(whole) && AllDigits(fraction) && |whole| + |fraction| > 0
    ensures ParseMantissa(whole + "." + fraction) == Some(DecimalValue(whole, fraction))
  {
    var s := whole + "." + fraction;
    assert s[|whole|] == '.';
    assert forall i :: 0 <= i < |whole| ==> s[i] == whole[i];
    IndexOfIs(s, '.', |whole|);
    assert s[..|whole|] == whole;
    assert s[|whole| + 1..] == fraction;
  }

  /** A decimal literal `W.F` has no whitespace, sign or exponent marker. */
  lemma DecimalChars(whole: string, fraction: string)
    requires AllDigits(whole) && AllDigits(fraction)
    ensures forall i :: 0 <= i < |whole + "." + fraction| ==> IsDigit((whole + "." + fraction)[i]) || (whole + "." + fraction)[i] == '.'
  {
    var s := whole + "." + fraction;
    forall i | 0 <= i < |s|
      ensures IsDigit(s[i]) || s[i] == '.'
    {
      if i < |whole| {
        assert s[i] == whole[i];
      } else if i > |whole| {
        assert s[i] == fraction[i - |whole| - 1];
      }
    }
  }

  /** `float('W.F')` for digit runs `W` and `F`, not both empty, is the
      decimal number they spell. */
  lemma ParseFloatOfDecimal(whole: string, fraction: string)
    requires AllDigits(whole) && AllDigits(fraction) && |whole| + |fraction| > 0
    ensures ParseFloat(whole + "." + fraction) == Some(DecimalValue(whole, fraction))
  {
    var s := whole + "." + fraction;
    DecimalChars(whole, fraction);
    assert !IsSpace(s[0]) && !IsSpace(s[|s| - 1]);
    StripOfTrimmed(s);
    assert s[0] != '-' && s[0] != '+';
    assert SplitSign(Strip(s)) == (false, s);
    ParseUnsignedFloatOfDecimal(whole, fraction);
  }

  lemma ParseUnsignedFloatOfDecimal(whole: string, fraction: string)
    requires AllDigits(whole) && AllDigits(fraction) && |whole| + |fraction| > 0
    ensures ParseUnsignedFloat(whole + "." + fraction) == Some(DecimalValue(whole, fraction))
  {
    var s := whole + "." + fraction;
    DecimalChars(whole, fraction);
    ExponentStartOfPlain(s);
    assert s[..|s|] == s;
    ParseMantissaOfDecimal(whole, fraction);
    assert Scale(DecimalValue(whole, fraction), 0) == DecimalValue(whole, fraction);
  }
}
