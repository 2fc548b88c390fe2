/** The .NET number parsing and printing the tool relies on: int.TryParse and
    long.TryParse with NumberStyles.Integer, decimal.TryParse with NumberStyles.Any
    in the invariant culture (a restricted grammar, see Decimal), and ToString of
    the parsed values. Signs are "+" and "-" and the group and decimal separators
    are "," and "." as in the invariant culture. */
module Numbers {
  import opened Strings

  const INT32_MIN: int := -0x8000_0000
  const INT32_MAX: int := 0x7FFF_FFFF
  const INT64_MIN: int := -0x8000_0000_0000_0000
  const INT64_MAX: int := 0x7FFF_FFFF_FFFF_FFFF

  predicate IsDigit(c: char) {
    '0' <= c <= '9'
  }

  predicate AllDigits(s: string) {
    forall i :: 0 <= i < |s| ==> IsDigit(s[i])
  }

  function DigitValue(c: char): (d: nat)
    requires IsDigit(c)
    ensures d < 10
  {
    c as int - '0' as int
  }

  function DigitChar(d: nat): (c: char)
    requires d < 10
    ensures IsDigit(c) && DigitValue(c) == d
  {
    ('0' as int + d) as char
  }

  /** The value of a string of decimal digits, most significant first. */
  function DigitsValue(s: string): nat
    requires AllDigits(s)
  {
    if |s| == 0 then 0 else DigitsValue(s[..|s| - 1]) * 10 + DigitValue(s[|s| - 1])
  }

  /** The decimal text of a natural number, without leading zeros. */
  function NatToString(n: nat): (s: string)
    ensures |s| >= 1 && AllDigits(s)
    ensures DigitsValue(s) == n
    ensures |s| > 1 ==> s[0] != '0'
  {
    if n < 10 then [DigitChar(n)]
    else
      var s := NatToString(n / 10) + [DigitChar(n % 10)];
      assert s[..|s| - 1] == NatToString(n / 10);
      s
  }

  /** int.ToString() and long.ToString(): a minus sign for negative values. */
  function IntToString(i: int): string {
    if i < 0 then "-" + NatToString(-i) else NatToString(i)
  }

  /** The white space that .NET number parsing skips: tab to carriage return and space. */
  predicate IsNumberWhite(c: char) {
    c == ' ' || '\t' <= c <= '\r'
  }

  function TrimNumberWhiteStart(s: string): (r: string)
    ensures |r| <= |s|
    ensures r == [] || !IsNumberWhite(r[0])
  {
    if |s| > 0 && IsNumberWhite(s[0]) then TrimNumberWhiteStart(s[1..]) else s
  }

  function TrimNumberWhiteEnd(s: string): (r: string)
    ensures |r| <= |s|
    ensures r == [] || !IsNumberWhite(r[|r| - 1])
  {
    if |s| > 0 && IsNumberWhite(s[|s| - 1]) then TrimNumberWhiteEnd(s[..|s| - 1]) else s
  }

  function TrimNumberWhite(s: string): string {
    TrimNumberWhiteEnd(TrimNumberWhiteStart(s))
  }

  /** NumberStyles.Integer: optional white space, an optional sign, one or more
      digits, optional white space. The value is unbounded here; the callers
      below apply the range of the .NET type. */
  function ParseInteger(s: string): Option<int> {
    var t := TrimNumberWhite(s);
    if |t| >= 2 && (t[0] == '-' || t[0] == '+') && AllDigits(t[1..]) then
      var magnitude: int := DigitsValue(t[1..]);
      Some(if t[0] == '-' then -magnitude else magnitude)
    else if |t| >= 1 && AllDigits(t) then
      Some(DigitsValue(t))
    else
      None
  }

  /** int.TryParse(s, out _): the value when the text is an integer in the 32-bit range. */
  function TryParseInt32(s: string): (r: Option<int>)
    ensures r.Some? ==> INT32_MIN <= r.value <= INT32_MAX
    ensures r.Some? <==> ParseInteger(s).Some? && INT32_MIN <= ParseInteger(s).value <= INT32_MAX
  {
    match ParseInteger(s)
    case Some(v) => if INT32_MIN <= v <= INT32_MAX then Some(v) else None
    case None => None
  }

  /** long.TryParse(s, out _): the value when the text is an integer in the 64-bit range. */
  function TryParseInt64(s: string): (r: Option<int>)
    ensures r.Some? ==> INT64_MIN <= r.value <= INT64_MAX
    ensures r.Some? <==> ParseInteger(s).Some? && INT64_MIN <= ParseInteger(s).value <= INT64_MAX
  {
    match ParseInteger(s)
    case Some(v) => if INT64_MIN <= v <= INT64_MAX then Some(v) else None
    case None => None
  }

  /** Every text that int.TryParse accepts, long.TryParse accepts with the same value. */
  lemma Int32IsInt64(s: string)
    requires TryParseInt32(s).Some?
    ensures TryParseInt64(s) == TryParseInt32(s)
  {
  }

  lemma TrimNumberWhiteOfDigits(s: string)
    requires |s| >= 1 && (IsDigit(s[0]) || s[0] == '-') && IsDigit(s[|s| - 1])
    ensures TrimNumberWhite(s) == s
  {
  }

  /** Printing an integer and parsing the text back gives the integer. */
  lemma IntToStringRoundTrip(i: int)
    ensures ParseInteger(IntToString(i)) == Some(i)
  {
    var s := IntToString(i);
    var n := NatToString(if i < 0 then -i else i);
    assert s[|s| - 1] == n[|n| - 1];
    TrimNumberWhiteOfDigits(s);
    if i < 0 {
      assert s[1..] == n;
    }
  }

  /** A decimal as the parser reads it: the sign, the digits before the decimal
      point (group separators removed) and the digits after it, as written. The
      .NET decimal keeps the scale, so trailing zeros of the fraction are kept. */
  datatype Decimal = Decimal(negative: bool, intDigits: string, fracDigits: string)

  predicate ValidDecimal(d: Decimal) {
    AllDigits(d.intDigits) && AllDigits(d.fracDigits) && |d.intDigits| + |d.fracDigits| >= 1
  }

  /** The integer part as NumberStyles.AllowThousands reads it: digits, with
      group separators allowed after the first digit. */
  predicate IsIntegerPart(s: string) {
    s == "" || (IsDigit(s[0]) && forall i :: 0 <= i < |s| ==> IsDigit(s[i]) || s[i] == ',')
  }

  /** The position of the first '.' of a text, or its length when there is none. */
  function FirstDot(s: string): (k: nat)
    ensures k <= |s| && '.' !in s[..k]
    ensures k < |s| ==> s[k] == '.'
  {
    if |s| == 0 || s[0] == '.' then 0
    else
      var k := 1 + FirstDot(s[1..]);
      assert s[..k] == [s[0]] + s[1..][..k - 1];
      k
  }

  /** decimal.TryParse(s, NumberStyles.Any, CultureInfo.InvariantCulture, out _),
      restricted to: optional white space, an optional leading sign, an integer part
      with group separators, an optional '.' and fraction digits, optional white
      space, and at least one digit in all. */
  function ParseDecimal(s: string): (r: Option<Decimal>)
    ensures r.Some? ==> ValidDecimal(r.value)
  {
    var t := TrimNumberWhite(s);
    var negative := |t| >= 1 && t[0] == '-';
    var u := if |t| >= 1 && (t[0] == '-' || t[0] == '+') then t[1..] else t;
    var k := FirstDot(u);
    var intPart := u[..k];
    var fracPart := if k < |u| then u[k + 1..] else "";
    var intDigits := RemoveAll(intPart, {','});
    if IsIntegerPart(intPart) && AllDigits(fracPart) && |intDigits| + |fracPart| >= 1 then
      assert AllDigits(intDigits) by { RemoveGroupSeparators(intPart); }
      Some(Decimal(negative, intDigits, fracPart))
    else
      None
  }

  lemma {:induction false} RemoveGroupSeparators(s: string)
    requires forall i :: 0 <= i < |s| ==> IsDigit(s[i]) || s[i] == ','
    ensures AllDigits(RemoveAll(s, {','}))
  {
    if |s| > 0 {
      RemoveGroupSeparators(s[1..]);
    }
  }

  /** Digits without their leading zeros; "0" when nothing else is left. */
  function StripLeadingZeros(s: string): (r: string)
    requires AllDigits(s)
    ensures AllDigits(r) && |r| >= 1 && |r| <= |s| + 1
    ensures |r| > 1 ==> r[0] != '0'
  {
    if |s| == 0 then "0"
    else if s[0] == '0' && |s| > 1 then StripLeadingZeros(s[1..])
    else s
  }

  predicate IsZero(d: Decimal) {
    forall c | c in d.intDigits + d.fracDigits :: c == '0'
  }

  /** decimal.ToString(CultureInfo.InvariantCulture): no group separators, '.' as the
      decimal point, the fraction digits as parsed, and no sign on zero. */
  function FormatDecimal(d: Decimal): (s: string)
    requires ValidDecimal(d)
  {
    (if d.negative && !IsZero(d) then "-" else "")
    + StripLeadingZeros(d.intDigits)
    + (if d.fracDigits == "" then "" else "." + d.fracDigits)
  }

  /** A plain numeric literal: an optional minus sign, digits, and at most one '.'
      followed by digits. It holds no quote, comma or white space. */
  predicate IsNumericLiteral(s: string) {
    var u := if |s| >= 1 && s[0] == '-' then s[1..] else s;
    var k := FirstDot(u);
    |u| >= 1 && AllDigits(u[..k]) && k >= 1 && (k == |u| || (k + 1 < |u| && AllDigits(u[k + 1..])))
  }

  /** Printed decimals are plain numeric literals. */
  lemma FormatDecimalIsLiteral(d: Decimal)
    requires ValidDecimal(d)
    ensures IsNumericLiteral(FormatDecimal(d))
  {
    SignedLiteral(if d.negative && !IsZero(d) then "-" else "", StripLeadingZeros(d.intDigits), d.fracDigits);
  }

  /** Digits, optionally followed by a '.' and more digits, make a numeric literal
      with or without a leading minus sign. */
  lemma SignedLiteral(sign: string, whole: string, frac: string)
    requires sign == "" || sign == "-"
    requires |whole| >= 1 && AllDigits(whole) && AllDigits(frac)
    ensures IsNumericLiteral(sign + whole + (if frac == "" then "" else "." + frac))
  {
    var rest := if frac == "" then "" else "." + frac;
    var u := whole + rest;
    FirstDotAfterDigits(whole, rest);
    assert u[..|whole|] == whole;
    if frac != "" {
      assert u[|whole| + 1..] == frac;
    }
    var s := sign + whole + rest;
    if sign == "-" {
      assert s[1..] == u;
    } else {
      assert s == u;
    }
  }

  lemma {:induction false} FirstDotAfterDigits(digits: string, rest: string)
    requires AllDigits(digits)
    requires rest == [] || rest[0] == '.'
    ensures FirstDot(digits + rest) == |digits|
  {
    if |digits| > 0 {
      assert (digits + rest)[1..] == digits[1..] + rest;
      FirstDotAfterDigits(digits[1..], rest);
    }
  }

  /** Printed integers are plain numeric literals. */
  lemma IntToStringIsLiteral(i: int)
    ensures IsNumericLiteral(IntToString(i))
  {
    var s := IntToString(i);
    var n := NatToString(if i < 0 then -i else i);
    var u := if |s| >= 1 && s[0] == '-' then s[1..] else s;
    assert u == n;
    FirstDotAfterDigits(n, "");
    assert n + "" == n;
  }

  function Pow10(k: nat): (p: nat)
    ensures p >= 1
  {
    if k == 0 then 1 else 10 * Pow10(k - 1)
  }

  /** A number below 10^width is printed with at most `width` digits. */
  lemma {:induction false} NatToStringShort(n: nat, width: nat)
    requires width >= 1 && n < Pow10(width)
    ensures |NatToString(n)| <= width
  {
    if n >= 10 {
      assert Pow10(1) == 10;
      NatToStringShort(n / 10, width - 1);
    }
  }

  /** Every text int.TryParse or long.TryParse accepts, decimal.TryParse accepts too. */
  lemma IntegerIsDecimal(s: string)
    requires ParseInteger(s).Some?
    ensures ParseDecimal(s).Some?
  {
    var t := TrimNumberWhite(s);
    var u := if |t| >= 1 && (t[0] == '-' || t[0] == '+') then t[1..] else t;
    assert AllDigits(u) && |u| >= 1;
    DigitsAsIntegerPart(u);
  }

  /** A run of digits has no '.', and is an integer part without group separators. */
  lemma DigitsAsIntegerPart(u: string)
    requires AllDigits(u) && |u| >= 1
    ensures FirstDot(u) == |u| && u[..FirstDot(u)] == u
    ensures IsIntegerPart(u) && RemoveAll(u, {','}) == u
  {
    FirstDotAfterDigits(u, "");
    assert u + "" == u;
    DigitsWithoutSeparators(u);
  }

  lemma {:induction false} DigitsWithoutSeparators(s: string)
    requires AllDigits(s)
    ensures RemoveAll(s, {','}) == s
  {
    if |s| > 0 {
      DigitsWithoutSeparators(s[1..]);
      assert s == [s[0]] + s[1..];
    }
  }

  lemma PointDecimalPieces(a: string, b: string)
    requires |a| >= 1 && AllDigits(a) && AllDigits(b)
    ensures var s := a + "." + b;
      && TrimNumberWhite(s) == s && FirstDot(s) == |a| && |a| < |s|
      && s[..|a|] == a && s[|a| + 1..] == b
      && RemoveAll(a, {','}) == a && IsIntegerPart(a)
  {
    var s := a + "." + b;
    assert TrimNumberWhite(s) == s by {
      assert IsDigit(s[0]);
      assert s[|s| - 1] == if |b| > 0 then b[|b| - 1] else '.';
      assert TrimNumberWhiteStart(s) == s;
    }
    assert FirstDot(s) == |a| by {
      FirstDotAfterDigits(a, "." + b);
      assert s == a + ("." + b);
    }
    assert s[..|a|] == a && s[|a| + 1..] == b;
    DigitsWithoutSeparators(a);
  }

  /** Digits, a point and digits parse as that decimal, the fraction kept as written. */
  lemma ParsePointDecimal(a: string, b: string)
    requires |a| >= 1 && AllDigits(a) && AllDigits(b)
    ensures ParseDecimal(a + "." + b) == Some(Decimal(false, a, b))
  {
    PointDecimalPieces(a, b);
  }

  /** Digits alone parse as a decimal without fraction. */
  lemma ParseDigitsDecimal(a: string)
    requires |a| >= 1 && AllDigits(a)
    ensures ParseDecimal(a) == Some(Decimal(false, a, ""))
  {
    TrimNumberWhiteOfDigits(a);
    FirstDotAfterDigits(a, "");
    assert a + "" == a;
    assert a[..|a|] == a;
    DigitsWithoutSeparators(a);
  }

  /** Concatenated digit strings are digit strings. */
  lemma AllDigitsAppend(a: string, b: string)
    requires AllDigits(a) && AllDigits(b)
    ensures AllDigits(a + b)
  {
  }

  /** A positive decimal without fraction prints as its digits without leading zeros. */
  lemma FormatWholeDecimal(s: string)
    requires |s| >= 1 && AllDigits(s)
    ensures FormatDecimal(Decimal(false, s, "")) == StripLeadingZeros(s)
  {
  }
}
