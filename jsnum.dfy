/**
 * The few JavaScript number operations the model needs, on reals standing in
 * for doubles.
 */
module JsNum {
  import opened JsText

  /** `Math.round`: the nearest integer, halves rounded up (towards +infinity). */
  function Round(x: real): (n: int)
    ensures n as real - 0.5 <= x < n as real + 0.5
  {
    (x + 0.5).Floor
  }

  /** Rounding never reverses the order of two numbers. */
  lemma RoundMonotone(x: real, y: real)
    requires x <= y
    ensures Round(x) <= Round(y)
  {
  }

  function Abs(n: int): nat {
    if n < 0 then -n else n
  }

  function AbsReal(x: real): real {
    if x < 0.0 then -x else x
  }

  function Max(a: int, b: int): int {
    if a < b then b else a
  }

  function Min(a: int, b: int): int {
    if a < b then a else b
  }

  // ------------------------------------------------------------ numbers

  /** A JavaScript number as the model sees it: NaN or a finite value. */
  datatype Num = NaN | Real(value: real)

  /** A number is truthy unless it is 0 or NaN. */
  predicate Truthy(n: Num) {
    n.Real? && n.value != 0.0
  }

  function Negate(n: Num): Num {
    if n.NaN? then NaN else Real(-n.value)
  }

  // ------------------------------------------------------- decimal digits

  predicate IsDigit(c: char) {
    '0' <= c <= '9'
  }

  predicate AllDigits(d: string) {
    forall k :: 0 <= k < |d| ==> IsDigit(d[k])
  }

  /** The longest prefix of `s` made of decimal digits. */
  function LeadingDigits(s: string): (d: string)
    ensures |d| <= |s| && d == s[..|d|]
    ensures AllDigits(d)
    ensures |d| == |s| || !IsDigit(s[|d|])
    decreases |s|
  {
    if |s| > 0 && IsDigit(s[0]) then [s[0]] + LeadingDigits(s[1..]) else []
  }

  function DigitValue(c: char): nat
    requires IsDigit(c)
  {
    c as int - '0' as int
  }

  function DigitChar(n: nat): (c: char)
    requires n < 10
    ensures IsDigit(c) && DigitValue(c) == n
  {
    ('0' as int + n) as char
  }

  /** The value of a string of decimal digits, most significant first. */
  function DigitsValue(d: string): nat
    requires AllDigits(d)
    decreases |d|
  {
    if d == [] then 0 else 10 * DigitsValue(d[..|d| - 1]) + DigitValue(d[|d| - 1])
  }

  function Pow10(n: nat): (p: nat)
    ensures p >= 1
  {
    if n == 0 then 1 else 10 * Pow10(n - 1)
  }

  /** `m` times ten to the power `e`. */
  function Scale(m: real, e: int): real {
    if e >= 0 then m * (Pow10(e) as real) else m / (Pow10(-e) as real)
  }

  /** The decimal form of `n`, without leading zeros: `String(n)` for a non-negative integer. */
  function NatToString(n: nat): (s: string)
    ensures s != [] && AllDigits(s)
    ensures DigitsValue(s) == n
  {
    if n < 10 then [DigitChar(n)]
    else
      var s := NatToString(n / 10) + [DigitChar(n % 10)];
      assert s[..|s| - 1] == NatToString(n / 10);
      s
  }

  /** `String(i)` for an integer: a minus sign for a negative one, then its decimal digits. */
  function IntToString(i: int): (s: string)
    ensures s != [] && forall k :: 0 <= k < |s| ==> IsDigit(s[k]) || (k == 0 && s[k] == '-')
  {
    if i < 0 then "-" + NatToString(-i) else NatToString(i)
  }

  /** `s.padStart(n, c)` */
  function PadStart(s: string, n: nat, c: char): (r: string)
    ensures |r| == if |s| < n then n else |s|
    ensures r[|r| - |s|..] == s
    ensures forall k :: 0 <= k < |r| - |s| ==> r[k] == c
  {
    if |s| < n then seq(n - |s|, _ => c) + s else s
  }

  /** `s.padEnd(n)` */
  function PadEnd(s: string, n: nat): (r: string)
    ensures |r| == if |s| < n then n else |s|
    ensures r[..|s|] == s
    ensures forall k :: |s| <= k < |r| ==> r[k] == ' '
  {
    if |s| < n then s + seq(n - |s|, _ => ' ') else s
  }

  /** The integer `x.toFixed(d)` shows: the magnitude scaled by ten to the `d`, rounded half up. */
  function FixedUnits(x: real, d: nat): nat {
    var n := Round(AbsReal(x) * (Pow10(d) as real));
    n
  }

  /**
   * `x.toFixed(d)` for `d >= 1` (below 10^21): a minus sign for a negative
   * `x`, then the whole part of the rounded magnitude, a point and exactly
   * `d` decimals.
   */
  function ToFixed(x: real, d: nat): string
    requires d >= 1
  {
    FixedText(x < 0.0, FixedUnits(x, d), d)
  }

  /** The text of `n` units of ten to the `-d`, with a minus sign in front when `negative`. */
  function FixedText(negative: bool, n: nat, d: nat): string
    requires d >= 1
  {
    (if negative then "-" else "") + WholeDigits(n, d) + "." + Decimals(n, d)
  }

  function WholeDigits(n: nat, d: nat): string {
    DivModFacts(n, Pow10(d));
    NatToString(n / Pow10(d))
  }

  function Decimals(n: nat, d: nat): string {
    DivModFacts(n, Pow10(d));
    PadStart(NatToString(n % Pow10(d)), d, '0')
  }

  /** A character of a number's text: a digit, the point or the minus sign. */
  predicate NumeralChar(c: char) {
    IsDigit(c) || c == '.' || c == '-'
  }

  lemma DivModFacts(n: nat, p: nat)
    requires p >= 1
    ensures 0 <= n / p && 0 <= n % p < p && (n / p) * p + n % p == n
  {
  }

  /** A number below ten to the `d` has at most `d` digits. */
  lemma {:induction false} NatToStringLength(m: nat, d: nat)
    requires d >= 1 && m < Pow10(d)
    ensures |NatToString(m)| <= d
    decreases m
  {
    if m >= 10 {
      assert d >= 2;
      assert m / 10 < Pow10(d - 1);
      NatToStringLength(m / 10, d - 1);
    }
  }

  /** Leading zeros do not change the value of a string of digits. */
  lemma {:induction false} ZerosInFront(z: nat, s: string)
    requires AllDigits(s)
    ensures AllDigits(seq(z, _ => '0') + s)
    ensures DigitsValue(seq(z, _ => '0') + s) == DigitsValue(s)
    decreases |s|
  {
    var t := seq(z, _ => '0') + s;
    if s == [] {
      ZerosValue(z);
      assert t == seq(z, _ => '0');
    } else {
      var init := s[..|s| - 1];
      ZerosInFront(z, init);
      assert t[..|t| - 1] == seq(z, _ => '0') + init;
    }
  }

  lemma {:induction false} ZerosValue(z: nat)
    ensures AllDigits(seq(z, _ => '0'))
    ensures DigitsValue(seq(z, _ => '0')) == 0
  {
    if z > 0 {
      ZerosValue(z - 1);
      assert seq(z, _ => '0')[..z - 1] == seq(z - 1, _ => '0');
    }
  }

  /**
   * `x.toFixed(d)` is the whole part, a point and exactly `d` decimals, all
   * digits; read as digits, whole part and decimals give back the rounded,
   * scaled magnitude, and the text holds nothing but numeral characters.
   */
  lemma ToFixedFacts(x: real, d: nat)
    requires d >= 1
    ensures ToFixed(x, d) == (if x < 0.0 then "-" else "") + WholeDigits(FixedUnits(x, d), d) + "." + Decimals(FixedUnits(x, d), d)
    ensures |Decimals(FixedUnits(x, d), d)| == d
    ensures AllDigits(WholeDigits(FixedUnits(x, d), d)) && AllDigits(Decimals(FixedUnits(x, d), d))
    ensures DigitsValue(WholeDigits(FixedUnits(x, d), d)) * Pow10(d) + DigitsValue(Decimals(FixedUnits(x, d), d)) == FixedUnits(x, d)
    ensures Numeral(ToFixed(x, d))
  {
    ToFixedDigits(x, d);
    FixedTextFacts(x < 0.0, FixedUnits(x, d), d);
  }

  /** The whole part and the decimals of `toFixed` are digits that read back as the rounded, scaled magnitude. */
  lemma ToFixedDigits(x: real, d: nat)
    requires d >= 1
    ensures |Decimals(FixedUnits(x, d), d)| == d
    ensures AllDigits(WholeDigits(FixedUnits(x, d), d)) && AllDigits(Decimals(FixedUnits(x, d), d))
    ensures DigitsValue(WholeDigits(FixedUnits(x, d), d)) * Pow10(d) + DigitsValue(Decimals(FixedUnits(x, d), d)) == FixedUnits(x, d)
  {
    FixedParts(FixedUnits(x, d), d);
  }

  /** The texts of integers and of `toFixed` hold only numeral characters. */
  lemma NumeralTexts(x: real, d: nat, i: int)
    requires d >= 1
    ensures Numeral(ToFixed(x, d)) && Numeral(IntToString(i))
  {
    FixedTextFacts(x < 0.0, FixedUnits(x, d), d);
  }

  /** The text of a fixed-point number holds only numeral characters. */
  lemma FixedTextFacts(negative: bool, n: nat, d: nat)
    requires d >= 1
    ensures Numeral(FixedText(negative, n, d))
  {
    var w, f := WholeDigits(n, d), Decimals(n, d);
    assert AllDigits(w) && AllDigits(f) by {
      FixedParts(n, d);
    }
    NumeralJoin(if negative then "-" else "", w, f);
  }

  /** The whole part reads as the quotient by ten to the `d`, the decimals as the remainder. */
  lemma FixedParts(n: nat, d: nat)
    requires d >= 1
    ensures |Decimals(n, d)| == d
    ensures AllDigits(WholeDigits(n, d)) && AllDigits(Decimals(n, d))
    ensures DigitsValue(WholeDigits(n, d)) * Pow10(d) + DigitsValue(Decimals(n, d)) == n
  {
    var p := Pow10(d);
    DivModFacts(n, p);
    var q, r := n / p, n % p;
    PaddedDecimals(r, d);
    assert DigitsValue(WholeDigits(n, d)) == q;
    assert DigitsValue(Decimals(n, d)) == r;
  }

  predicate Numeral(s: string) {
    forall k :: 0 <= k < |s| ==> NumeralChar(s[k])
  }

  lemma NumeralJoin(sign: string, w: string, f: string)
    requires Numeral(sign) && AllDigits(w) && AllDigits(f)
    ensures Numeral(sign + w + "." + f)
  {
    var s := sign + w + "." + f;
    forall k | 0 <= k < |s|
      ensures NumeralChar(s[k])
    {
      if k < |sign| {
        assert s[k] == sign[k];
      } else if k < |sign| + |w| {
        assert s[k] == w[k - |sign|];
      } else if k > |sign| + |w| {
        assert s[k] == f[k - |sign| - |w| - 1];
      }
    }
  }

  /** The decimals, padded with zeros in front to `d` digits, keep their value. */
  lemma PaddedDecimals(r: nat, d: nat)
    requires d >= 1 && r < Pow10(d)
    ensures var f := PadStart(NatToString(r), d, '0');
      |f| == d && AllDigits(f) && DigitsValue(f) == r
  {
    var digits := NatToString(r);
    NatToStringLength(r, d);
    var frac := PadStart(digits, d, '0');
    assert frac == seq(d - |digits|, _ => '0') + digits;
    ZerosInFront(d - |digits|, digits);
  }

  // ------------------------------------------------------------ parseFloat

  /** The exponent part at the start of `s`, or 0 when `s` has none: `e` or `E`, an optional sign, digits. */
  function Exponent(s: string): int {
    if |s| >= 2 && (s[0] == 'e' || s[0] == 'E') then
      var signed := s[1] == '+' || s[1] == '-';
      var digits := LeadingDigits(if signed then s[2..] else s[1..]);
      if digits == [] then 0
      else if s[1] == '-' then -(DigitsValue(digits) as int)
      else DigitsValue(digits)
    else 0
  }

  /** The part of `s` after its leading digits. */
  function AfterInt(s: string): string {
    s[|LeadingDigits(s)|..]
  }

  /** The digits after a decimal point that follows the leading digits, if there is such a point. */
  function FracPart(s: string): (f: string)
    ensures AllDigits(f)
  {
    var a := AfterInt(s);
    if |a| > 0 && a[0] == '.' then LeadingDigits(a[1..]) else []
  }

  /** What follows the digits and the fraction. */
  function AfterFrac(s: string): string {
    var a := AfterInt(s);
    if |a| > 0 && a[0] == '.' then a[1 + |FracPart(s)|..] else a
  }

  /** The value of the digits `i` before and `f` after the point. */
  function Mantissa(i: string, f: string): real
    requires AllDigits(i) && AllDigits(f)
  {
    (DigitsValue(i + f) as real) / (Pow10(|f|) as real)
  }

  /**
   * The unsigned decimal literal at the start of `s`: digits, optionally a
   * point and more digits (at least one digit in all), then optionally an
   * exponent. Anything after it is ignored; without a digit the result is NaN.
   */
  function ParseUnsigned(s: string): Num {
    if LeadingDigits(s) == [] && FracPart(s) == [] then NaN
    else Real(LiteralValue(s))
  }

  /** The value of the literal at the start of `s`. */
  function LiteralValue(s: string): real {
    Scale(Mantissa(LeadingDigits(s), FracPart(s)), Exponent(AfterFrac(s)))
  }

  /** `parseFloat`: leading white space skipped, an optional sign, then the longest decimal literal. */
  function ParseFloat(s: string): Num {
    var t := TrimStart(s);
    if |t| > 0 && t[0] == '-' then Negate(ParseUnsigned(t[1..]))
    else if |t| > 0 && t[0] == '+' then ParseUnsigned(t[1..])
    else ParseUnsigned(t)
  }

  /** A character that can continue a decimal literal after its digits. */
  predicate ContinuesLiteral(c: char) {
    IsDigit(c) || c == '.' || c == 'e' || c == 'E'
  }

  lemma {:induction false} LeadingDigitsOfDigits(d: string, rest: string)
    requires AllDigits(d)
    requires rest == [] || !IsDigit(rest[0])
    ensures LeadingDigits(d + rest) == d
    decreases |d|
  {
    if d != [] {
      assert (d + rest)[0] == d[0] && (d + rest)[1..] == d[1..] + rest;
      LeadingDigitsOfDigits(d[1..], rest);
      assert [d[0]] + d[1..] == d;
    } else {
      assert d + rest == rest;
    }
  }

  /**
   * `parseFloat` reads back the decimal form of a natural number, whatever
   * follows it, as long as that cannot continue the literal.
   */
  lemma ParseFloatOfNat(n: nat, rest: string)
    requires rest == [] || !ContinuesLiteral(rest[0])
    ensures ParseFloat(NatToString(n) + rest) == Real(n as real)
  {
    var d := NatToString(n);
    assert (d + rest)[0] == d[0];
    ParseFloatOfDigit(d + rest);
    ParseUnsignedOfDigits(d, rest);
  }

  /** A text that starts with a digit is read as an unsigned literal. */
  lemma ParseFloatOfDigit(s: string)
    requires s != [] && IsDigit(s[0])
    ensures ParseFloat(s) == ParseUnsigned(s)
  {
    assert !IsSpace(s[0]);
    var t := TrimStart(s);
    assert t == s;
    assert t[0] != '-' && t[0] != '+';
  }

  lemma MantissaOfInteger(i: string)
    requires AllDigits(i)
    ensures Mantissa(i, []) == DigitsValue(i) as real
  {
    assert i + [] == i;
    var denominator := Pow10(0) as real;
    assert denominator == 1.0;
    var v := DigitsValue(i) as real;
    assert v / 1.0 == v;
  }

  lemma ParseUnsignedOfDigits(d: string, rest: string)
    requires d != [] && AllDigits(d)
    requires rest == [] || !ContinuesLiteral(rest[0])
    ensures ParseUnsigned(d + rest) == Real(DigitsValue(d) as real)
  {
    var s := d + rest;
    LeadingDigitsOfDigits(d, rest);
    assert AfterInt(s) == rest;
    assert FracPart(s) == [] && AfterFrac(s) == rest;
    assert d + [] == d;
    MantissaOfInteger(d);
    assert Exponent(rest) == 0;
    assert LiteralValue(s) == Scale(Mantissa(d, []), 0);
    ScaleByOne(Mantissa(d, []));
  }

  lemma ScaleByOne(m: real)
    ensures Scale(m, 0) == m
  {
    assert Pow10(0) as real == 1.0;
  }

  /** Without a digit where the literal must start, `parseFloat` gives NaN. */
  lemma ParseFloatNeedsDigit(s: string)
    requires s == [] || (!IsDigit(s[0]) && s[0] != '.' && s[0] != '+' && s[0] != '-' && !IsSpace(s[0]))
    ensures ParseFloat(s) == NaN
  {
    assert TrimStart(s) == s;
    assert LeadingDigits(s) == [];
    assert AfterInt(s) == s;
    assert FracPart(s) == [];
  }

  /** A minus sign in front negates the value of the literal after it. */
  lemma ParseFloatMinus(s: string)
    requires s == [] || (!IsSpace(s[0]) && s[0] != '+' && s[0] != '-')
    ensures ParseFloat(['-'] + s) == Negate(ParseFloat(s))
  {
    assert (['-'] + s)[1..] == s;
  }
}
