/** JavaScript's conversions between numbers and text, over exact reals:
    `Number(text)`, `String(number)` and `number.toFixed(places)`. */
module Numbers {
  import opened Wrappers
  import opened Text

  predicate IsDigit(c: char) {
    '0' <= c <= '9'
  }

  predicate AllDigits(s: string) {
    forall i :: 0 <= i < |s| ==> IsDigit(s[i])
  }

  /** The characters a printed number can contain. */
  predicate IsNumberChar(c: char) {
    IsDigit(c) || c == '-' || c == '.'
  }

  function DigitValue(c: char): (d: nat)
    requires IsDigit(c)
    ensures d < 10
  {
    c as int - '0' as int
  }

  function DigitChar(d: nat): (c: char)
    requires d < 10
    ensures IsDigit(c) && DigitValue(c) == d
  {
    (d + '0' as int) as char
  }

  /** `r * 10^n`. */
  function Shift(r: real, n: nat): real {
    if n == 0 then r else 10.0 * Shift(r, n - 1)
  }

  /** `r / 10^n`. */
  function Unshift(r: real, n: nat): real {
    if n == 0 then r else Unshift(r, n - 1) / 10.0
  }

  /** `x` is a whole number. */
  predicate IsIntegral(x: real) {
    x.Floor as real == x
  }

  // ---------------------------------------------------------------------
  // Printing
  // ---------------------------------------------------------------------

  /** Value of a string of decimal digits, most significant digit first. */
  function NatValue(s: string): nat
    requires AllDigits(s)
  {
    if s == [] then 0 else 10 * NatValue(s[..|s| - 1]) + DigitValue(s[|s| - 1])
  }

  /** Decimal digits of `n`, without leading zeros. */
  function NatToString(n: nat): (s: string)
    ensures |s| >= 1 && AllDigits(s)
  {
    if n < 10 then [DigitChar(n)] else NatToString(n / 10) + [DigitChar(n % 10)]
  }

  /** Value of the digits after a decimal point. */
  function FracValue(s: string): real
    requires AllDigits(s)
  {
    if s == [] then 0.0 else (DigitValue(s[0]) as real + FracValue(s[1..])) / 10.0
  }

  /** How many fraction digits the printer writes at most. */
  const FractionDigits: nat := 20

  /** The decimal expansion of a fraction `0 <= f < 1`, stopping as soon as
      nothing is left or `budget` digits have been written. */
  function FracDigits(f: real, budget: nat): (s: string)
    requires 0.0 <= f < 1.0
    ensures AllDigits(s) && |s| <= budget
    ensures f != 0.0 && budget > 0 ==> |s| >= 1
    decreases budget
  {
    if f == 0.0 || budget == 0 then ""
    else
      var d := (f * 10.0).Floor;
      [DigitChar(d)] + FracDigits(f * 10.0 - d as real, budget - 1)
  }

  /** A non-negative number as text: whole part, then `.` and at most
      `budget` fraction digits when there is a fraction. */
  function UnsignedText(r: real, budget: nat): (s: string)
    requires r >= 0.0 && budget > 0
    ensures |s| >= 1 && IsDigit(s[0]) && IsDigit(s[|s| - 1])
    ensures forall i :: 0 <= i < |s| ==> IsDigit(s[i]) || s[i] == '.'
  {
    var n := r.Floor;
    var f := r - n as real;
    NatToString(n) + (if f == 0.0 then "" else "." + FracDigits(f, budget))
  }

  /** `String(r)` (also what a template literal and `join` print): a minus
      sign for negative values, no exponent notation. */
  function NumToString(r: real): (s: string)
    ensures |s| >= 1 && (IsDigit(s[0]) || s[0] == '-') && IsDigit(s[|s| - 1])
    ensures forall i :: 0 <= i < |s| ==> IsNumberChar(s[i])
  {
    SignedText(r, FractionDigits)
  }

  /** A number as text with at most `budget` fraction digits. */
  function SignedText(r: real, budget: nat): (s: string)
    requires budget > 0
    ensures |s| >= 1 && (IsDigit(s[0]) || s[0] == '-') && IsDigit(s[|s| - 1])
    ensures forall i :: 0 <= i < |s| ==> IsNumberChar(s[i])
  {
    if r < 0.0 then "-" + UnsignedText(-r, budget) else UnsignedText(r, budget)
  }

  /** The numbers the printer writes exactly: at most `FractionDigits`
      digits after the decimal point. */
  predicate IsDecimal(r: real) {
    HasFractionDigits(r, FractionDigits)
  }

  /** The smallest magnitude `String` writes without exponent notation. */
  const PlainLow: real := 0.000001

  /** The numbers `String` writes in plain decimal notation: zero, and
      magnitudes from 10^-6 up to but not including 10^21 (the
      Number::toString algorithm of ECMAScript switches to exponent
      notation outside that range). */
  predicate PrintsPlain(r: real) {
    r == 0.0 || PlainLow <= r < FixedLimit || -FixedLimit < r <= -PlainLow
  }

  /** `r` has at most `n` digits after the decimal point. */
  predicate HasFractionDigits(r: real, n: nat) {
    IsIntegral(Shift(r, n))
  }

  // ---------------------------------------------------------------------
  // Parsing
  // ---------------------------------------------------------------------

  /** End of the run of digits that starts at `i`. */
  function DigitRun(s: string, i: nat): (r: nat)
    requires i <= |s|
    ensures i <= r <= |s|
    ensures forall k :: i <= k < r ==> IsDigit(s[k])
    ensures r == |s| || !IsDigit(s[r])
    decreases |s| - i
  {
    if i < |s| && IsDigit(s[i]) then DigitRun(s, i + 1) else i
  }

  function Scale10(x: real, e: int): real {
    if e >= 0 then Shift(x, e) else Unshift(x, -e)
  }

  /** An optional exponent `e`/`E`, sign, digits after a mantissa; nothing else may follow. */
  function ExponentPart(mantissa: real, tail: string): Option<real> {
    if tail == [] then Some(mantissa)
    else if tail[0] == 'e' || tail[0] == 'E' then
      var rest := tail[1..];
      var negative := rest != [] && rest[0] == '-';
      var digits := if rest != [] && (rest[0] == '-' || rest[0] == '+') then rest[1..] else rest;
      if digits != [] && AllDigits(digits) then
        Some(Scale10(mantissa, if negative then -(NatValue(digits) as int) else NatValue(digits) as int))
      else None
    else None
  }

  /** An unsigned decimal literal: digits, optionally `.` and more digits
      (at least one digit in all), optionally an exponent. */
  function DecimalValue(b: string): Option<real> {
    var i := DigitRun(b, 0);
    assert AllDigits(b[..i]);
    var whole := NatValue(b[..i]) as real;
    if i < |b| && b[i] == '.' then
      var j := DigitRun(b, i + 1);
      assert AllDigits(b[i + 1..j]);
      if i == 0 && j == i + 1 then None
      else ExponentPart(whole + FracValue(b[i + 1..j]), b[j..])
    else if i == 0 then None
    else ExponentPart(whole, b[i..])
  }

  /** Digit value in base 16 (letters in either case), or 16 for a non-digit. */
  function HexDigitValue(c: char): nat {
    if '0' <= c <= '9' then c as int - '0' as int
    else if 'a' <= c <= 'f' then c as int - 'a' as int + 10
    else if 'A' <= c <= 'F' then c as int - 'A' as int + 10
    else 16
  }

  /** The number the first `n` digits of `s` spell in base `radix`. */
  function RadixValue(s: string, n: nat, radix: nat): nat
    requires n <= |s|
    requires forall i :: 0 <= i < |s| ==> HexDigitValue(s[i]) < radix
  {
    if n == 0 then 0 else radix * RadixValue(s, n - 1, radix) + HexDigitValue(s[n - 1])
  }

  /** The base a `0x`, `0o` or `0b` prefix selects, or 0 when `t` has none. */
  function RadixOf(t: string): nat {
    if |t| < 2 || t[0] != '0' then 0
    else if t[1] == 'x' || t[1] == 'X' then 16
    else if t[1] == 'o' || t[1] == 'O' then 8
    else if t[1] == 'b' || t[1] == 'B' then 2
    else 0
  }

  function Negate(v: Option<real>): Option<real> {
    match v
    case None => None
    case Some(x) => Some(-x)
  }

  /** The value of a literal with no white space around it: a sign before
      a decimal literal, a `0x`, `0o` or `0b` literal, or a decimal literal;
      `None` stands for NaN. */
  function LiteralValue(t: string): (r: Option<real>)
    requires t != []
  {
    if t[0] == '-' then Negate(DecimalValue(t[1..]))
    else if t[0] == '+' then DecimalValue(t[1..])
    else if RadixOf(t) != 0 then
      var digits := t[2..];
      if digits != [] && forall i :: 0 <= i < |digits| ==> HexDigitValue(digits[i]) < RadixOf(t) then
        Some(RadixValue(digits, |digits|, RadixOf(t)) as real)
      else None
    else DecimalValue(t)
  }

  /** `Number(text)`: white space around the literal is ignored, empty text
      is 0, and `None` stands for NaN. */
  function ToNumber(text: string): (r: Option<real>)
    ensures Trim(text) == [] ==> r == Some(0.0)
  {
    var t := Trim(text);
    if t == [] then Some(0.0) else LiteralValue(t)
  }

  // ---------------------------------------------------------------------
  // Rounding
  // ---------------------------------------------------------------------

  /** From this magnitude on `toFixed` prints the number unchanged. */
  const FixedLimit: real := 1000000000000000000000.0

  /** `toFixed` on a non-negative value: the nearest multiple of
      `10^-places`, ties upwards; values of 10^21 and more are kept. */
  function RoundUnsigned(x: real, places: nat): real
    requires x >= 0.0
  {
    if x >= FixedLimit then x
    else Unshift((Shift(x, places) + 0.5).Floor as real, places)
  }

  /** `+x.toFixed(places)`: rounding half away from zero to `places` decimals. */
  function ToFixed(x: real, places: nat): (r: real)
    requires places <= 100
    ensures -FixedLimit < x < FixedLimit ==>
      && -Unshift(0.5, places) <= r - x <= Unshift(0.5, places)
      && HasFractionDigits(r, places)
    ensures x <= -FixedLimit || FixedLimit <= x ==> r == x
  {
    if x < 0.0 then
      NegativeRoundBounds(x, places);
      -RoundUnsigned(-x, places)
    else
      if x < FixedLimit then RoundUnsignedBounds(x, places); RoundUnsigned(x, places)
      else RoundUnsigned(x, places)
  }

  // ---------------------------------------------------------------------
  // Properties
  // ---------------------------------------------------------------------

  lemma {:induction false} NatRoundTrip(n: nat)
    ensures NatValue(NatToString(n)) == n
  {
    if n >= 10 {
      NatRoundTrip(n / 10);
      var s := NatToString(n);
      assert s[..|s| - 1] == NatToString(n / 10);
    }
  }

  lemma IntegralOfInt(z: int)
    ensures IsIntegral(z as real)
  {
    assert (z as real).Floor == z;
  }

  lemma NegIntegral(x: real)
    requires IsIntegral(x)
    ensures IsIntegral(-x)
  {
    assert -x == (-(x.Floor)) as real;
    IntegralOfInt(-(x.Floor));
  }

  lemma SubIntegral(x: real, y: real)
    requires IsIntegral(x) && IsIntegral(y)
    ensures IsIntegral(x - y)
  {
    assert x - y == (x.Floor - y.Floor) as real;
    IntegralOfInt(x.Floor - y.Floor);
  }

  lemma {:induction false} ShiftSub(a: real, b: real, n: nat)
    ensures Shift(a - b, n) == Shift(a, n) - Shift(b, n)
  {
    if n > 0 {
      ShiftSub(a, b, n - 1);
    }
  }

  lemma {:induction false} ShiftNeg(a: real, n: nat)
    ensures Shift(-a, n) == -Shift(a, n)
  {
    if n > 0 {
      ShiftNeg(a, n - 1);
    }
  }

  lemma {:induction false} ShiftStep(a: real, n: nat)
    requires n > 0
    ensures Shift(a, n) == Shift(10.0 * a, n - 1)
  {
    if n > 1 {
      ShiftStep(a, n - 1);
    }
  }

  lemma {:induction false} ShiftUnshift(a: real, n: nat)
    ensures Shift(Unshift(a, n), n) == a
  {
    if n > 0 {
      ShiftStep(Unshift(a, n), n);
      assert 10.0 * Unshift(a, n) == Unshift(a, n - 1);
      ShiftUnshift(a, n - 1);
    }
  }

  lemma {:induction false} UnshiftMonotone(a: real, b: real, n: nat)
    requires a <= b
    ensures Unshift(a, n) <= Unshift(b, n)
  {
    if n > 0 {
      UnshiftMonotone(a, b, n - 1);
    }
  }

  lemma {:induction false} UnshiftSub(a: real, b: real, n: nat)
    ensures Unshift(a - b, n) == Unshift(a, n) - Unshift(b, n)
  {
    if n > 0 {
      UnshiftSub(a, b, n - 1);
    }
  }

  lemma {:induction false} UnshiftNeg(a: real, n: nat)
    ensures Unshift(-a, n) == -Unshift(a, n)
  {
    if n > 0 {
      UnshiftNeg(a, n - 1);
    }
  }

  lemma {:induction false} UnshiftTimesTen(b: real, n: nat)
    ensures Unshift(10.0 * b, n) == 10.0 * Unshift(b, n)
  {
    if n > 0 {
      UnshiftTimesTen(b, n - 1);
    }
  }

  lemma {:induction false} UnshiftShift(a: real, n: nat)
    ensures Unshift(Shift(a, n), n) == a
  {
    if n > 0 {
      UnshiftTimesTen(Shift(a, n - 1), n - 1);
      UnshiftShift(a, n - 1);
    }
  }

  /** Whole numbers have no fraction digits. */
  lemma {:induction false} WholeHasFractionDigits(z: int, n: nat)
    ensures HasFractionDigits(z as real, n)
  {
    if n == 0 {
      IntegralOfInt(z);
    } else {
      WholeHasFractionDigits(z, n - 1);
      var w := Shift(z as real, n - 1).Floor;
      assert Shift(z as real, n) == (10 * w) as real;
      IntegralOfInt(10 * w);
    }
  }

  /** The fraction digits read back to the fraction, when it has no more
      digits than the budget. */
  lemma {:induction false} FracRoundTrip(f: real, budget: nat)
    requires 0.0 <= f < 1.0
    requires HasFractionDigits(f, budget)
    ensures FracValue(FracDigits(f, budget)) == f
    decreases budget
  {
    if budget == 0 {
      assert Shift(f, 0) == f;
    } else if f != 0.0 {
      var d := (f * 10.0).Floor;
      var g := f * 10.0 - d as real;
      ShiftStep(f, budget);
      ShiftSub(f * 10.0, d as real, budget - 1);
      WholeHasFractionDigits(d, budget - 1);
      SubIntegral(Shift(f, budget), Shift(d as real, budget - 1));
      FracRoundTrip(g, budget - 1);
      var s := FracDigits(f, budget);
      assert s[1..] == FracDigits(g, budget - 1);
    }
  }

  lemma {:induction false} DigitRunToEnd(s: string, i: nat)
    requires i <= |s|
    requires forall k :: i <= k < |s| ==> IsDigit(s[k])
    ensures DigitRun(s, i) == |s|
    decreases |s| - i
  {
    if i < |s| {
      DigitRunToEnd(s, i + 1);
    }
  }

  lemma {:induction false} DigitRunStopsAt(a: string, rest: string, i: nat)
    requires AllDigits(a) && i <= |a|
    requires rest == [] || !IsDigit(rest[0])
    ensures DigitRun(a + rest, i) == |a|
    decreases |a| - i
  {
    if i < |a| {
      DigitRunStopsAt(a, rest, i + 1);
    }
  }

  /** Digits alone read as the whole number they spell. */
  lemma DecimalOfWhole(whole: string)
    requires |whole| >= 1 && AllDigits(whole)
    ensures DecimalValue(whole) == Some(NatValue(whole) as real)
  {
    DigitRunStopsAt(whole, "", 0);
    assert whole + "" == whole;
    assert whole[..|whole|] == whole;
  }

  /** Digits, a point and more digits read as the whole part plus the fraction. */
  lemma DecimalOfFraction(whole: string, digits: string)
    requires |whole| >= 1 && AllDigits(whole) && |digits| >= 1 && AllDigits(digits)
    ensures DecimalValue(whole + "." + digits) == Some(NatValue(whole) as real + FracValue(digits))
  {
    var s := whole + "." + digits;
    PointLiteralShape(whole, digits);
    PointLiteralRuns(whole, digits);
    DecimalWithPoint(s, |whole|);
  }

  lemma PointLiteralShape(whole: string, digits: string)
    ensures var s := whole + "." + digits;
      |s| == |whole| + 1 + |digits| && s[..|whole|] == whole && s[|whole|] == '.' && s[|whole| + 1..|s|] == digits
  {
  }

  /** In digits, a point and more digits, the first run of digits stops at
      the point and the second runs to the end. */
  lemma PointLiteralRuns(whole: string, digits: string)
    requires AllDigits(whole) && AllDigits(digits)
    ensures DigitRun(whole + "." + digits, 0) == |whole|
    ensures DigitRun(whole + "." + digits, |whole| + 1) == |whole| + 1 + |digits|
  {
    var s := whole + "." + digits;
    assert s == whole + ("." + digits);
    DigitRunStopsAt(whole, "." + digits, 0);
    DigitsAfter(whole + ".", digits);
    DigitRunToEnd(s, |whole| + 1);
  }

  /** Every character of `a + b` past `a` is a digit when `b` is all digits. */
  lemma DigitsAfter(a: string, b: string)
    requires AllDigits(b)
    ensures forall k :: |a| <= k < |a + b| ==> IsDigit((a + b)[k])
  {
    forall k | |a| <= k < |a + b|
      ensures IsDigit((a + b)[k])
    {
      assert (a + b)[k] == b[k - |a|];
    }
  }

  /** A literal whose digit run stops at a point followed by digits to the
      end reads as the whole part plus the fraction. */
  lemma DecimalWithPoint(b: string, i: nat)
    requires 0 < i < |b| && DigitRun(b, 0) == i && b[i] == '.' && DigitRun(b, i + 1) == |b|
    ensures DecimalValue(b) == Some(NatValue(b[..i]) as real + FracValue(b[i + 1..|b|]))
  {
    assert b[|b|..] == [];
  }

  lemma UnsignedRoundTrip(x: real, budget: nat)
    requires x >= 0.0 && budget > 0 && HasFractionDigits(x, budget)
    ensures DecimalValue(UnsignedText(x, budget)) == Some(x)
  {
    if x == x.Floor as real {
      WholeRoundTrip(x, budget);
    } else {
      FractionRoundTrip(x, budget);
    }
  }

  lemma WholeRoundTrip(x: real, budget: nat)
    requires x >= 0.0 && budget > 0 && x == x.Floor as real
    ensures DecimalValue(UnsignedText(x, budget)) == Some(x)
  {
    var n := x.Floor;
    var whole := NatToString(n);
    NatRoundTrip(n);
    assert UnsignedText(x, budget) == whole + "";
    assert whole + "" == whole;
    DecimalOfWhole(whole);
  }

  lemma FractionRoundTrip(x: real, budget: nat)
    requires x >= 0.0 && budget > 0 && HasFractionDigits(x, budget) && x != x.Floor as real
    ensures DecimalValue(UnsignedText(x, budget)) == Some(x)
  {
    var n := x.Floor;
    var f := x - n as real;
    FractionPartDigits(x, budget);
    FracRoundTrip(f, budget);
    var whole := NatToString(n);
    NatRoundTrip(n);
    var digits := FracDigits(f, budget);
    assert UnsignedText(x, budget) == whole + "." + digits;
    DecimalOfFraction(whole, digits);
  }

  /** The fraction part has no more digits than the number. */
  lemma FractionPartDigits(x: real, budget: nat)
    requires HasFractionDigits(x, budget)
    ensures HasFractionDigits(x - x.Floor as real, budget)
  {
    var n := x.Floor;
    ShiftSub(x, n as real, budget);
    WholeHasFractionDigits(n, budget);
    SubIntegral(Shift(x, budget), Shift(n as real, budget));
  }

  lemma ToNumberOfNegative(s: string, u: string)
    requires |s| >= 2 && s[0] == '-' && IsDigit(s[|s| - 1]) && s[1..] == u
    ensures ToNumber(s) == Negate(DecimalValue(u))
  {
    DigitIsNotSpace(s[|s| - 1]);
    ToNumberOfTrimmed(s);
  }

  lemma ToNumberOfUnsigned(u: string)
    requires |u| >= 1 && IsDigit(u[0]) && IsDigit(u[|u| - 1])
    requires |u| >= 2 ==> IsDigit(u[1]) || u[1] == '.'
    ensures ToNumber(u) == DecimalValue(u)
  {
    DigitIsNotSpace(u[0]);
    DigitIsNotSpace(u[|u| - 1]);
    ToNumberOfTrimmed(u);
    LiteralOfUnsigned(u);
  }

  lemma DigitIsNotSpace(c: char)
    requires IsDigit(c)
    ensures !IsSpace(c)
  {
  }

  /** Text with no white space at either end is read as a literal. */
  lemma ToNumberOfTrimmed(t: string)
    requires t != [] && !IsSpace(t[0]) && !IsSpace(t[|t| - 1])
    ensures ToNumber(t) == LiteralValue(t)
  {
    TrimUnspaced(t);
  }

  /** A literal that starts with a digit and has no radix prefix is decimal. */
  lemma LiteralOfUnsigned(u: string)
    requires |u| >= 1 && IsDigit(u[0])
    requires |u| >= 2 ==> IsDigit(u[1]) || u[1] == '.'
    ensures LiteralValue(u) == DecimalValue(u)
  {
    assert u[0] != '-' && u[0] != '+';
    assert RadixOf(u) == 0;
  }

  lemma SignedRoundTrip(r: real, budget: nat)
    requires budget > 0 && HasFractionDigits(r, budget)
    ensures ToNumber(SignedText(r, budget)) == Some(r)
  {
    if r < 0.0 {
      NegativeRoundTrip(r, budget);
    } else {
      UnsignedRoundTrip(r, budget);
      ToNumberOfUnsigned(UnsignedText(r, budget));
    }
  }

  lemma NegativeRoundTrip(r: real, budget: nat)
    requires budget > 0 && HasFractionDigits(r, budget) && r < 0.0
    ensures ToNumber(SignedText(r, budget)) == Some(r)
  {
    var x := -r;
    NegatedFractionDigits(r, budget);
    var u := UnsignedText(x, budget);
    UnsignedRoundTrip(x, budget);
    var s := SignedText(r, budget);
    SignedTextOfNegative(r, budget);
    ToNumberOfNegative(s, u);
  }

  lemma NegatedFractionDigits(r: real, n: nat)
    requires HasFractionDigits(r, n)
    ensures HasFractionDigits(-r, n)
  {
    ShiftNeg(r, n);
    NegIntegral(Shift(r, n));
  }

  lemma SignedTextOfNegative(r: real, budget: nat)
    requires budget > 0 && r < 0.0
    ensures var s := SignedText(r, budget);
      |s| >= 2 && s[0] == '-' && s[1..] == UnsignedText(-r, budget)
  {
    var u := UnsignedText(-r, budget);
    assert ("-" + u)[1..] == u;
  }

  /** Reading back what the printer wrote gives the same number, for every
      value with at most `FractionDigits` fraction digits. */
  lemma NumberRoundTrip(r: real)
    requires IsDecimal(r)
    ensures ToNumber(NumToString(r)) == Some(r)
  {
    SignedRoundTrip(r, FractionDigits);
  }

  /** Whole numbers are printed exactly. */
  lemma IntegersAreDecimal(z: int)
    ensures IsDecimal(z as real)
  {
    WholeHasFractionDigits(z, FractionDigits);
  }

  /** On a non-negative value below the limit, rounding lands on a multiple
      of the unit of the last kept place, at most half a unit away. */
  lemma RoundUnsignedBounds(x: real, places: nat)
    requires 0.0 <= x < FixedLimit
    ensures -Unshift(0.5, places) <= RoundUnsigned(x, places) - x <= Unshift(0.5, places)
    ensures HasFractionDigits(RoundUnsigned(x, places), places)
  {
    var y := Shift(x, places);
    var n := (y + 0.5).Floor;
    var r := Unshift(n as real, places);
    ShiftUnshift(n as real, places);
    IntegralOfInt(n);
    UnshiftShift(x, places);
    UnshiftSub(n as real, y, places);
    UnshiftMonotone(n as real - y, 0.5, places);
    UnshiftMonotone(-0.5, n as real - y, places);
    UnshiftNeg(0.5, places);
  }

  /** Rounding a negative value rounds its magnitude: the bounds carry over. */
  lemma NegativeRoundBounds(x: real, places: nat)
    requires x < 0.0
    ensures -FixedLimit < x ==>
      && -Unshift(0.5, places) <= -RoundUnsigned(-x, places) - x <= Unshift(0.5, places)
      && HasFractionDigits(-RoundUnsigned(-x, places), places)
  {
    if -FixedLimit < x {
      RoundUnsignedBounds(-x, places);
      var r := RoundUnsigned(-x, places);
      ShiftNeg(r, places);
      NegIntegral(Shift(r, places));
    }
  }

  /** A non-zero value with at most six fraction digits is at least 10^-6
      away from zero, so below the limit it prints in plain notation. */
  lemma SixPlacesPrintPlain(y: real)
    requires HasFractionDigits(y, 6) && -FixedLimit < y < FixedLimit
    ensures PrintsPlain(y)
  {
    assert Shift(y, 1) == 10.0 * y;
    assert Shift(y, 2) == 10.0 * Shift(y, 1);
    assert Shift(y, 3) == 10.0 * Shift(y, 2);
    assert Shift(y, 4) == 10.0 * Shift(y, 3);
    assert Shift(y, 5) == 10.0 * Shift(y, 4);
    assert Shift(y, 6) == 10.0 * Shift(y, 5);
    var z := Shift(y, 6).Floor;
    if 0 < z {
      assert 1.0 <= 1000000.0 * y;
    } else if z < 0 {
      assert 1000000.0 * y <= -1.0;
    }
  }

  /** Dividing by a power of ten does not grow a non-negative value. */
  lemma {:induction false} UnshiftShrinks(a: real, n: nat)
    requires a >= 0.0
    ensures 0.0 <= Unshift(a, n) <= a
  {
    if n > 0 {
      UnshiftShrinks(a, n - 1);
    }
  }

  /** A value with at most `a` fraction digits has at most `b >= a` of them. */
  lemma {:induction false} MoreFractionDigits(x: real, a: nat, b: nat)
    requires a <= b && HasFractionDigits(x, a)
    ensures HasFractionDigits(x, b)
    decreases b - a
  {
    if a < b {
      var z := Shift(x, a).Floor;
      assert Shift(x, a + 1) == 10.0 * Shift(x, a) == (10 * z) as real;
      IntegralOfInt(10 * z);
      MoreFractionDigits(x, a + 1, b);
    }
  }

  lemma RoundUnsignedKeepsExact(y: real, places: nat)
    requires y >= 0.0 && HasFractionDigits(y, places)
    ensures RoundUnsigned(y, places) == y
  {
    if y < FixedLimit {
      var n := Shift(y, places).Floor;
      assert Shift(y, places) == n as real;
      assert (n as real + 0.5).Floor == n;
      UnshiftShift(y, places);
    }
  }

  /** Rounding a value that already has at most `places` fraction digits keeps it. */
  lemma ToFixedKeepsExact(y: real, places: nat)
    requires places <= 100 && HasFractionDigits(y, places)
    ensures ToFixed(y, places) == y
  {
    if y < 0.0 {
      ShiftNeg(y, places);
      NegIntegral(Shift(y, places));
      RoundUnsignedKeepsExact(-y, places);
    } else {
      RoundUnsignedKeepsExact(y, places);
    }
  }

  /** Rounding twice to the same number of places rounds once. */
  lemma ToFixedIdempotent(x: real, places: nat)
    requires places <= 100
    ensures ToFixed(ToFixed(x, places), places) == ToFixed(x, places)
  {
    if -FixedLimit < x < FixedLimit {
      ToFixedKeepsExact(ToFixed(x, places), places);
    }
  }
}
