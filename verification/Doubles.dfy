/** Doubles in 64 bits: how a numeric field is converted to one, how one is printed with fifteen
    significant digits, and which ones survive both. */
module Doubles {
  import opened Wrappers
  import opened Text
  import opened Rounding
  import opened Numbers

  /** A finite one is a significand times a power of two. */
  datatype Binary64 =
    | Finite(negative: bool, significand: nat, exponent: int)
    | Infinite(negative: bool)
    | NaN(negative: bool)

  const HIGHEST_EXPONENT: int := 971

  predicate IsCanonical(s: nat, e: int) {
    s < SIGNIFICANDS && e >= LOWEST_EXPONENT && (e > LOWEST_EXPONENT ==> s >= HALF_SIGNIFICANDS)
  }

  predicate IsDouble(d: Binary64) {
    d.Finite? ==> IsCanonical(d.significand, d.exponent) && d.exponent <= HIGHEST_EXPONENT
  }

  type Double = d: Binary64 | IsDouble(d) witness Finite(false, 0, LOWEST_EXPONENT)

  function Magnitude(d: Double): (x: real)
    requires d.Finite?
    ensures x >= 0.0
    ensures x == 0.0 <==> d.significand == 0
  {
    ScaleMonotone(2, 0.0, d.significand as real, d.exponent);
    ScaleSum(2, 0.0, 0.0, d.exponent);
    Scale(2, d.significand as real, d.exponent)
  }

  /* Conversion */

  /** Rounding to 53 binary digits, as significand and exponent. */
  function Significand(x: real): (s: nat)
    requires x > 0.0
  {
    BinaryUnits(x);
    var s := Units(2, x, BinaryExponent(x));
    if s == SIGNIFICANDS then HALF_SIGNIFICANDS else s
  }

  function Exponent(x: real): (e: int)
    requires x > 0.0
  {
    var e := BinaryExponent(x);
    if Units(2, x, e) == SIGNIFICANDS then e + 1 else e
  }

  /** The nearest double; none on overflow. */
  function ToDouble(negative: bool, x: real): (d: Option<Double>)
    requires x >= 0.0
  {
    if x == 0.0 then Some(Finite(negative, 0, LOWEST_EXPONENT))
    else if Exponent(x) > HIGHEST_EXPONENT then None
    else
      SignificandIsCanonical(x);
      Some(Finite(negative, Significand(x), Exponent(x)))
  }

  /** Formatted input of a double, once its field is accumulated. */
  function DoubleValue(f: Field): (v: Option<Double>) {
    if Complete(f) then ToDouble(f.negative, Denoted(f)) else None
  }

  lemma SignificandIsCanonical(x: real)
    requires x > 0.0
    ensures IsCanonical(Significand(x), Exponent(x))
    ensures Scale(2, Significand(x) as real, Exponent(x)) == Binary(x)
  {
    var e := BinaryExponent(x);
    BinaryUnits(x);
    if Units(2, x, e) == SIGNIFICANDS {
      ScaleStep(2, HALF_SIGNIFICANDS as real, e);
      ShiftedPowers(e);
      ShiftedPowers(e + 1);
    }
  }

  /** A magnitude has one significand and exponent. */
  lemma CanonicalIsUnique(s: nat, e: int, s': nat, e': int)
    requires IsCanonical(s, e) && IsCanonical(s', e')
    requires Scale(2, s as real, e) == Scale(2, s' as real, e')
    ensures s == s' && e == e'
  {
    if e < e' {
      CanonicalIsOrdered(s, e, s', e');
    } else if e' < e {
      CanonicalIsOrdered(s', e', s, e);
    } else {
      ScaleMonotone(2, s as real, s' as real, e);
      ScaleMonotone(2, s' as real, s as real, e);
    }
  }

  lemma CanonicalIsOrdered(s: nat, e: int, s': nat, e': int)
    requires IsCanonical(s, e) && IsCanonical(s', e') && e < e'
    ensures Scale(2, s as real, e) < Scale(2, s' as real, e')
  {
    ShiftedPowers(e);
    ShiftedPowers(e');
    ScaleMonotone(2, s as real, SIGNIFICANDS as real, e);
    ScaleMonotone(2, s' as real, HALF_SIGNIFICANDS as real, e');
    if e + 53 < e' + 52 {
      PowerIncreases(2, e + 53, e' + 52);
    }
  }

  /** What is rounded to the same number is converted to the same double. */
  lemma SameRounding(negative: bool, x: real, y: real)
    requires x > 0.0 && y > 0.0 && Binary(x) == Binary(y)
    ensures ToDouble(negative, x) == ToDouble(negative, y)
  {
    SignificandIsCanonical(x);
    SignificandIsCanonical(y);
    CanonicalIsUnique(Significand(x), Exponent(x), Significand(y), Exponent(y));
  }

  /** Converting the exact magnitude of a double gives the double. */
  lemma DoubleIsFixed(d: Double)
    requires d.Finite? && d.significand > 0
    ensures Binary(Magnitude(d)) == Magnitude(d)
    ensures ToDouble(d.negative, Magnitude(d)) == Some(d)
  {
    var x := Magnitude(d);
    BinaryIsFixed(x, d.significand, d.exponent);
    SignificandIsCanonical(x);
    CanonicalIsUnique(Significand(x), Exponent(x), d.significand, d.exponent);
  }

  lemma ConvertedMagnitude(negative: bool, x: real)
    requires x > 0.0 && ToDouble(negative, x).Some?
    ensures Magnitude(ToDouble(negative, x).value) == Binary(x)
  {
    SignificandIsCanonical(x);
  }

  /* Nearest of all doubles */

  /** Conversion gives a double with the sign asked for, such that no other finite double is nearer; and
      where another one is as near, the one that is even. The doubles are told by their numbers: less than
      2^53, times two to an exponent from -1074 to 971. */
  lemma ToDoubleIsNearest(negative: bool, x: real, s: nat, k: int)
    requires x >= 0.0 && ToDouble(negative, x).Some?
    requires s < 9_007_199_254_740_992 && -1074 <= k <= 971
    ensures var d := ToDouble(negative, x).value;
            && d.Finite? && d.negative == negative
            && Distance(Magnitude(d), x) <= Distance(Scale(2, s as real, k), x)
            && (Distance(Magnitude(d), x) == Distance(Scale(2, s as real, k), x) ==>
                  Magnitude(d) == Scale(2, s as real, k) || d.significand % 2 == 0)
  {
    if x > 0.0 {
      SignificandIsCanonical(x);
      BinaryIsNearest(x, s, k);
    }
  }

  /** Conversion overflows exactly from halfway between the greatest double and two to the 1024 on: at
      2^54 - 1 times two to the 970. */
  lemma OverflowExactly(negative: bool, x: real, top: int)
    requires x >= 0.0 && top == 971
    ensures ToDouble(negative, x) == None <==> x >= Scale(2, 18_014_398_509_481_983.0, top - 1)
  {
    HalfBelow(top);
    if x > 0.0 {
      OutsideTop(x, top);
      if BinaryExponent(x) == top {
        TopUnits(x, top);
      }
    } else {
      PowerIncreases(2, top + 52, top + 53);
    }
  }

  lemma OutsideTop(x: real, top: int)
    requires x > 0.0 && top == 971
    ensures BinaryExponent(x) < top ==> x < Power(2, top + 52)
    ensures BinaryExponent(x) > top ==> x >= Power(2, top + 53)
  {
    var e := BinaryExponent(x);
    BinaryUnits(x);
    if e + 53 < top + 52 {
      PowerIncreases(2, e + 53, top + 52);
    }
    if top + 53 < e + 52 {
      PowerIncreases(2, top + 53, e + 52);
    }
  }

  lemma HalfBelow(top: int)
    ensures var limit := Scale(2, 18_014_398_509_481_983.0, top - 1);
            && limit == Scale(2, SIGNIFICANDS as real - 0.5, top)
            && Power(2, top + 52) < limit < Power(2, top + 53)
  {
    ScaleAdd(2, SIGNIFICANDS as real - 0.5, 1, top - 1);
    assert Scale(2, SIGNIFICANDS as real - 0.5, 1) == Times(2, Scale(2, SIGNIFICANDS as real - 0.5, 0));
    ShiftedPowers(top);
    ScaleMonotone(2, HALF_SIGNIFICANDS as real, SIGNIFICANDS as real - 0.5, top);
    ScaleMonotone(2, SIGNIFICANDS as real - 0.5, SIGNIFICANDS as real, top);
  }

  /** In the highest binade. */
  lemma TopUnits(x: real, top: int)
    requires x > 0.0 && BinaryExponent(x) == top
    ensures Units(2, x, top) == SIGNIFICANDS <==> x >= Scale(2, SIGNIFICANDS as real - 0.5, top)
  {
    var y := Scale(2, x, -top);
    BinaryUnits(x);
    ScaleBack(2, x, top);
    ScaleMonotone(2, y, SIGNIFICANDS as real - 0.5, top);
    ShiftedPowers(top);
    ScaleMonotone(2, y, SIGNIFICANDS as real, top);
    NearestHalf(y, SIGNIFICANDS);
  }

  lemma NearestHalf(y: real, n: int)
    requires n % 2 == 0 && y < n as real
    ensures Nearest(y) == n <==> y >= n as real - 0.5
  {
    if y >= n as real - 0.5 {
      assert y.Floor == n - 1;
    }
  }

  /* Printing */

  function Zeros(k: nat): (s: Bytes)
    ensures |s| == k && AllDigits(s)
  {
    seq(k, _ => '0')
  }

  datatype Decimals = Decimals(n: nat, k: int)

  /** Without its trailing zeros. */
  function Strip(n: nat, k: int): (d: Decimals)
    requires n > 0
    ensures 0 < d.n <= n && k <= d.k
    ensures Scale(10, d.n as real, d.k) == Scale(10, n as real, k)
  {
    if n % 10 == 0 then
      Shorter(n / 10, k);
      Strip(n / 10, k + 1)
    else Decimals(n, k)
  }

  lemma Shorter(n: nat, k: int)
    ensures Scale(10, n as real, k + 1) == Scale(10, (10 * n) as real, k)
  {
    ScaleAdd(10, n as real, 1, k);
    assert Scale(10, n as real, 1) == Times(10, Scale(10, n as real, 0)) == (10 * n) as real;
  }

  /** An exponent, with two digits at least. */
  function ExponentText(e: nat): (s: Bytes)
    ensures s != []
  {
    if e < 10 then "0" + Digits(e) else Digits(e)
  }

  /** A point after the first `j` digits, unless there are no more. */
  function PointAfter(digits: Bytes, j: nat): Bytes
    requires j <= |digits|
  {
    digits[..j] + Fractional(digits[j..])
  }

  function Fractional(digits: Bytes): Bytes {
    if digits == [] then [] else "." + digits
  }

  function ExponentSuffix(e: int): Bytes {
    if e < 0 then "e-" + ExponentText(-e) else "e+" + ExponentText(e)
  }

  function WithExponent(pointed: Bytes, e: int): Bytes {
    pointed + ExponentSuffix(e)
  }

  /** Digits of which the first one stands for ten to the `e`, in the general notation with a precision
      of fifteen: plain, with a point, or with an exponent. */
  function Placed(digits: Bytes, e: int): Bytes
    requires digits != []
  {
    if e < -4 || e >= DIGITS then WithExponent(PointAfter(digits, 1), e)
    else if e < 0 then PointAfter(Zeros(-e) + digits, 1)
    else if e + 1 < |digits| then PointAfter(digits, e + 1)
    else digits + Zeros(e + 1 - |digits|)
  }

  /** `n` times ten to the `k`. */
  function General(n: nat, k: int): Bytes {
    Placed(Digits(n), k + |Digits(n)| - 1)
  }

  /** The fifteen digits of a magnitude. */
  function DigitsOf(x: real): (d: Decimals)
    requires x > 0.0
    ensures 0 < d.n < DECIMALS
    ensures Scale(10, d.n as real, d.k) == Decimal(x)
  {
    DecimalUnits(x);
    var j := DecimalExponent(x);
    var n := Units(10, x, j);
    assert n == DECIMALS ==> n % 10 == 0;
    Strip(n, j)
  }

  /** `os << setprecision(15) << d` */
  function PrintDouble(d: Double): Bytes {
    (if d.negative then "-" else "")
    + match d
      case Finite(_, s, _) =>
        if s == 0 then "0" else General(DigitsOf(Magnitude(d)).n, DigitsOf(Magnitude(d)).k)
      case Infinite(_) => "inf"
      case NaN(_) => "nan"
  }

  /* The text of a double is one numeric field */

  /** The field `f` before any digit. */
  predicate IsFresh(f: Field) {
    f == EMPTY_FIELD || (f.phase == Signed && f == EMPTY_FIELD.(phase := Signed, negative := f.negative))
  }

  lemma ContinuedZeros(n: nat, k: nat)
    ensures Continued(n, Zeros(k)) == n * Pow(10, k)
    ensures Continued(0, Zeros(k)) == 0
    decreases k
  {
    if k > 0 {
      assert Zeros(k)[1..] == Zeros(k - 1);
      assert DigitValue(Zeros(k)[0]) == 0;
      ContinuedZeros(10 * n, k - 1);
      ContinuedZeros(0, k - 1);
      assert 10 * n * Pow(10, k - 1) == n * (10 * Pow(10, k - 1));
    }
  }

  /** Fresh, then digits with a point somewhere: all the digits, and how many follow the point. */
  function Pointed(f: Field, digits: Bytes, scale: nat): Field
    requires AllDigits(digits)
  {
    f.(phase := if scale == 0 then Whole else Fraction, mantissa := Continued(0, digits), scale := scale)
  }

  lemma WholePart(f: Field, whole: Bytes, rest: Bytes)
    requires IsFresh(f) && AllDigits(whole) && whole != []
    ensures Accumulate(f, whole + rest, true) == Accumulate(Pointed(f, whole, 0), rest, true)
  {
    AccumulateRun(f, whole, rest);
  }

  lemma PointedPart(f: Field, whole: Bytes, fraction: Bytes, rest: Bytes)
    requires IsFresh(f) && AllDigits(whole) && whole != [] && AllDigits(fraction) && fraction != []
    ensures Accumulate(f, whole + ("." + (fraction + rest)), true)
         == Accumulate(Pointed(f, whole + fraction, |fraction|), rest, true)
  {
    WholePart(f, whole, "." + (fraction + rest));
    ContinuedAppend(0, whole, fraction);
    FractionPart(Pointed(f, whole, 0), fraction, rest);
  }

  lemma PointPart(f: Field, digits: Bytes, j: nat, rest: Bytes)
    requires IsFresh(f) && AllDigits(digits) && 0 < j <= |digits|
    ensures Accumulate(f, PointAfter(digits, j) + rest, true)
         == Accumulate(Pointed(f, digits, |digits| - j), rest, true)
  {
    var whole, fraction := digits[..j], digits[j..];
    assert whole + fraction == digits;
    if fraction == [] {
      assert PointAfter(digits, j) + rest == whole + rest && whole == digits;
      WholePart(f, whole, rest);
    } else {
      assert PointAfter(digits, j) + rest == whole + ("." + (fraction + rest));
      PointedPart(f, whole, fraction, rest);
    }
  }

  /** Plain digits. */
  lemma PlainForm(f: Field, digits: Bytes)
    requires IsFresh(f) && AllDigits(digits) && digits != []
    ensures Accumulate(f, digits, true) == Accumulated(Pointed(f, digits, 0), [])
  {
    assert digits + [] == digits;
    WholePart(f, digits, []);
  }

  lemma TrailingZeros(n: nat, k: nat)
    ensures AllDigits(Digits(n)) && Continued(0, Digits(n) + Zeros(k)) == n * Pow(10, k)
  {
    DigitsDenote(n);
    ContinuedAppend(0, Digits(n), Zeros(k));
    ContinuedZeros(n, k);
  }

  lemma ScaledInteger(n: nat, k: nat)
    ensures Scale(10, (n * Pow(10, k)) as real, 0) == Scale(10, n as real, k)
  {
    ScaleIsProduct(10, n as real, k);
    assert (n * Pow(10, k)) as real == Pow(10, k) as real * n as real;
  }

  /** A point within the digits. */
  lemma PointForm(f: Field, digits: Bytes, j: nat)
    requires IsFresh(f) && AllDigits(digits) && 0 < j <= |digits|
    ensures Accumulate(f, PointAfter(digits, j), true) == Accumulated(Pointed(f, digits, |digits| - j), [])
  {
    assert PointAfter(digits, j) + [] == PointAfter(digits, j);
    PointPart(f, digits, j, []);
  }

  lemma ExponentDenotes(e: nat)
    ensures AllDigits(ExponentText(e)) && Continued(0, ExponentText(e)) == e
  {
    DigitsDenote(e);
    assert "0" + Digits(e) == Zeros(1) + Digits(e);
    ContinuedAppend(0, Zeros(1), Digits(e));
    ContinuedZeros(0, 1);
  }

  /** Digits with a point after the first one, and an exponent. */
  lemma ExponentForm(f: Field, digits: Bytes, e: int)
    requires IsFresh(f) && AllDigits(digits) && digits != []
    ensures Accumulate(f, WithExponent(PointAfter(digits, 1), e), true)
         == Accumulated(WithExponentOf(Pointed(f, digits, |digits| - 1), e), [])
  {
    PointPart(f, digits, 1, ExponentSuffix(e));
    SignedExponentPart(Pointed(f, digits, |digits| - 1), e);
  }

  function WithExponentOf(f: Field, e: int): Field {
    f.(phase := ExponentDigits, exponentNegative := e < 0, exponent := if e < 0 then -e else e)
  }

  lemma SignedExponentPart(f: Field, e: int)
    requires f.phase in {Whole, Fraction} && f.exponent == 0
    ensures Accumulate(f, ExponentSuffix(e), true) == Accumulated(WithExponentOf(f, e), [])
  {
    var m := if e < 0 then -e else e;
    ExponentDenotes(m);
    assert ExponentSuffix(e) == "e" + ((if e < 0 then "-" else "+") + ExponentText(m));
    Numbers.ExponentPart(f, e < 0, ExponentText(m));
  }

  lemma LeadingZeros(digits: Bytes, m: nat)
    requires AllDigits(digits)
    ensures Continued(0, Zeros(m) + digits) == Continued(0, digits)
  {
    ContinuedAppend(0, Zeros(m), digits);
    ContinuedZeros(0, m);
  }

  /** What a field denotes. */
  ghost predicate Holds(g: Field, negative: bool, n: nat, k: int) {
    Complete(g) && g.negative == negative && Denoted(g) == Scale(10, n as real, k)
  }

  lemma FieldDenotes(g: Field, k: int)
    requires Complete(g)
    requires k == (if g.exponentNegative then 0 - g.exponent else g.exponent) - g.scale
    ensures Holds(g, g.negative, g.mantissa, k)
  {
  }

  /** The field that digits in general notation are accumulated to. */
  function PlacedField(f: Field, digits: Bytes, e: int): Field
    requires digits != [] && AllDigits(digits)
  {
    if e < -4 || e >= DIGITS then WithExponentOf(Pointed(f, digits, |digits| - 1), e)
    else if e < 0 then Pointed(f, Zeros(-e) + digits, |digits| - e - 1)
    else if e + 1 < |digits| then Pointed(f, digits, |digits| - e - 1)
    else Pointed(f, digits + Zeros(e + 1 - |digits|), 0)
  }

  lemma PlacedForm(f: Field, digits: Bytes, e: int)
    requires IsFresh(f) && AllDigits(digits) && digits != []
    ensures Accumulate(f, Placed(digits, e), true) == Accumulated(PlacedField(f, digits, e), [])
  {
    if e < -4 || e >= DIGITS {
      ExponentForm(f, digits, e);
    } else if e < 0 {
      PointForm(f, Zeros(-e) + digits, 1);
    } else if e + 1 < |digits| {
      PointForm(f, digits, e + 1);
    } else {
      PlainForm(f, digits + Zeros(e + 1 - |digits|));
    }
  }

  lemma GeneralDenotes(f: Field, n: nat, k: int)
    requires IsFresh(f)
    ensures AllDigits(Digits(n))
    ensures Holds(PlacedField(f, Digits(n), k + |Digits(n)| - 1), f.negative, n, k)
  {
    var digits := Digits(n);
    var e := k + |digits| - 1;
    DigitsDenote(n);
    var g := PlacedField(f, digits, e);
    if e < -4 || e >= DIGITS {
      FieldDenotes(g, k);
    } else if e < 0 {
      LeadingZeros(digits, -e);
      FieldDenotes(g, k);
    } else if e + 1 < |digits| {
      FieldDenotes(g, k);
    } else {
      TrailingZeros(n, k);
      ScaledInteger(n, k);
    }
  }

  /* Lengths */

  /** No double needs a longer text. */
  const LONGEST: nat := 32

  lemma PlacedLength(digits: Bytes, e: int)
    requires 0 < |digits| <= DIGITS && -1100 <= e <= 1100
    ensures 0 < |Placed(digits, e)| <= LONGEST
  {
    ExponentLength(if e < 0 then -e else e);
  }

  lemma ExponentLength(e: nat)
    requires e <= 1100
    ensures |ExponentText(e)| <= 4
  {
    assert Pow(10, 4) == 10_000;
    DigitsLength(e, 4);
  }

  lemma {:induction false} PowersCompare(e: int)
    ensures if e >= 0 then Power(2, e) <= Power(10, e) else Power(10, e) <= Power(2, e)
    decreases if e < 0 then -e else e
  {
    if e > 0 {
      PowersCompare(e - 1);
    } else if e < 0 {
      PowersCompare(e + 1);
    }
  }

  /** The decimal exponent of a double is small. */
  lemma ExponentWithin(d: Double, low: int, high: int)
    requires d.Finite? && d.significand > 0
    requires low <= d.exponent && d.exponent + 53 <= high && low < 0 <= high
    ensures low <= Log(10, Magnitude(d)) <= high
  {
    var x := Magnitude(d);
    assert Power(2, d.exponent) <= x by {
      ScaleMonotone(2, d.significand as real, 1.0, d.exponent);
    }
    assert x < Power(2, d.exponent + 53) by {
      ShiftedPowers(d.exponent);
      ScaleMonotone(2, d.significand as real, SIGNIFICANDS as real, d.exponent);
    }
    if low < d.exponent {
      PowerIncreases(2, low, d.exponent);
    }
    if d.exponent + 53 < high {
      PowerIncreases(2, d.exponent + 53, high);
    }
    PowersCompare(low);
    PowersCompare(high);
    LogAtLeast(10, x, low);
    LogAtLeast(10, x, high + 1);
    PowerIncreases(10, high, high + 1);
  }

  /* There and back */

  function AfterMinus(negative: bool): (f: Field)
    ensures IsFresh(f) && f.negative == negative
  {
    if negative then EMPTY_FIELD.(phase := Signed, negative := true) else EMPTY_FIELD
  }

  lemma MinusFirst(negative: bool, body: Bytes)
    ensures Accumulate(EMPTY_FIELD, (if negative then "-" else "") + body, true)
         == Accumulate(AfterMinus(negative), body, true)
  {
    if negative {
      assert ("-" + body)[1..] == body;
    } else {
      assert "" + body == body;
    }
  }

  /** The digits that are printed for a finite double. */
  function Unsigned(d: Double): Bytes
    requires d.Finite?
  {
    if d.significand == 0 then "0" else General(DigitsOf(Magnitude(d)).n, DigitsOf(Magnitude(d)).k)
  }

  lemma UnsignedForm(f: Field, d: Double)
    requires d.Finite? && IsFresh(f)
    ensures var a := Accumulate(f, Unsigned(d), true);
            && a.rest == [] && Complete(a.field) && a.field.negative == f.negative
            && Denoted(a.field) == (if d.significand == 0 then 0.0 else Decimal(Magnitude(d)))
  {
    if d.significand == 0 {
      assert AllDigits("0") && Continued(0, "0") == 0 by { ContinuedZeros(0, 1); assert "0" == Zeros(1); }
      PlainForm(f, "0");
    } else {
      var n, k := DigitsOf(Magnitude(d)).n, DigitsOf(Magnitude(d)).k;
      GeneralDenotes(f, n, k);
      PlacedForm(f, Digits(n), k + |Digits(n)| - 1);
    }
  }

  /** The text of a finite double is one numeric field with its sign and its first fifteen digits. */
  lemma PrintedDoubleField(d: Double)
    requires d.Finite?
    ensures var a := Accumulate(EMPTY_FIELD, PrintDouble(d), true);
            && PrintDouble(d) != []
            && a.rest == [] && Complete(a.field) && a.field.negative == d.negative
            && Denoted(a.field) == (if d.significand == 0 then 0.0 else Decimal(Magnitude(d)))
  {
    MinusFirst(d.negative, Unsigned(d));
    UnsignedForm(AfterMinus(d.negative), d);
    assert PrintDouble(d) == (if d.negative then "-" else "") + Unsigned(d);
  }

  /** Infinities and NaNs print as words that no numeric field starts with. */
  lemma PrintedWord(d: Double, rest: Bytes)
    requires !d.Finite?
    ensures !Complete(Accumulate(EMPTY_FIELD, PrintDouble(d) + rest, true).field)
  {
    var word := if d.Infinite? then "inf" else "nan";
    assert PrintDouble(d) + rest == (if d.negative then "-" else "") + (word + rest);
    MinusFirst(d.negative, word + rest);
  }

  lemma PrintedLength(d: Double)
    ensures 0 < |PrintDouble(d)| <= LONGEST + 1
  {
    if d.Finite? && d.significand > 0 {
      var x := Magnitude(d);
      var n, k := DigitsOf(x).n, DigitsOf(x).k;
      FifteenDigits(n);
      DigitsExponent(d);
      PlacedLength(Digits(n), k + |Digits(n)| - 1);
    }
  }

  lemma FifteenDigits(n: nat)
    requires n < DECIMALS
    ensures |Digits(n)| <= DIGITS
  {
    PowersOfTen();
    DigitsLength(n, 15);
  }

  lemma DigitsExponent(d: Double)
    requires d.Finite? && d.significand > 0
    ensures -1088 <= DigitsOf(Magnitude(d)).k <= 1030
  {
    var x := Magnitude(d);
    var digits, j := DigitsOf(x), DecimalExponent(x);
    ExponentWithin(d, LOWEST_EXPONENT, HIGHEST_EXPONENT + BITS);
    DecimalUnits(x);
    ShiftedPowers(j);
    ScaleMonotone(10, DECIMALS as real, Units(10, x, j) as real, j);
    ScaleMonotone(10, digits.n as real, 1.0, digits.k);
    if digits.k > j + 15 {
      PowerIncreases(10, j + 15, digits.k);
    }
  }

  /** What a double becomes when its text is read. */
  function Reread(d: Double): Option<Double> {
    DoubleValue(Accumulate(EMPTY_FIELD, PrintDouble(d), true).field)
  }

  function DecimalNumber(n: nat, k: int): (x: real)
    ensures x >= 0.0
    ensures x == 0.0 <==> n == 0
  {
    ScaleMonotone(10, 0.0, n as real, k);
    ScaleSum(10, 0.0, 0.0, k);
    Scale(10, n as real, k)
  }

  /** `d` is the double nearest to a number of at most fifteen decimal digits. */
  ghost predicate FewDigits(d: Double) {
    d.Finite? && exists n: nat, k: int :: IsNearestTo(d, n, k)
  }

  predicate IsNearestTo(d: Double, n: nat, k: int) {
    n < DECIMALS && ToDouble(d.negative, DecimalNumber(n, k)) == Some(d)
  }

  /** A double comes back from its text exactly when it is the nearest one to some number of at most
      fifteen decimal digits, whether or not that is the number printed. */
  lemma SurvivesExactly(d: Double)
    ensures Reread(d) == Some(d) <==> FewDigits(d)
  {
    if !d.Finite? {
      PrintedWord(d, []);
      assert PrintDouble(d) + [] == PrintDouble(d);
    } else {
      PrintedDoubleField(d);
      if d.significand == 0 {
        assert IsNearestTo(d, 0, 0);
      } else {
        var digits := DigitsOf(Magnitude(d));
        if Reread(d) == Some(d) {
          assert IsNearestTo(d, digits.n, digits.k);
        }
        if FewDigits(d) {
          var n: nat, k: int :| IsNearestTo(d, n, k);
          FewDigitsSurvive(d, n, k);
        }
      }
    }
  }

  lemma FewDigitsSurvive(d: Double, n: nat, k: int)
    requires d.Finite? && d.significand > 0 && IsNearestTo(d, n, k)
    ensures Decimal(Magnitude(d)) > 0.0
    ensures ToDouble(d.negative, Decimal(Magnitude(d))) == Some(d)
  {
    ConvertedMagnitude(d.negative, DecimalNumber(n, k));
    DigitsRoundBack(n, k);
    SameRounding(d.negative, Decimal(Magnitude(d)), DecimalNumber(n, k));
  }

  /** Integers of at most fifteen digits survive. */
  lemma SmallIntegersSurvive(d: Double, n: nat)
    requires d.Finite? && Magnitude(d) == n as real && n < DECIMALS
    ensures FewDigits(d)
  {
    if n > 0 {
      DoubleIsFixed(d);
    }
    assert IsNearestTo(d, n, 0);
  }

  const SIXTEEN_DIGITS: Double := Finite(false, 9_007_199_254_740_991, 0)

  /** An integer of sixteen digits that does not survive: 2^53 - 1 becomes 2^53 - 2. */
  lemma SixteenDigitsAreLost()
    ensures Reread(SIXTEEN_DIGITS) == Some(Finite(false, 9_007_199_254_740_990, 0))
  {
    var x := 9_007_199_254_740_991.0;
    var y: Double := Finite(false, 9_007_199_254_740_990, 0);
    Powers();
    ScaleStep(10, 1.0, 15);
    LogIs(10, x, 15);
    assert Scale(10, x, -1) == 900_719_925_474_099.1;
    assert Units(10, x, 1) == 900_719_925_474_099;
    assert Decimal(x) == 9_007_199_254_740_990.0;
    PrintedDoubleField(SIXTEEN_DIGITS);
    DoubleIsFixed(y);
  }
}
