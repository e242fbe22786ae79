/** Rounding positive numbers to the nearest one with a fixed number of binary or decimal digits, and
    when rounding to decimal digits and back to binary ones loses nothing. */
module Rounding {

  /* Powers and logarithms */

  type Base = b: nat | b == 2 || b == 10 witness 2

  function Times(b: Base, x: real): real {
    if b == 2 then 2.0 * x else 10.0 * x
  }

  function Over(b: Base, x: real): real {
    if b == 2 then x / 2.0 else x / 10.0
  }

  /** `x` times `b` to the power of `e`. */
  function Scale(b: Base, x: real, e: int): real
    decreases if e < 0 then -e else e
  {
    if e == 0 then x else if e > 0 then Times(b, Scale(b, x, e - 1)) else Over(b, Scale(b, x, e + 1))
  }

  function Power(b: Base, e: int): (r: real)
    ensures r > 0.0
  {
    ScaleMonotone(b, 0.0, 1.0, e);
    ScaleSum(b, 0.0, 0.0, e);
    Scale(b, 1.0, e)
  }

  lemma ScaleStep(b: Base, x: real, e: int)
    ensures Scale(b, x, e + 1) == Times(b, Scale(b, x, e))
  {
  }

  lemma {:induction false} ScaleSum(b: Base, x: real, y: real, e: int)
    ensures Scale(b, x + y, e) == Scale(b, x, e) + Scale(b, y, e)
    ensures Scale(b, 0.0, e) == 0.0
    decreases if e < 0 then -e else e
  {
    if e > 0 {
      ScaleSum(b, x, y, e - 1);
    } else if e < 0 {
      ScaleSum(b, x, y, e + 1);
    }
  }

  lemma {:induction false} ScaleMonotone(b: Base, x: real, y: real, e: int)
    ensures x < y <==> Scale(b, x, e) < Scale(b, y, e)
    decreases if e < 0 then -e else e
  {
    if e > 0 {
      ScaleMonotone(b, x, y, e - 1);
    } else if e < 0 {
      ScaleMonotone(b, x, y, e + 1);
    }
  }

  lemma {:induction false} ScaleAdd(b: Base, x: real, j: int, k: int)
    ensures Scale(b, Scale(b, x, j), k) == Scale(b, x, j + k)
    decreases if k < 0 then -k else k
  {
    if k > 0 {
      ScaleAdd(b, x, j, k - 1);
      ScaleStep(b, x, j + k - 1);
    } else if k < 0 {
      ScaleAdd(b, x, j, k + 1);
      ScaleStep(b, x, j + k);
    }
  }

  lemma {:induction false} PowerIncreases(b: Base, j: int, k: int)
    requires j < k
    ensures Power(b, j) < Power(b, j + 1) <= Power(b, k)
    decreases k - j
  {
    ScaleStep(b, 1.0, j);
    if j + 1 < k {
      PowerIncreases(b, j + 1, k);
    }
  }

  /** An integer scaled up is an integer. */
  lemma {:induction false} ScaleUp(b: Base, n: int, e: nat)
    ensures Scale(b, n as real, e).Floor as real == Scale(b, n as real, e)
  {
    if e > 0 {
      ScaleUp(b, n, e - 1);
      var m := Scale(b, n as real, e - 1).Floor;
      assert Times(b, m as real) == ((if b == 2 then 2 * m else 10 * m) as real);
    }
  }

  /** The greatest exponent of a power of `b` that is at most `x`. */
  function Log(b: Base, x: real): (e: int)
    requires x > 0.0
    ensures Power(b, e) <= x < Power(b, e + 1)
    decreases if x >= 1.0 then x else 2.0 / x + 11.0
  {
    if Times(b, 1.0) <= x then
      var e := Log(b, Over(b, x));
      ScaleStep(b, 1.0, e);
      ScaleStep(b, 1.0, e + 1);
      e + 1
    else if x < 1.0 then
      Shrinks(x);
      var e := Log(b, Times(b, x));
      ScaleStep(b, 1.0, e - 1);
      ScaleStep(b, 1.0, e);
      e - 1
    else
      ScaleStep(b, 1.0, 0);
      0
  }

  lemma Shrinks(x: real)
    requires 0.0 < x < 1.0
    ensures 2.0 / x >= 2.0
    ensures 2.0 / (2.0 * x) <= 2.0 / x - 1.0
    ensures 2.0 / (10.0 * x) <= 2.0 / x - 1.0
  {
    var y := 1.0 / x;
    assert y * x == 1.0 && y > 1.0;
    assert 2.0 / x == 2.0 * y;
    assert 2.0 / (2.0 * x) == y;
    assert 2.0 / (10.0 * x) == y / 5.0;
  }

  lemma LogAtLeast(b: Base, x: real, e: int)
    requires x > 0.0
    ensures e <= Log(b, x) <==> Power(b, e) <= x
  {
    var n := Log(b, x);
    if n < e && n + 1 < e {
      PowerIncreases(b, n + 1, e);
    } else if e < n {
      PowerIncreases(b, e, n);
    }
  }

  lemma LogIs(b: Base, x: real, e: int)
    requires x > 0.0 && Power(b, e) <= x < Power(b, e + 1)
    ensures Log(b, x) == e
  {
    LogAtLeast(b, x, e);
    LogAtLeast(b, x, e + 1);
  }

  lemma LogIsMonotone(b: Base, x: real, y: real)
    requires 0.0 < x <= y
    ensures Log(b, x) <= Log(b, y)
  {
    LogAtLeast(b, y, Log(b, x));
  }

  function Pow(b: Base, e: nat): (p: nat)
    ensures p >= 1
  {
    if e == 0 then 1 else if b == 2 then 2 * Pow(b, e - 1) else 10 * Pow(b, e - 1)
  }

  lemma {:induction false} ScaleIsProduct(b: Base, x: real, e: nat)
    ensures Scale(b, x, e) == Pow(b, e) as real * x
  {
    if e > 0 {
      ScaleIsProduct(b, x, e - 1);
      var p := Pow(b, e - 1) as real;
      assert 2.0 * (p * x) == (2.0 * p) * x && 10.0 * (p * x) == (10.0 * p) * x;
    }
  }

  lemma {:induction false} ScaleTimes(b: Base, x: real, e: int)
    ensures Scale(b, x, e) == x * Power(b, e)
    decreases if e < 0 then -e else e
  {
    if e > 0 {
      ScaleTimes(b, x, e - 1);
      TimesProduct(b, x, Power(b, e - 1));
    } else if e < 0 {
      ScaleTimes(b, x, e + 1);
      TimesProduct(b, x, Power(b, e + 1));
    }
  }

  lemma TimesProduct(b: Base, x: real, y: real)
    ensures Times(b, x * y) == x * Times(b, y)
    ensures Over(b, x * y) == x * Over(b, y)
  {
  }

  /* Integers */

  /** The nearest integer; of two, the even one. */
  function Nearest(x: real): int {
    var n := x.Floor;
    var part := x - n as real;
    if part < 0.5 || (part == 0.5 && n % 2 == 0) then n else n + 1
  }

  lemma NearestIsNear(x: real, n: int)
    ensures -0.5 <= Nearest(x) as real - x <= 0.5
    ensures -0.5 < n as real - x < 0.5 ==> Nearest(x) == n
    ensures Nearest(n as real) == n
  {
  }

  lemma NearestIsMonotone(x: real, y: real)
    requires x <= y
    ensures Nearest(x) <= Nearest(y)
  {
  }

  lemma NearestBounds(x: real, low: int, high: int)
    requires low as real <= x <= high as real
    ensures low <= Nearest(x) <= high
  {
    NearestIsNear(x, low);
    NearestIsNear(x, high);
    NearestIsMonotone(low as real, x);
    NearestIsMonotone(x, high as real);
  }

  /* Multiples of a power */

  /** The multiple of `b` to the power of `e` nearest to `x`: how many times it, and itself. */
  function Units(b: Base, x: real, e: int): int {
    Nearest(Scale(b, x, -e))
  }

  function Rounded(b: Base, x: real, e: int): real {
    Scale(b, Units(b, x, e) as real, e)
  }

  lemma ScaleBack(b: Base, x: real, e: int)
    ensures Scale(b, Scale(b, x, -e), e) == x == Scale(b, Scale(b, x, e), -e)
  {
    ScaleAdd(b, x, -e, e);
    ScaleAdd(b, x, e, -e);
  }

  /** Rounding moves a number by at most half a unit. */
  lemma RoundedIsNear(b: Base, x: real, e: int)
    ensures x - Scale(b, 0.5, e) <= Rounded(b, x, e) <= x + Scale(b, 0.5, e)
  {
    var y := Scale(b, x, -e);
    ScaleBack(b, x, e);
    NearestIsNear(y, 0);
    ScaleMonotone(b, y + 0.5, Nearest(y) as real, e);
    ScaleMonotone(b, Nearest(y) as real + 0.5, y, e);
    ScaleSum(b, y, 0.5, e);
    ScaleSum(b, Nearest(y) as real, 0.5, e);
  }

  /** Multiples are not moved, and a multiple less than half a unit away is the one chosen. */
  lemma MultipleIsChosen(b: Base, x: real, n: int, e: int)
    requires x - Scale(b, 0.5, e) < Scale(b, n as real, e) < x + Scale(b, 0.5, e)
    ensures Units(b, x, e) == n
  {
    var y := Scale(b, x, -e);
    ScaleBack(b, x, e);
    ScaleSum(b, y, 0.5, e);
    ScaleSum(b, n as real, 0.5, e);
    ScaleMonotone(b, n as real, y + 0.5, e);
    ScaleMonotone(b, y, n as real + 0.5, e);
    NearestIsNear(y, n);
  }

  lemma RoundedIsMonotone(b: Base, x: real, y: real, e: int)
    requires x <= y
    ensures Units(b, x, e) <= Units(b, y, e) && Rounded(b, x, e) <= Rounded(b, y, e)
  {
    ScaleMonotone(b, y, x, -e);
    NearestIsMonotone(Scale(b, x, -e), Scale(b, y, -e));
    ScaleMonotone(b, Units(b, y, e) as real, Units(b, x, e) as real, e);
  }

  lemma UnitsBounds(b: Base, x: real, e: int, low: int, high: int)
    requires Scale(b, low as real, e) <= x <= Scale(b, high as real, e)
    ensures low <= Units(b, x, e) <= high
  {
    ScaleBack(b, x, e);
    ScaleMonotone(b, Scale(b, x, -e), low as real, e);
    ScaleMonotone(b, high as real, Scale(b, x, -e), e);
    NearestBounds(Scale(b, x, -e), low, high);
  }

  /* Binary and decimal digits */

  const BITS: int := 53
  const LOWEST_EXPONENT: int := -1074
  const SIGNIFICANDS: int := 0x20_0000_0000_0000
  const HALF_SIGNIFICANDS: int := 0x10_0000_0000_0000

  const DIGITS: int := 15
  const DECIMALS: int := 1_000_000_000_000_000
  const TENTH_DECIMALS: int := 100_000_000_000_000

  lemma PowersOfTwo()
    ensures Pow(2, 52) == HALF_SIGNIFICANDS && Pow(2, 53) == SIGNIFICANDS
  {
    assert Pow(2, 13) == 0x2000;
    assert Pow(2, 26) == 0x2000 * Pow(2, 13);
    assert Pow(2, 39) == 0x2000 * Pow(2, 26);
    assert Pow(2, 52) == 0x2000 * Pow(2, 39);
  }

  lemma PowersOfTen()
    ensures Pow(10, 14) == TENTH_DECIMALS && Pow(10, 15) == DECIMALS
  {
    assert Pow(10, 7) == 10_000_000;
    assert Pow(10, 14) == 10_000_000 * Pow(10, 7);
  }

  lemma PowerIsWhole(b: Base, e: nat)
    ensures Power(b, e) == Pow(b, e) as real
  {
    ScaleIsProduct(b, 1.0, e);
  }

  lemma Powers()
    ensures Power(2, 52) == HALF_SIGNIFICANDS as real && Power(2, 53) == SIGNIFICANDS as real
    ensures Power(10, 14) == TENTH_DECIMALS as real && Power(10, 15) == DECIMALS as real
  {
    PowersOfTwo();
    PowersOfTen();
    PowerIsWhole(2, 52);
    PowerIsWhole(2, 53);
    PowerIsWhole(10, 14);
    PowerIsWhole(10, 15);
  }

  /** The exponent of the last binary digit of a number rounded to 53 of them, none below 2^-1074. */
  function BinaryExponent(x: real): (e: int)
    requires x > 0.0
    ensures e >= LOWEST_EXPONENT
  {
    var e := Log(2, x) - (BITS - 1);
    if e < LOWEST_EXPONENT then LOWEST_EXPONENT else e
  }

  function Binary(x: real): real
    requires x > 0.0
  {
    Rounded(2, x, BinaryExponent(x))
  }

  /** The exponent of the last decimal digit of a number rounded to fifteen of them. */
  function DecimalExponent(x: real): int
    requires x > 0.0
  {
    Log(10, x) - (DIGITS - 1)
  }

  function Decimal(x: real): real
    requires x > 0.0
  {
    Rounded(10, x, DecimalExponent(x))
  }

  lemma ShiftedPowers(e: int)
    ensures Scale(2, HALF_SIGNIFICANDS as real, e) == Power(2, e + 52)
    ensures Scale(2, SIGNIFICANDS as real, e) == Power(2, e + 53)
    ensures Scale(10, TENTH_DECIMALS as real, e) == Power(10, e + 14)
    ensures Scale(10, DECIMALS as real, e) == Power(10, e + 15)
  {
    Powers();
    ScaleAdd(2, 1.0, 52, e);
    ScaleAdd(2, 1.0, 53, e);
    ScaleAdd(10, 1.0, 14, e);
    ScaleAdd(10, 1.0, 15, e);
  }

  /** The significand has at most 53 binary digits, and exactly as many above the lowest exponent. */
  lemma BinaryUnits(x: real)
    requires x > 0.0
    ensures var e := BinaryExponent(x);
            && 0 <= Units(2, x, e) <= SIGNIFICANDS
            && (e > LOWEST_EXPONENT ==> Units(2, x, e) >= HALF_SIGNIFICANDS)
            && x < Power(2, e + 53)
            && (e > LOWEST_EXPONENT ==> Power(2, e + 52) <= x)
  {
    var e := BinaryExponent(x);
    ShiftedPowers(e);
    LogAtLeast(2, x, e + 53);
    ScaleSum(2, 0.0, 0.0, e);
    UnitsBounds(2, x, e, 0, SIGNIFICANDS);
    if e > LOWEST_EXPONENT {
      UnitsBounds(2, x, e, HALF_SIGNIFICANDS, SIGNIFICANDS);
    }
  }

  /** A number with at most 53 binary digits, none below the lowest exponent, is not moved. */
  lemma BinaryIsFixed(x: real, s: nat, e: int)
    requires x > 0.0 && x == Scale(2, s as real, e) && s <= SIGNIFICANDS && e >= LOWEST_EXPONENT
    ensures Binary(x) == x
  {
    if s == SIGNIFICANDS {
      ScaleStep(2, HALF_SIGNIFICANDS as real, e);
      ShiftedPowers(e);
      ShiftedPowers(e + 1);
      BinaryIsFixed(x, HALF_SIGNIFICANDS, e + 1);
    } else {
      var low := BinaryExponent(x);
      ShiftedPowers(e);
      ScaleMonotone(2, s as real, SIGNIFICANDS as real, e);
      LogAtLeast(2, x, e + 53);
      ScaleAdd(2, s as real, e - low, low);
      ScaleUp(2, s, e - low);
      MultipleIsFixed(2, x, Scale(2, s as real, e - low).Floor, low);
    }
  }

  lemma MultipleIsFixed(b: Base, x: real, n: int, e: int)
    requires x == Scale(b, n as real, e)
    ensures Rounded(b, x, e) == x
  {
    ScaleBack(b, n as real, e);
    NearestIsNear(n as real, n);
  }

  lemma BinaryBounds(x: real)
    requires x > 0.0
    ensures var e := BinaryExponent(x);
            && 0.0 <= Binary(x) <= Power(2, e + 53)
            && (e > LOWEST_EXPONENT ==> Power(2, e + 52) <= Binary(x))
  {
    var e := BinaryExponent(x);
    var s := Units(2, x, e);
    BinaryUnits(x);
    ShiftedPowers(e);
    ScaleSum(2, 0.0, 0.0, e);
    ScaleMonotone(2, s as real, 0.0, e);
    ScaleMonotone(2, SIGNIFICANDS as real, s as real, e);
    ScaleMonotone(2, s as real, HALF_SIGNIFICANDS as real, e);
  }

  lemma BinaryIsMonotone(x: real, y: real)
    requires 0.0 < x <= y
    ensures Binary(x) <= Binary(y)
  {
    var d, e := BinaryExponent(x), BinaryExponent(y);
    LogIsMonotone(2, x, y);
    if d == e {
      RoundedIsMonotone(2, x, y, e);
    } else {
      BinaryBounds(x);
      BinaryBounds(y);
      if d + 53 < e + 52 {
        PowerIncreases(2, d + 53, e + 52);
      }
    }
  }

  /* There and back */

  lemma {:induction false} DivisibleByFive(e: nat)
    ensures Pow(2, e) % 5 != 0
    ensures e > 0 ==> Pow(10, e) % 5 == 0
  {
    if e > 0 {
      DivisibleByFive(e - 1);
      FactorsAndFive(Pow(2, e - 1));
      FactorsAndFive(Pow(10, e - 1));
    }
  }

  lemma FactorsAndFive(n: nat)
    ensures n % 5 != 0 ==> (2 * n) % 5 != 0
    ensures (10 * n) % 5 == 0
  {
    assert 10 * n == 5 * (2 * n);
  }

  /** The unit of the last binary digit is never that of the last decimal one. */
  lemma UnitsDiffer(j: int, n: int)
    requires n > 0
    ensures Power(10, j) != Power(2, -n)
  {
    var unit := Power(2, -n);
    PowerIncreases(2, -n, 0);
    if j >= 0 {
      if j > 0 {
        PowerIncreases(10, 0, j);
      }
    } else if Power(10, j) == unit {
      ScaleAdd(10, 1.0, j, -j);
      ScaleAdd(2, 1.0, -n, n);
      ScaleIsProduct(10, unit, -j);
      ScaleIsProduct(2, unit, n);
      SameProduct(Pow(10, -j), Pow(2, n), unit);
      DivisibleByFive(-j);
      DivisibleByFive(n);
      assert false;
    }
  }

  lemma SameProduct(p: nat, q: nat, x: real)
    requires x > 0.0 && p as real * x == q as real * x
    ensures p == q
  {
    assert p as real * x / x == p as real && q as real * x / x == q as real;
  }

  lemma DecimalUnits(x: real)
    requires x > 0.0
    ensures var j := DecimalExponent(x);
            && Power(10, j + 14) <= x < Power(10, j + 15)
            && TENTH_DECIMALS <= Units(10, x, j) <= DECIMALS
            && 0.0 < Power(10, j + 14) <= Decimal(x)
  {
    var j := DecimalExponent(x);
    ShiftedPowers(j);
    UnitsBounds(10, x, j, TENTH_DECIMALS, DECIMALS);
    ScaleMonotone(10, Units(10, x, j) as real, TENTH_DECIMALS as real, j);
  }

  lemma HalfUnit(b: Base, e: int)
    ensures 2.0 * Scale(b, 0.5, e) == Power(b, e)
  {
    ScaleSum(b, 0.5, 0.5, e);
  }

  /** Among numbers that are not very small, the last of 53 binary digits is finer than the last of
      fifteen decimal ones. */
  lemma BinaryIsFiner(x: real, e: int)
    requires x > 0.0 && Power(2, e + 52) <= x
    ensures Power(2, e) < Power(10, DecimalExponent(x))
  {
    var j := DecimalExponent(x);
    DecimalUnits(x);
    ShiftedPowers(e);
    ShiftedPowers(j);
    ScaleTimes(2, HALF_SIGNIFICANDS as real, e);
    ScaleTimes(10, DECIMALS as real, j);
  }

  /** Where binary digits are finer, a decimal `n` times ten to the `k` within half a binary unit of `x`
      is the one that `x` is rounded to, or that one lies between the two. */
  lemma DecimalIsBetween(x: real, n: nat, k: int, half: real)
    requires x > 0.0 && n < DECIMALS && half < Scale(10, 0.5, DecimalExponent(x))
    requires var d := Scale(10, n as real, k);
             0.0 <= d && x - half <= d <= x + half
    ensures var d := Scale(10, n as real, k);
            Decimal(x) == d || d < Decimal(x) <= x
  {
    var d, j := Scale(10, n as real, k), DecimalExponent(x);
    DecimalUnits(x);
    ShiftedPowers(j);
    if k >= j {
      ScaleAdd(10, n as real, k - j, j);
      ScaleUp(10, n, k - j);
      MultipleIsChosen(10, x, Scale(10, n as real, k - j).Floor, j);
    } else {
      ShiftedPowers(k);
      ScaleMonotone(10, n as real, DECIMALS as real, k);
      if k + 15 < j + 14 {
        PowerIncreases(10, k + 15, j + 14);
      }
      MultipleIsChosen(10, x, TENTH_DECIMALS, j);
    }
  }

  /** Where decimal digits are finer, rounding to them moves `x` by less than half a binary unit. */
  lemma FineDecimals(x: real, s: nat, low: int)
    requires x > 0.0 && x == Scale(2, s as real, low)
    requires Power(10, DecimalExponent(x)) < Power(2, low)
    ensures 0.0 < Decimal(x) < Power(2, low + 53)
    ensures Units(2, Decimal(x), low) == s
  {
    var j, p := DecimalExponent(x), Decimal(x);
    DecimalUnits(x);
    RoundedIsNear(10, x, j);
    HalfUnit(10, j);
    HalfUnit(2, low);
    ShiftedPowers(j);
    ScaleTimes(10, DECIMALS as real, j);
    ShiftedPowers(low);
    ScaleTimes(2, SIGNIFICANDS as real, low);
    MultipleIsChosen(2, p, s, low);
  }

  lemma FineDecimalsRoundBack(x: real, s: nat, low: int)
    requires low == LOWEST_EXPONENT
    requires x > 0.0 && x == Scale(2, s as real, low)
    requires Power(10, DecimalExponent(x)) < Power(2, low)
    ensures Decimal(x) > 0.0 && Binary(Decimal(x)) == x
  {
    FineDecimals(x, s, low);
    LogAtLeast(2, Decimal(x), low + 53);
    assert BinaryExponent(Decimal(x)) == low;
  }

  /** If a number is what any fifteen decimal digits round to, its own fifteen digits do. */
  lemma DigitsRoundBack(n: nat, k: int)
    requires 0 < n < DECIMALS
    requires Scale(10, n as real, k) > 0.0
    requires Binary(Scale(10, n as real, k)) > 0.0
    ensures var x := Binary(Scale(10, n as real, k));
            Decimal(x) > 0.0 && Binary(Decimal(x)) == x
  {
    var d := Scale(10, n as real, k);
    var x, e := Binary(d), BinaryExponent(d);
    var s, j := Units(2, d, e), DecimalExponent(x);
    BinaryUnits(d);
    DecimalUnits(x);
    BinaryIsFixed(x, s, e);
    if e > LOWEST_EXPONENT {
      ShiftedPowers(e);
      ScaleMonotone(2, s as real, HALF_SIGNIFICANDS as real, e);
      BinaryIsFiner(x, e);
    }
    UnitsDiffer(j, -LOWEST_EXPONENT);
    if Power(2, e) < Power(10, j) {
      RoundedIsNear(2, d, e);
      HalfUnit(2, e);
      HalfUnit(10, j);
      DecimalIsBetween(x, n, k, Scale(2, 0.5, e));
      if d < Decimal(x) <= x {
        BinaryIsMonotone(d, Decimal(x));
        BinaryIsMonotone(Decimal(x), x);
      }
    } else {
      FineDecimalsRoundBack(x, s, e);
    }
  }

  /* Nearest of all */

  function Distance(x: real, y: real): real {
    if x <= y then y - x else x - y
  }

  lemma ScaleDistance(b: Base, x: real, y: real, e: int)
    ensures Distance(Scale(b, x, e), Scale(b, y, e)) == Scale(b, Distance(x, y), e)
  {
    ScaleMonotone(b, x, y, e);
    ScaleMonotone(b, y, x, e);
    if x <= y {
      ScaleSum(b, x, y - x, e);
    } else {
      ScaleSum(b, y, x - y, e);
    }
  }

  /** No integer is nearer, and another one that is as near leaves the even one chosen. */
  lemma NearestIsNearest(x: real, n: int)
    ensures Distance(Nearest(x) as real, x) <= Distance(n as real, x)
    ensures Distance(Nearest(x) as real, x) == Distance(n as real, x) && n != Nearest(x) ==> Nearest(x) % 2 == 0
  {
    var low := x.Floor;
    if n < low {
      assert n as real <= low as real - 1.0;
    } else if n > low + 1 {
      assert n as real >= low as real + 2.0;
    }
  }

  /** Of the multiples of a unit. */
  lemma RoundedIsNearest(b: Base, x: real, e: int, n: int)
    ensures Distance(Rounded(b, x, e), x) <= Distance(Scale(b, n as real, e), x)
    ensures Distance(Rounded(b, x, e), x) == Distance(Scale(b, n as real, e), x) && n != Units(b, x, e) ==>
              Units(b, x, e) % 2 == 0
  {
    var y := Scale(b, x, -e);
    var u := Units(b, x, e);
    ScaleBack(b, x, e);
    NearestIsNearest(y, n);
    ScaleDistance(b, u as real, y, e);
    ScaleDistance(b, n as real, y, e);
    ScaleMonotone(b, Distance(n as real, y), Distance(u as real, y), e);
    ScaleMonotone(b, Distance(u as real, y), Distance(n as real, y), e);
  }

  /** What `x` is rounded to is at least as near to it as `d`, and even when they are equally near. */
  ghost predicate AsNear(b: Base, x: real, e: int, d: real) {
    && Distance(Rounded(b, x, e), x) <= Distance(d, x)
    && (Distance(Rounded(b, x, e), x) == Distance(d, x) && d != Rounded(b, x, e) ==> Units(b, x, e) % 2 == 0)
  }

  /** Of the numbers `n` times `b` to the `k`, whatever `k` is, that are no less than `low` units or no
      finer than the unit. */
  lemma RoundedIsBest(b: Base, x: real, e: int, n: int, k: int, low: int)
    requires k >= e || (Scale(b, low as real, e) <= x && Scale(b, n as real, k) < Scale(b, low as real, e))
    ensures AsNear(b, x, e, Scale(b, n as real, k))
  {
    if k >= e {
      ScaleAdd(b, n as real, k - e, e);
      ScaleUp(b, n, k - e);
      RoundedIsNearest(b, x, e, Scale(b, n as real, k - e).Floor);
    } else {
      RoundedIsNearest(b, x, e, low);
    }
  }

  /** Rounding to 53 binary digits: no number of as many is nearer, and of two the even one is chosen. */
  lemma BinaryIsNearest(x: real, s: nat, k: int)
    requires x > 0.0 && s < SIGNIFICANDS && k >= LOWEST_EXPONENT
    ensures AsNear(2, x, BinaryExponent(x), Scale(2, s as real, k))
  {
    var e := BinaryExponent(x);
    BinaryUnits(x);
    if k < e {
      ShiftedPowers(k);
      ShiftedPowers(e);
      ScaleMonotone(2, s as real, SIGNIFICANDS as real, k);
      if k + 53 < e + 52 {
        PowerIncreases(2, k + 53, e + 52);
      }
    }
    RoundedIsBest(2, x, e, s, k, HALF_SIGNIFICANDS);
  }

  /** Rounding to fifteen decimal digits, likewise. */
  lemma DecimalIsNearest(x: real, n: nat, k: int)
    requires x > 0.0 && n < DECIMALS
    ensures AsNear(10, x, DecimalExponent(x), Scale(10, n as real, k))
  {
    var e := DecimalExponent(x);
    DecimalUnits(x);
    ShiftedPowers(e);
    if k < e {
      ShiftedPowers(k);
      ScaleMonotone(10, n as real, DECIMALS as real, k);
      if k + 15 < e + 14 {
        PowerIncreases(10, k + 15, e + 14);
      }
    }
    RoundedIsBest(10, x, e, n, k, TENTH_DECIMALS);
  }
}
