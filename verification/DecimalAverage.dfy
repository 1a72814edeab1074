/** The average document length: a decimal division in the default 28-digit context,
    followed by quantize to four places.  Both steps round half to even, so the value is
    rounded twice; this module proves that the double rounding is harmless.
    Decimals are scaled naturals: q stands for q / 10_000. */
module DecimalAverage {

  // ---------------------------------------------------------------- one rounding

  function RoundHalfEven(n: nat, d: nat): nat
    requires d > 0
  {
    var q, r := n / d, n % d;
    if 2 * r < d || (2 * r == d && q % 2 == 0) then q else q + 1
  }

  /** Correct rounding, stated without an algorithm: nearest, ties to even
      (section 4.3.1 of IEEE 754-2008). */
  ghost predicate IsNearestEven(n: nat, d: nat, q: nat) {
    var twice := 2 * (n - q * d);
    && -twice <= d && twice <= d
    && (twice == d || -twice == d ==> q % 2 == 0)
  }

  lemma MulGap(a: int, b: int, d: nat)
    requires a < b
    ensures a * d + d <= b * d
  {
    assert b * d == a * d + d + (b - a - 1) * d;
  }

  /** The algorithm is the specification: there is one correctly rounded value. */
  lemma RoundHalfEvenIsCorrectRounding(n: nat, d: nat, q: nat)
    requires d > 0
    ensures IsNearestEven(n, d, q) <==> q == RoundHalfEven(n, d)
  {
    var k, r := n / d, n % d;
    assert n == k * d + r;
    assert (k + 1) * d == k * d + d;
    if q < k {
      MulGap(q, k, d);
    } else if q > k + 1 {
      MulGap(k + 1, q, d);
    }
  }

  /** Rounding respects order. */
  lemma RoundHalfEvenMonotone(n: nat, n': nat, d: nat)
    requires d > 0 && n <= n'
    ensures RoundHalfEven(n, d) <= RoundHalfEven(n', d)
  {
    var q, q' := RoundHalfEven(n, d), RoundHalfEven(n', d);
    RoundHalfEvenIsCorrectRounding(n, d, q);
    RoundHalfEvenIsCorrectRounding(n', d, q');
    if q' < q {
      MulGap(q', q, d);
    }
  }

  /** Rounding never leaves an integer range the exact quotient lies in. */
  lemma RoundHalfEvenBetween(n: nat, d: nat, low: nat, high: nat)
    requires d > 0 && low * d <= n <= high * d
    ensures low <= RoundHalfEven(n, d) <= high
  {
    var q := RoundHalfEven(n, d);
    RoundHalfEvenIsCorrectRounding(n, d, q);
    if q < low {
      MulGap(q, low, d);
    } else if high < q {
      MulGap(high, q, d);
    }
  }

  // ---------------------------------------------------------------- two roundings

  function Pow10(k: nat): (p: nat)
    ensures p > 0
  {
    if k == 0 then 1 else 10 * Pow10(k - 1)
  }

  const D27 := 1_000_000_000_000_000_000_000_000_000
  const D28 := 10_000_000_000_000_000_000_000_000_000

  /** num / den scaled by a power of ten so that its integer part has 28 digits. */
  datatype Scaled = Scaled(num: nat, den: Positive, exponent: int)

  type Positive = n: nat | 0 < n witness 1

  function ScaleUp(n: nat, d: nat, k: nat): Scaled
    requires 0 < n && 0 < d && n < D28 * d
    decreases D27 * d - n
  {
    if n < D27 * d then ScaleUp(10 * n, d, k + 1) else Scaled(n, d, k)
  }

  function ScaleDown(n: nat, d: nat, k: int): Scaled
    requires 0 < d && n >= D27 * d
    decreases n - D27 * d
  {
    if n >= D28 * d then ScaleDown(n, 10 * d, k - 1) else Scaled(n, d, k)
  }

  datatype Quantized = Value(tenThousandths: nat) | InvalidOperation

  /** Division to 28 significant digits: coefficient times 10 to the minus exponent. */
  function DivideTo28Digits(n: nat, d: nat): (nat, int)
    requires 0 < n && 0 < d
  {
    var s := if n < D27 * d then ScaleUp(n, d, 0) else ScaleDown(n, d, 0);
    (RoundHalfEven(s.num, s.den), s.exponent)
  }

  /** quantize(0.0001): invalid when the result would need more than 28 digits. */
  function Quantize(coefficient: nat, exponent: int): Quantized {
    if exponent < 4 then InvalidOperation
    else var q := RoundHalfEven(coefficient, Pow10(exponent - 4));
         if q < D28 then Value(q) else InvalidOperation
  }

  function AverageLength(total: nat, count: nat): Quantized {
    if count == 0 || total == 0 then Value(0)
    else var (coefficient, exponent) := DivideTo28Digits(total, count);
         Quantize(coefficient, exponent)
  }

  lemma {:induction false} ScaleUpShape(n: nat, d: nat, k: nat)
    requires 0 < n && 0 < d && n < D28 * d
    ensures var s := ScaleUp(n, d, k);
      s.den == d && s.exponent >= k && s.num == n * Pow10(s.exponent - k) && D27 * d <= s.num < D28 * d
    decreases D27 * d - n
  {
    if n < D27 * d {
      ScaleUpShape(10 * n, d, k + 1);
      var e := ScaleUp(10 * n, d, k + 1).exponent;
      assert n * Pow10(e - k) == 10 * n * Pow10(e - k - 1);
    }
  }

  lemma {:induction false} ScaleDownShape(n: nat, d: nat, k: int)
    requires 0 < d && n >= D27 * d
    ensures ScaleDown(n, d, k).exponent <= k
    decreases n - D27 * d
  {
    if n >= D28 * d { ScaleDownShape(n, 10 * d, k - 1); }
  }

  lemma {:induction false} Pow10Even(k: nat)
    requires k > 0
    ensures Pow10(k) % 2 == 0
  {
    var half := 5 * Pow10(k - 1);
    assert Pow10(k) == 2 * half;
    TwiceIsEven(half);
  }

  lemma TwiceIsEven(n: nat)
    ensures (2 * n) % 2 == 0
  {
  }

  lemma {:induction false} Pow10Monotone(j: nat, k: nat)
    requires j <= k
    ensures Pow10(j) <= Pow10(k)
  {
    if j < k { Pow10Monotone(j, k - 1); }
  }

  lemma Pow10Shift(k: nat)
    requires k >= 4
    ensures Pow10(k) == 10_000 * Pow10(k - 4)
  {
    assert Pow10(k) == 10 * Pow10(k - 1) && Pow10(k - 1) == 10 * Pow10(k - 2);
    assert Pow10(k - 2) == 10 * Pow10(k - 3) && Pow10(k - 3) == 10 * Pow10(k - 4);
  }

  lemma MulSub(a: int, b: int, d: int)
    ensures (a - 2 * b) * d == a * d - 2 * (b * d)
    ensures (2 * b) * d == 2 * (b * d)
  {
  }

  lemma MulNonneg(g: nat, d: nat)
    ensures g * d >= 0
  {
  }

  /** One side of the argument below, for offsets x, u, v with x * P == u + v * d. */
  lemma HalfStep(x: int, u: int, v: int, d: nat, P: nat, xP: int, vd: int, Pd: int)
    requires 0 < d < P && P % 2 == 0 && xP == u + vd
    requires xP == x * P && vd == v * d && Pd == d * P
    requires 2 * u <= d && 2 * v <= P
    ensures 2 * x <= d && (2 * x == d ==> 2 * v == P)
  {
    var g: nat := P - 2 * v;
    MulSub(P, v, d);
    MulSub(0, x, P);
    MulNonneg(g, d);
    assert g * d == Pd - 2 * vd && (2 * x) * P == 2 * xP;
    if 2 * x > d {
      MulGap(d, 2 * x, P);
    } else if 2 * x == d && g > 1 {
      MulGap(1, g, d);
    }
  }

  /** Rounding m/d first to the grid 1/P and then to the integers gives the same as
      rounding once, as soon as d < P: the first error is too small to reach a tie. */
  lemma RoundingTwiceIsRoundingOnce(m: nat, d: nat, P: nat, c: nat, q: nat)
    requires 0 < d < P && P % 2 == 0
    requires IsNearestEven(m * P, d, c) && IsNearestEven(c, P, q)
    ensures IsNearestEven(m, d, q)
  {
    var x, u, v := m - q * d, m * P - c * d, c - q * P;
    Offsets(m, d, P, c, q);
    NearestOffset(m * P, d, c);
    NearestOffset(c, P, q);
    BothHalves(x, u, v, d, P);
  }

  /** The argument for offsets in either direction. */
  lemma BothHalves(x: int, u: int, v: int, d: nat, P: nat)
    requires 0 < d < P && P % 2 == 0 && x * P == u + v * d
    requires 2 * u <= d && -2 * u <= d && 2 * v <= P && -2 * v <= P
    ensures 2 * x <= d && (2 * x == d ==> 2 * v == P)
    ensures -2 * x <= d && (-2 * x == d ==> -2 * v == P)
  {
    HalfStep(x, u, v, d, P, x * P, v * d, d * P);
    Negated(x, P);
    Negated(v, d);
    HalfStep(-x, -u, -v, d, P, (-x) * P, (-v) * d, d * P);
  }

  lemma Negated(a: int, b: int)
    ensures (-a) * b == -(a * b)
  {
  }

  lemma NearestOffset(n: nat, d: nat, q: nat)
    requires IsNearestEven(n, d, q)
    ensures 2 * n <= 2 * (q * d) + d && 2 * (q * d) <= 2 * n + d
  {
  }

  lemma Offsets(m: int, d: int, P: int, c: int, q: int)
    ensures (m - q * d) * P == (m * P - c * d) + (c - q * P) * d
  {
    calc {
      (m - q * d) * P;
      m * P - (q * d) * P;
      { assert (q * d) * P == (q * P) * d; }
      m * P - (q * P) * d;
      (m * P - c * d) + (c * d - (q * P) * d);
      (m * P - c * d) + (c - q * P) * d;
    }
  }

  /** With 28 digits in the integer part, a total below 10^23 leaves more digits after
      the fourth decimal than the count has. */
  lemma ExponentIsLarge(total: nat, count: nat, e: nat) returns (P: nat)
    requires 0 < count && total < 100_000_000_000_000_000_000_000
    requires D27 * count <= total * Pow10(e)
    ensures e > 4 && P == Pow10(e - 4) && count < P && P % 2 == 0
    ensures total * Pow10(e) == (10_000 * total) * P
  {
    if e <= 4 {
      Pow10Monotone(e, 4);
      assert Pow10(4) == 10_000 by { Pow10Shift(4); }
      MulGap(total, 100_000_000_000_000_000_000_000, Pow10(e));
      assert false;
    }
    Pow10Shift(e);
    Pow10Even(e - 4);
    P := Pow10(e - 4);
    assert total * Pow10(e) == (10_000 * total) * P;
    MulGap(10_000 * total, D27, P);
  }

  /** The double rounding is exact rounding for every total below 10^23. */
  lemma AverageIsCorrectlyRounded(total: nat, count: nat)
    requires 0 < count && total < 100_000_000_000_000_000_000_000
    ensures AverageLength(total, count) == Value(RoundHalfEven(10_000 * total, count))
  {
    if total == 0 {
      return;
    }
    ScaleUpShape(total, count, 0);
    var e := ScaleUp(total, count, 0).exponent;
    var P := ExponentIsLarge(total, count, e);
    var c := RoundHalfEven(total * Pow10(e), count);
    RoundHalfEvenIsCorrectRounding(total * Pow10(e), count, c);
    var q := RoundHalfEven(c, P);
    RoundHalfEvenIsCorrectRounding(c, P, q);
    RoundingTwiceIsRoundingOnce(10_000 * total, count, P, c, q);
    RoundHalfEvenIsCorrectRounding(10_000 * total, count, q);
    RoundHalfEvenBetween(10_000 * total, count, 0, 10_000 * total);
  }

  /** Converse size bound: an average below 10^8 can only come from a total of at most
      10^8 per chunk, whatever the two roundings did. */
  lemma SmallAverageSmallTotal(total: nat, count: nat, q: nat)
    requires 0 < count && AverageLength(total, count) == Value(q) && q < 1_000_000_000_000
    ensures total <= 100_000_000 * count
  {
    if total == 0 {
      return;
    }
    if total >= D27 * count {
      ScaleDownShape(total, count, 0);
      assert false;
    }
    ScaleUpShape(total, count, 0);
    var e := ScaleUp(total, count, 0).exponent;
    Pow10Shift(e);
    var P := Pow10(e - 4);
    var N := total * Pow10(e);
    var c := RoundHalfEven(N, count);
    RoundHalfEvenIsCorrectRounding(N, count, c);
    RoundHalfEvenIsCorrectRounding(c, P, q);
    Regroup(total, P);
    CoarseBound(10_000 * total, count, P, c, q);
  }

  lemma Regroup(total: nat, P: nat)
    ensures total * (10_000 * P) == (10_000 * total) * P
  {
  }

  lemma CoarseBound(m: nat, d: nat, P: nat, c: nat, q: nat)
    requires 0 < d && 0 < P && q < 1_000_000_000_000
    requires IsNearestEven(m * P, d, c) && IsNearestEven(c, P, q)
    ensures m <= 1_000_000_000_000 * d
  {
    var T := 1_000_000_000_000;
    MulGap(q, T, P);
    assert 2 * c <= 2 * (T * P) - P;
    MulGap(2 * c, 2 * (T * P), d);
    assert (2 * (T * P)) * d == (2 * (T * d)) * P;
    assert (2 * c) * d == 2 * (c * d);
    assert 2 * (m * P) == (2 * m) * P;
    if m > T * d { MulGap(2 * (T * d), 2 * m, P); }
  }

  lemma TenfoldGap(total: nat, e: nat, f: nat)
    requires e < f
    ensures 10 * (total * Pow10(e)) <= total * Pow10(f)
  {
    Pow10Monotone(e + 1, f);
    var low, high := Pow10(e), Pow10(f);
    assert 10 * low <= high;
    assert total * (10 * low) == 10 * (total * low);
    MulLe(total, 10 * low, high);
  }

  lemma MulLe(a: nat, b: nat, c: nat)
    requires b <= c
    ensures a * b <= a * c
  {
  }

  lemma ExponentIs(total: nat, count: nat, e: nat)
    requires 0 < count && 0 < total < D28 * count
    requires D27 * count <= total * Pow10(e) < D28 * count
    ensures ScaleUp(total, count, 0) == Scaled(total * Pow10(e), count, e)
  {
    ScaleUpShape(total, count, 0);
    OneScaling(total, count, e, ScaleUp(total, count, 0).exponent);
  }

  /** Only one power of ten scales the quotient to 28 digits. */
  lemma OneScaling(total: nat, count: nat, e: nat, f: nat)
    requires D27 * count <= total * Pow10(e) < D28 * count
    requires D27 * count <= total * Pow10(f) < D28 * count
    ensures e == f
  {
    if f < e {
      LargerScaling(total, count, f, e);
    } else if e < f {
      LargerScaling(total, count, e, f);
    }
  }

  lemma LargerScaling(total: nat, count: nat, e: nat, f: nat)
    requires D27 * count <= total * Pow10(e) && e < f
    ensures D28 * count <= total * Pow10(f)
  {
    TenfoldGap(total, e, f);
    OutOfRange(count, total * Pow10(e), total * Pow10(f));
  }

  lemma OutOfRange(count: nat, x: int, y: int)
    requires D27 * count <= x && 10 * x <= y
    ensures D28 * count <= y
  {
  }

  /** Without a bound the two roundings can disagree with one: here the total is 4.5 * 10^23
      over about 10^27 chunks.  The exact quotient is just above 0.00045, but 28 digits round
      it onto the tie. */
  lemma DoubleRoundingFailsAboveTheBound()
    ensures var count, total := 1_000_000_000_000_000_000_000_011_111 as nat, 450_000_000_000_000_000_000_005 as nat;
      AverageLength(total, count) == Value(4) && RoundHalfEven(10_000 * total, count) == 5
  {
    var count, total := 1_000_000_000_000_000_000_000_011_111 as nat, 450_000_000_000_000_000_000_005 as nat;
    assert Pow10(27) == D27 by {
      Pow10Shift(27); Pow10Shift(23); Pow10Shift(19); Pow10Shift(15); Pow10Shift(11); Pow10Shift(7);
      assert Pow10(3) == 1000;
    }
    assert Pow10(31) == 10_000 * D27 by { Pow10Shift(31); }
    ExponentIs(total, count, 31);
    var c := 4_500_000_000_000_000_000_000_000_000;
    RoundHalfEvenIsCorrectRounding(total * Pow10(31), count, c);
    RoundHalfEvenIsCorrectRounding(c, D27, 4);
    RoundHalfEvenIsCorrectRounding(10_000 * total, count, 5);
  }

  // ---------------------------------------------------------------- when there is an average

  /** With so many digits after the fourth decimal nothing can overflow 28 digits. */
  lemma LongFractionFits(total: nat, count: nat, e: nat)
    requires 0 < count && e >= 5 && total * Pow10(e) < D28 * count
    ensures RoundHalfEven(10_000 * total, count) <= D27
    ensures RoundHalfEven(RoundHalfEven(total * Pow10(e), count), Pow10(e - 4)) < D28
  {
    Pow10Shift(e);
    var P := Pow10(e - 4);
    assert P == 10 * Pow10(e - 5);
    Regroup(total, P);
    TenTimesLess(10_000 * total, Pow10(e - 5), P, count);
    RoundHalfEvenBetween(10_000 * total, count, 0, D27);
    var c := RoundHalfEven(total * Pow10(e), count);
    RoundHalfEvenBetween(total * Pow10(e), count, 0, D28);
    TenTimesDown(c, P, Pow10(e - 5));
    RoundHalfEvenBetween(c, P, 0, D27);
  }

  lemma TenTimesLess(m: nat, tenth: nat, P: nat, count: nat)
    requires tenth > 0 && P == 10 * tenth && m * P < D28 * count
    ensures 0 <= m <= D27 * count
  {
    assert m * P == 10 * (m * tenth);
    MulLe(m, 1, tenth);
  }

  lemma TenTimesDown(c: nat, P: nat, tenth: nat)
    requires tenth > 0 && P == 10 * tenth && c <= D28
    ensures 0 * P <= c <= D27 * P
  {
    MulLe(D27, 1, tenth);
  }

  /** There is an average exactly when the correctly rounded one has at most 28 digits. */
  lemma AverageIsValidExactlyWhenItFits(total: nat, count: nat)
    requires 0 < count
    ensures AverageLength(total, count).Value? <==> RoundHalfEven(10_000 * total, count) < D28
  {
    if total == 0 {
      RoundHalfEvenBetween(0, count, 0, 0);
    } else if total >= D27 * count {
      ScaleDownShape(total, count, 0);
      RoundHalfEvenAtLeast(10_000 * total, count, D28);
    } else {
      ScaleUpShape(total, count, 0);
      var e := ScaleUp(total, count, 0).exponent;
      if e >= 5 {
        LongFractionFits(total, count, e);
      } else {
        ShortFractionFits(total, count, e);
      }
    }
  }

  lemma RoundHalfEvenAtLeast(n: nat, d: nat, low: nat)
    requires 0 < d && low * d <= n
    ensures low <= RoundHalfEven(n, d)
  {
    RoundHalfEvenMonotone(low * d, n, d);
    RoundHalfEvenBetween(low * d, d, low, low);
  }

  lemma ShortFractionFits(total: nat, count: nat, e: nat)
    requires 0 < count && e < 5 && D27 * count <= total * Pow10(e)
    ensures RoundHalfEven(10_000 * total, count) < D28 <==>
      e == 4 && RoundHalfEven(RoundHalfEven(total * Pow10(e), count), Pow10(0)) < D28
  {
    assert Pow10(0) == 1 && Pow10(1) == 10 && Pow10(2) == 100 && Pow10(3) == 1_000 && Pow10(4) == 10_000;
    if e == 4 {
      var c := RoundHalfEven(10_000 * total, count);
      RoundHalfEvenBetween(c, 1, c, c);
    } else {
      Pow10Monotone(e, 3);
      MulLe(total, Pow10(e), 1_000);
      RoundHalfEvenAtLeast(10_000 * total, count, D28);
    }
  }
}
