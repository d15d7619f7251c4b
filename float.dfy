/** The resize ratios of `prepare_image` as app.py computes them: in IEEE 754
    binary64, where `ratio = limit / edge` is rounded to the nearest double,
    `side * ratio` is rounded again, and `int()` truncates. ImageSize computes
    the same steps on exact fractions; this module shows where the two part. */
module FloatResize {
  import opened Results
  import opened ImageSize

  /** 2 raised to `n`, a byte at a time. */
  function Pow2Nat(n: nat): (r: nat)
    ensures r >= 1
  {
    if n < 8 then [1, 2, 4, 8, 16, 32, 64, 128][n] else 256 * Pow2Nat(n - 8)
  }

  /** 2 raised to `-n`, a byte at a time. */
  function Pow2Neg(n: nat): (r: real)
    ensures r > 0.0
  {
    if n < 8 then [1.0, 0.5, 0.25, 0.125, 0.0625, 0.03125, 0.015625, 0.0078125][n]
    else Pow2Neg(n - 8) / 256.0
  }

  /** 2 raised to `e`, for any integer `e`. */
  function Pow2(e: int): (r: real)
    ensures r > 0.0
  {
    if e >= 0 then Pow2Nat(e) as real else Pow2Neg(-e)
  }

  /** A positive binary64 number in the normal range: a 53-bit significand
      times a power of two. (The sizes and ratios of an image are far from
      the subnormal range and from overflow.) */
  datatype Double = Double(significand: nat, exponent: int)

  const MinSignificand: nat := 0x10_0000_0000_0000  // 2^52
  const SignificandLimit: nat := 0x20_0000_0000_0000  // 2^53

  predicate Normal(d: Double)
  {
    MinSignificand <= d.significand < SignificandLimit
  }

  function Value(d: Double): real
  {
    d.significand as real * Pow2(d.exponent)
  }

  function Dist(x: real, y: real): real
  {
    if x >= y then x - y else y - x
  }

  /** Half a unit in the last place of `d`; just below a power of two the
      neighbouring double is half as far away, so there it is a quarter. */
  function Tolerance(x: real, d: Double): real
  {
    if d.significand == MinSignificand && x < Value(d) then Pow2(d.exponent - 2)
    else Pow2(d.exponent - 1)
  }

  /** `d` is what round-to-nearest, ties-to-even makes of the real `x`: it is
      within the tolerance of `x`, and even on a tie. */
  predicate RoundsTo(x: real, d: Double)
  {
    && Normal(d)
    && (Dist(x, Value(d)) < Tolerance(x, d)
        || (Dist(x, Value(d)) == Tolerance(x, d) && d.significand % 2 == 0))
  }

  // Powers of two and the facts about them the uniqueness proof needs.

  lemma {:induction false} Pow2NatSucc(n: nat)
    ensures Pow2Nat(n + 1) == 2 * Pow2Nat(n)
  {
    if n >= 8 {
      Pow2NatSucc(n - 8);
    }
  }

  lemma {:induction false} Pow2NegSucc(n: nat)
    ensures Pow2Neg(n + 1) == Pow2Neg(n) / 2.0
  {
    if n >= 8 {
      Pow2NegSucc(n - 8);
    }
  }

  lemma Pow2Succ(e: int)
    ensures Pow2(e + 1) == 2.0 * Pow2(e)
  {
    if e >= 0 {
      Pow2NatSucc(e);
    } else {
      Pow2NegSucc(-e - 1);
    }
  }

  lemma {:induction false} Pow2Gap(e1: int, e2: int)
    requires e1 < e2
    ensures Pow2(e2) >= 2.0 * Pow2(e1)
    decreases e2 - e1
  {
    Pow2Succ(e2 - 1);
    if e1 < e2 - 1 {
      Pow2Gap(e1, e2 - 1);
    }
  }

  /** Half and a quarter of the unit of `d`. */
  lemma Units(d: Double)
    ensures Pow2(d.exponent - 1) == Pow2(d.exponent) / 2.0
    ensures Pow2(d.exponent - 2) == Pow2(d.exponent) / 4.0
  {
    Pow2Succ(d.exponent - 1);
    Pow2Succ(d.exponent - 2);
  }

  lemma MulMono(a: real, b: real, c: real)
    requires a <= b && c >= 0.0
    ensures a * c <= b * c
  {
  }

  /** The linear core of the same-exponent case: two candidates at least a
      unit apart, of different parity when exactly one unit apart. */
  lemma SameExponentCore(x: real, v1: real, v2: real, p: real, t1: real, t2: real, even1: bool, even2: bool)
    requires p > 0.0 && t1 <= p / 2.0 && t2 <= p / 2.0
    requires Dist(v1, v2) >= p && (Dist(v1, v2) < 2.0 * p ==> even1 != even2)
    requires Dist(x, v1) < t1 || (Dist(x, v1) == t1 && even1)
    ensures !(Dist(x, v2) < t2 || (Dist(x, v2) == t2 && even2))
  {
  }

  /** The linear core of the case where the known nearest double has the
      lower exponent: every double of a higher binade is too far. */
  lemma HigherExponentCore(x: real, v1: real, v2: real, p1: real, p2: real, t1: real, t2: real,
                           even1: bool, min2: bool)
    requires p1 > 0.0 && p2 >= 2.0 * p1
    requires v1 <= 9007199254740991.0 * p1
    requires even1 ==> v1 <= 9007199254740990.0 * p1
    requires v2 >= 4503599627370496.0 * p2
    requires !min2 ==> v2 >= 4503599627370497.0 * p2
    requires t1 <= p1 / 2.0
    requires Dist(x, v1) < t1 || (Dist(x, v1) == t1 && even1)
    requires t2 == if min2 && x < v2 then p2 / 4.0 else p2 / 2.0
    ensures Dist(x, v2) > t2
  {
  }

  /** The linear core of the case where the known nearest double has the
      higher exponent: a double of a lower binade is too far, or exactly as
      far but odd (the largest significand). */
  lemma LowerExponentCore(x: real, v1: real, v2: real, p1: real, p2: real, t1: real, t2: real,
                          top1: bool, min2: bool)
    requires p1 > 0.0 && p2 >= 2.0 * p1
    requires v1 <= 9007199254740991.0 * p1
    requires !top1 ==> v1 <= 9007199254740990.0 * p1
    requires v2 >= 4503599627370496.0 * p2
    requires !min2 ==> v2 >= 4503599627370497.0 * p2
    requires t1 <= p1 / 2.0 && (top1 ==> t1 == p1 / 2.0)
    requires t2 == if min2 && x < v2 then p2 / 4.0 else p2 / 2.0
    requires Dist(x, v2) <= t2
    ensures Dist(x, v1) > t1 || (Dist(x, v1) == t1 && top1)
  {
  }

  /** A distance of `gap` units of size `p`, with `gap` a positive integer. */
  lemma UnitsApart(gap: real, p: real, dist: real)
    requires gap >= 1.0 && p > 0.0 && dist == gap * p
    ensures dist >= p
    ensures gap >= 2.0 ==> dist >= 2.0 * p
  {
    MulMono(1.0, gap, p);
    if gap >= 2.0 {
      MulMono(2.0, gap, p);
    }
  }

  lemma Distribute(a: real, b: real, c: real)
    ensures a * c - b * c == (a - b) * c
  {
  }

  /** Two multiples of a unit `p` lie `|m1 - m2|` units apart. */
  lemma MultiplesApart(m1: nat, m2: nat, p: real, v1: real, v2: real)
    requires p > 0.0 && v1 == m1 as real * p && v2 == m2 as real * p
    ensures m1 < m2 ==> Dist(v1, v2) == (m2 - m1) as real * p
    ensures m2 < m1 ==> Dist(v1, v2) == (m1 - m2) as real * p
  {
    if m1 < m2 {
      var r := (m2 - m1) as real;
      assert r == m2 as real - m1 as real;
      Distribute(m2 as real, m1 as real, p);
      assert v2 - v1 == r * p;
      MulMono(0.0, r, p);
    } else if m2 < m1 {
      var r := (m1 - m2) as real;
      assert r == m1 as real - m2 as real;
      Distribute(m1 as real, m2 as real, p);
      assert v1 - v2 == r * p;
      MulMono(0.0, r, p);
    }
  }

  /** Two different doubles of one exponent are at least a unit apart, and
      of different parity when exactly a unit apart. */
  lemma SameExponentGap(d1: Double, d2: Double)
    requires d1.exponent == d2.exponent && d1.significand != d2.significand
    ensures Dist(Value(d1), Value(d2)) >= Pow2(d1.exponent)
    ensures Dist(Value(d1), Value(d2)) < 2.0 * Pow2(d1.exponent) ==>
      d1.significand % 2 != d2.significand % 2
  {
    MultiplesGap(d1.significand, d2.significand, Pow2(d1.exponent), Value(d1), Value(d2));
  }

  lemma MultiplesGap(n1: nat, n2: nat, p: real, v1: real, v2: real)
    requires n1 != n2 && p > 0.0 && v1 == n1 as real * p && v2 == n2 as real * p
    ensures Dist(v1, v2) >= p
    ensures Dist(v1, v2) < 2.0 * p ==> n1 % 2 != n2 % 2
  {
    var gap: nat := if n1 < n2 then n2 - n1 else n1 - n2;
    MultiplesApart(n1, n2, p, v1, v2);
    UnitsApart(gap as real, p, Dist(v1, v2));
  }

  /** Two different doubles of the same exponent cannot both be nearest. */
  lemma SameExponentApart(x: real, d1: Double, d2: Double)
    requires RoundsTo(x, d1) && Normal(d2)
    requires d1.exponent == d2.exponent && d1.significand != d2.significand
    ensures !RoundsTo(x, d2)
  {
    ToleranceIs(x, d1);
    ToleranceIs(x, d2);
    SameExponentGap(d1, d2);
    SameExponentCore(x, Value(d1), Value(d2), Pow2(d1.exponent), Tolerance(x, d1), Tolerance(x, d2),
                     d1.significand % 2 == 0, d2.significand % 2 == 0);
  }

  /** The significand bounds of a normal double, scaled by its unit. */
  lemma ValueBounds(d: Double)
    requires Normal(d)
    ensures Value(d) <= 9007199254740991.0 * Pow2(d.exponent)
    ensures d.significand != SignificandLimit - 1 ==> Value(d) <= 9007199254740990.0 * Pow2(d.exponent)
    ensures Value(d) >= 4503599627370496.0 * Pow2(d.exponent)
    ensures d.significand != MinSignificand ==> Value(d) >= 4503599627370497.0 * Pow2(d.exponent)
  {
    ScaledBounds(d.significand, Pow2(d.exponent), Value(d));
  }

  lemma ScaledBounds(m: nat, p: real, v: real)
    requires 4503599627370496 <= m < 9007199254740992 && p > 0.0 && v == m as real * p
    ensures v <= 9007199254740991.0 * p
    ensures m != 9007199254740991 ==> v <= 9007199254740990.0 * p
    ensures v >= 4503599627370496.0 * p
    ensures m != 4503599627370496 ==> v >= 4503599627370497.0 * p
  {
    var r := m as real;
    Between(r, 4503599627370496.0, 9007199254740991.0, p, v);
    if m != 9007199254740991 {
      Between(r, 4503599627370496.0, 9007199254740990.0, p, v);
    }
    if m != 4503599627370496 {
      Between(r, 4503599627370497.0, 9007199254740991.0, p, v);
    }
  }

  lemma Between(r: real, lo: real, hi: real, p: real, v: real)
    requires lo <= r <= hi && p > 0.0 && v == r * p
    ensures lo * p <= v <= hi * p
  {
    MulMono(lo, r, p);
    MulMono(r, hi, p);
  }

  /** The tolerance of `d` is half its unit, or a quarter just below a power
      of two. */
  lemma ToleranceIs(x: real, d: Double)
    ensures Tolerance(x, d) == if d.significand == MinSignificand && x < Value(d)
                               then Pow2(d.exponent) / 4.0 else Pow2(d.exponent) / 2.0
  {
    Units(d);
  }

  /** When `x` rounds to `lo`, no double of a higher exponent is nearest. */
  lemma HigherExponentApart(x: real, lo: Double, hi: Double)
    requires RoundsTo(x, lo) && Normal(hi) && lo.exponent < hi.exponent
    ensures !RoundsTo(x, hi)
  {
    var p1, p2 := Pow2(lo.exponent), Pow2(hi.exponent);
    Pow2Gap(lo.exponent, hi.exponent);
    ValueBounds(lo);
    ValueBounds(hi);
    ToleranceIs(x, lo);
    ToleranceIs(x, hi);
    HigherExponentCore(x, Value(lo), Value(hi), p1, p2, Tolerance(x, lo), Tolerance(x, hi),
                       lo.significand != SignificandLimit - 1, hi.significand == MinSignificand);
  }

  /** When `x` rounds to `hi`, no double of a lower exponent is nearest. */
  lemma LowerExponentApart(x: real, lo: Double, hi: Double)
    requires RoundsTo(x, hi) && Normal(lo) && lo.exponent < hi.exponent
    ensures !RoundsTo(x, lo)
  {
    var p1, p2 := Pow2(lo.exponent), Pow2(hi.exponent);
    Pow2Gap(lo.exponent, hi.exponent);
    ValueBounds(lo);
    ValueBounds(hi);
    ToleranceIs(x, lo);
    ToleranceIs(x, hi);
    LowerExponentCore(x, Value(lo), Value(hi), p1, p2, Tolerance(x, lo), Tolerance(x, hi),
                      lo.significand == SignificandLimit - 1, hi.significand == MinSignificand);
  }

  /** Rounding to nearest is a function: a real rounds to at most one double. */
  lemma NearestIsUnique(x: real, d1: Double, d2: Double)
    requires RoundsTo(x, d1) && Normal(d2) && d1 != d2
    ensures !RoundsTo(x, d2)
  {
    if d1.exponent == d2.exponent {
      SameExponentApart(x, d1, d2);
    } else if d1.exponent < d2.exponent {
      HigherExponentApart(x, d1, d2);
    } else {
      LowerExponentApart(x, d2, d1);
    }
  }

  /** `int(a * (k / n))` evaluated in binary64: the ratio and the product are
      each rounded to nearest, the product is truncated. A zero divisor
      raises `ZeroDivisionError`, so no result is possible. */
  ghost predicate FloatScaled(a: nat, k: nat, n: nat, out: int)
    ensures FloatScaled(a, k, n, out) ==> n != 0 && out >= 0
  {
    if n == 0 then false
    else if a == 0 || k == 0 then out == 0
    else exists ratio: Double, product: Double :: ScaledVia(a, k, n, ratio, product, out)
  }

  /** `int(a * (k / n))` in binary64, where `ratio` is `k / n` rounded and
      `product` is `a` times `ratio`, rounded. */
  ghost predicate ScaledVia(a: nat, k: nat, n: nat, ratio: Double, product: Double, out: int)
    requires n != 0
  {
    && RoundsTo(k as real / n as real, ratio)
    && RoundsTo(a as real * Value(ratio), product)
    && out == Value(product).Floor
  }

  lemma RoundingIsUnique(x: real, d1: Double, d2: Double)
    requires RoundsTo(x, d1) && RoundsTo(x, d2)
    ensures d1 == d2
  {
    if d1 != d2 {
      NearestIsUnique(x, d1, d2);
    }
  }

  /** With rounding a function, so is the as-written resize of one side: the
      side, the limit and the edge determine the result. */
  lemma FloatScaledIsAFunction(a: nat, k: nat, n: nat, out1: int, out2: int)
    ensures FloatScaled(a, k, n, out1) && FloatScaled(a, k, n, out2) ==> out1 == out2
  {
    if FloatScaled(a, k, n, out1) && FloatScaled(a, k, n, out2) && a != 0 && k != 0 && n != 0 {
      var r1, p1 :| ScaledVia(a, k, n, r1, p1, out1);
      var r2, p2 :| ScaledVia(a, k, n, r2, p2, out2);
      ScaledViaUnique(a, k, n, r1, p1, out1, r2, p2, out2);
    }
  }

  lemma ScaledViaUnique(a: nat, k: nat, n: nat, r1: Double, p1: Double, out1: int, r2: Double, p2: Double, out2: int)
    requires n != 0
    requires ScaledVia(a, k, n, r1, p1, out1) && ScaledVia(a, k, n, r2, p2, out2)
    ensures out1 == out2
  {
    RoundingIsUnique(k as real / n as real, r1, r2);
    SameInputSameRounding(a as real * Value(r1), a as real * Value(r2), p1, p2);
  }

  lemma SameInputSameRounding(x1: real, x2: real, d1: Double, d2: Double)
    requires x1 == x2 && RoundsTo(x1, d1) && RoundsTo(x2, d2)
    ensures d1 == d2
  {
    RoundingIsUnique(x1, d1, d2);
  }

  /** Rounding to nearest away from a power of two: when `x` is within half a
      unit of `d`, `d` is the double nearest `x`. */
  lemma WithinHalfUnit(x: real, d: Double, v: real, half: real)
    requires Normal(d) && d.significand != MinSignificand
    requires Value(d) == v && Pow2(d.exponent - 1) == half
    requires -half < x - v < half
    ensures RoundsTo(x, d)
  {
  }

  /** An 11 x 11 image is enlarged to 479 x 479: `480 / 11` rounds down to
      43.63636363636363, and 11 times that rounds to 479.99999999999994, which
      `int()` truncates to 479. The exact enlargement reaches 480 x 480. */
  lemma ShortSideFallsShort()
    ensures FloatScaled(11, MinShortSide, 11, 479)
    ensures Upscale(Size(11, 11)) == Ok(Size(480, 480))
  {
    var ratio := Double(6141272219141585, -47);
    var product := Double(8444249301319679, -44);
    assert Pow2(-47) == 1.0 / 140737488355328.0;
    assert Pow2(-48) == 1.0 / 281474976710656.0;
    assert Pow2(-44) == 1.0 / 17592186044416.0;
    assert Pow2(-45) == 1.0 / 35184372088832.0;
    WithinHalfUnit(480.0 / 11.0, ratio, 6141272219141585.0 / 140737488355328.0, 1.0 / 281474976710656.0);
    WithinHalfUnit(11.0 * Value(ratio), product, 8444249301319679.0 / 17592186044416.0, 1.0 / 35184372088832.0);
    assert Value(product).Floor == 479;
    assert ScaledVia(11, MinShortSide, 11, ratio, product, 479);
  }

  /** A 2148-pixel longer edge is shrunk to 1919, not to 1920: `1920 / 2148`
      and then 2148 times it round to 1919.9999999999998. */
  lemma LongerEdgeLandsBelow()
    ensures FloatScaled(2148, MaxImageSize, 2148, 1919)
    ensures Downscale(Size(2148, 2148)) == Ok(Size(1920, 1920))
  {
    var ratio := Double(8051127825466808, -53);
    var product := Double(8444249301319679, -42);
    assert Pow2(-53) == 1.0 / 9007199254740992.0;
    assert Pow2(-54) == 1.0 / 18014398509481984.0;
    assert Pow2(-42) == 1.0 / 4398046511104.0;
    assert Pow2(-43) == 1.0 / 8796093022208.0;
    WithinHalfUnit(1920.0 / 2148.0, ratio, 8051127825466808.0 / 9007199254740992.0, 1.0 / 18014398509481984.0);
    WithinHalfUnit(2148.0 * Value(ratio), product, 8444249301319679.0 / 4398046511104.0, 1.0 / 8796093022208.0);
    assert Value(product).Floor == 1919;
    assert ScaledVia(2148, MaxImageSize, 2148, ratio, product, 1919);
  }

  /** A 94080 x 49 image loses its shorter side: `1920 / 94080` rounds to
      just under `1 / 49`, 49 times that rounds to 0.9999999999999999, and
      `int()` gives 0, on which `resize` raises. The exact shrink keeps it at
      1; the enlargement then makes the longer side 921600, which the
      encoder refuses, so that call fails with 400 as well. */
  lemma SideVanishes()
    ensures FloatScaled(49, MaxImageSize, 94080, 0)
    ensures Downscale(Size(94080, 49)) == Ok(Size(1920, 1))
    ensures PrepareSize(Some(Size(94080, 49))) == Err(InputError(TooLargeToEncode))
  {
    var ratio := Double(5882252574524729, -58);
    var product := Double(9007199254740991, -53);
    assert Pow2(-58) == 1.0 / 288230376151711744.0;
    assert Pow2(-59) == 1.0 / 576460752303423488.0;
    assert Pow2(-53) == 1.0 / 9007199254740992.0;
    assert Pow2(-54) == 1.0 / 18014398509481984.0;
    WithinHalfUnit(1920.0 / 94080.0, ratio, 5882252574524729.0 / 288230376151711744.0, 1.0 / 576460752303423488.0);
    WithinHalfUnit(49.0 * Value(ratio), product, 9007199254740991.0 / 9007199254740992.0, 1.0 / 18014398509481984.0);
    assert Value(product).Floor == 0;
    assert ScaledVia(49, MaxImageSize, 94080, ratio, product, 0);
    assert Upscale(Size(1920, 1)) == Ok(Size(921600, 480));
  }
}
