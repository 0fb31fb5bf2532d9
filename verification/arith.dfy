/** Small facts about multiplication and division that the solver does not
    find on its own. They back the one-decimal rounding of an average. */
module Arith {

  /** d * a <= d * b for a <= b and d >= 0. */
  lemma {:induction false} MulMonotone(d: nat, a: int, b: int)
    requires a <= b
    ensures d * a <= d * b
  {
    if d > 0 {
      MulMonotone(d - 1, a, b);
      assert d * a == (d - 1) * a + a;
      assert d * b == (d - 1) * b + b;
    }
  }

  lemma MulCancelLt(d: nat, a: int, b: int)
    requires d * a < d * b
    ensures a < b
  {
    if b <= a {
      MulMonotone(d, b, a);
    }
  }

  /** Euclidean division brackets its dividend. */
  lemma DivBounds(a: int, d: int)
    requires d > 0
    ensures d * (a / d) <= a < d * (a / d + 1)
  {
  }

  lemma RealDivLower(a: real, d: real, q: real)
    requires d > 0.0 && q * d <= a
    ensures q <= a / d
  {
    assert (a / d) * d == a;
  }

  lemma RealDivUpper(a: real, d: real, p: real)
    requires d > 0.0 && a < p * d
    ensures a / d < p
  {
    assert (a / d) * d == a;
  }

  lemma RealMulCancel(a: real, b: real, c: real)
    requires c != 0.0 && a * c == b * c
    ensures a == b
  {
    assert (a - b) * c == 0.0;
  }

  /** Ten times a mean plus one half, over a common denominator. */
  lemma HalfStep(s: real, c: real)
    requires c > 0.0
    ensures 10.0 * (s / c) + 0.5 == (20.0 * s + c) / (2.0 * c)
  {
    var y := s / c;
    assert y * c == s;
    var z := (20.0 * s + c) / (2.0 * c);
    assert z * (2.0 * c) == 20.0 * s + c;
    assert (10.0 * y + 0.5) * (2.0 * c) == 20.0 * s + c;
    RealMulCancel(z, 10.0 * y + 0.5, 2.0 * c);
  }

  /** `(20 * sum + count) / (2 * count)` is `Math.round(10 * sum / count)`,
      i.e. the floor of ten times the exact mean plus one half. */
  lemma RoundTenths(sum: int, count: int)
    requires count > 0
    ensures (20 * sum + count) / (2 * count) == (10.0 * (sum as real / count as real) + 0.5).Floor
  {
    var a := 20 * sum + count;
    var d := 2 * count;
    var q := a / d;
    DivBounds(a, d);
    assert (d * q) as real == d as real * q as real;
    assert (d * (q + 1)) as real == d as real * (q + 1) as real;
    RealDivLower(a as real, d as real, q as real);
    RealDivUpper(a as real, d as real, (q + 1) as real);
    HalfStep(sum as real, count as real);
    assert (20.0 * sum as real + count as real) / (2.0 * count as real) == a as real / d as real;
  }

  /** Rounding keeps an average with `count * lo <= sum <= count * hi`
      within [10 * lo, 10 * hi] tenths. */
  lemma AverageBounds(sum: int, count: int, lo: int, hi: int)
    requires count > 0
    requires count * lo <= sum <= count * hi
    ensures 10 * lo <= (20 * sum + count) / (2 * count) <= 10 * hi
  {
    var d := 2 * count;
    var q := (20 * sum + count) / d;
    DivBounds(20 * sum + count, d);
    assert d * (10 * lo) == 20 * (count * lo);
    assert d * (10 * hi + 1) == 20 * (count * hi) + d;
    MulCancelLt(d, 10 * lo, q + 1);
    MulCancelLt(d, q, 10 * hi + 1);
  }

}
