/** Facts about products of reals. Products are taken through `Mul`, so
    that a fact proved once about a product is reused as it stands. */
module RealArith {

  function Mul(a: real, b: real): real {
    a * b
  }

  function Sq(d: real): real {
    Mul(d, d)
  }

  function Abs(d: real): real {
    if d < 0.0 then -d else d
  }

  lemma MulPositive(a: real, b: real)
    requires a > 0.0 && b > 0.0
    ensures Mul(a, b) > 0.0
  {
  }

  lemma MulNegative(a: real, b: real)
    requires a < 0.0 && b < 0.0
    ensures Mul(a, b) > 0.0
  {
  }

  lemma MulNonNegative(a: real, b: real)
    requires a >= 0.0 && b >= 0.0
    ensures Mul(a, b) >= 0.0
  {
  }

  lemma MulNonPositive(a: real, b: real)
    requires a <= 0.0 && b >= 0.0
    ensures Mul(a, b) <= 0.0
  {
  }

  /** Scaling a non-negative value by a larger factor gives a larger value. */
  lemma MulMonotone(a: real, b: real, c: real)
    requires a <= b
    requires c >= 0.0
    ensures Mul(a, c) <= Mul(b, c)
  {
    MulNonNegative(b - a, c);
    assert Mul(b, c) - Mul(a, c) == Mul(b - a, c);
  }

  lemma MulOne(a: real)
    ensures Mul(1.0, a) == a
  {
  }

  lemma MulHalf(a: real)
    ensures Mul(a, 0.5) == a / 2.0
    ensures Mul(0.5, a) == a / 2.0
  {
  }

  lemma SqPositive(d: real)
    requires d != 0.0
    ensures Sq(d) > 0.0
  {
    if d > 0.0 {
      MulPositive(d, d);
    } else {
      MulNegative(d, d);
    }
  }

  lemma SqNonNegative(d: real)
    ensures Sq(d) >= 0.0
  {
    if d != 0.0 {
      SqPositive(d);
    }
  }

  lemma SqOfAbs(d: real)
    ensures Sq(Abs(d)) == Sq(d)
  {
    assert Mul(-d, -d) == Mul(d, d);
  }

  lemma SqOfDouble(d: real)
    ensures Sq(2.0 * d) == 4.0 * Sq(d)
  {
  }

  /** On non-negative reals, squaring preserves and reflects `<`. */
  lemma SqStrictlyMonotone(a: real, b: real)
    requires a >= 0.0 && b >= 0.0
    ensures a < b <==> Sq(a) < Sq(b)
  {
    assert Sq(b) - Sq(a) == Mul(b - a, b + a);
    if a < b {
      MulPositive(b - a, b + a);
    } else {
      MulNonPositive(b - a, b + a);
    }
  }

  /** Scaling by a factor in [0, 1] shrinks a non-negative value. */
  lemma ScaleWithin(a: real, q: real)
    requires a >= 0.0
    requires 0.0 <= q <= 1.0
    ensures 0.0 <= Mul(a, q) <= a
  {
    MulNonNegative(a, q);
    MulMonotone(q, 1.0, a);
    assert Mul(a, q) == Mul(q, a);
    MulOne(a);
  }

  /** Linear interpolation with a fraction in [0, 1] stays between its ends. */
  lemma Interpolate(a: real, b: real, f: real)
    requires a <= b
    requires 0.0 <= f <= 1.0
    ensures a <= a + Mul(f, b - a) <= b
  {
    ScaleWithin(b - a, f);
    assert Mul(f, b - a) == Mul(b - a, f);
  }

  /** A sum between n lo and n hi has its average between lo and hi. */
  lemma DivBounds(sum: real, n: real, lo: real, hi: real)
    requires n > 0.0
    requires Mul(n, lo) <= sum <= Mul(n, hi)
    ensures lo <= sum / n <= hi
  {
    assert (sum / n) * n == sum;
  }

  lemma MulDivCancel(a: real, b: real)
    requires b != 0.0
    ensures Mul(b, a / b) == a
  {
  }

  lemma MulShiftFactor(a: real, b: real, k: real)
    ensures Mul(a, k * b) == Mul(k * a, b)
  {
  }
}
