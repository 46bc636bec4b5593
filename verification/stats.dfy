/** Descriptive statistics over a group of power values, with the
    conventions of the data frame library: the sample variance divides by
    n - 1 and is undefined for fewer than two values, the median of an
    empty group is missing, and quantiles interpolate linearly between
    order statistics. */
module Stats {
  import opened Options
  import opened Sorting
  import opened RealArith

  function Sum(s: seq<real>): real {
    if |s| == 0 then 0.0 else s[0] + Sum(s[1..])
  }

  /** The mean is the value that, taken |s| times, gives the sum. */
  function Mean(s: seq<real>): (m: real)
    requires |s| > 0
    ensures Mul(|s| as real, m) == Sum(s)
  {
    MulDivCancel(Sum(s), |s| as real);
    Sum(s) / (|s| as real)
  }

  function Min(s: seq<real>): (m: real)
    requires |s| > 0
    ensures m in s
    ensures forall x :: x in s ==> m <= x
  {
    if |s| == 1 then s[0]
    else
      assert s == [s[0]] + s[1..];
      var rest := Min(s[1..]);
      if s[0] <= rest then s[0] else rest
  }

  function Max(s: seq<real>): (m: real)
    requires |s| > 0
    ensures m in s
    ensures forall x :: x in s ==> x <= m
  {
    if |s| == 1 then s[0]
    else
      assert s == [s[0]] + s[1..];
      var rest := Max(s[1..]);
      if rest <= s[0] then s[0] else rest
  }

  /** Every value lies in [lo, hi], so the sum lies in [n lo, n hi]. */
  lemma {:induction false} SumBounds(s: seq<real>, lo: real, hi: real)
    requires forall x :: x in s ==> lo <= x <= hi
    ensures Mul(|s| as real, lo) <= Sum(s) <= Mul(|s| as real, hi)
  {
    if |s| > 0 {
      assert s[0] in s;
      assert forall x :: x in s[1..] ==> x in s;
      SumBounds(s[1..], lo, hi);
      var n := (|s| - 1) as real;
      assert Mul(n + 1.0, lo) == Mul(n, lo) + lo;
      assert Mul(n + 1.0, hi) == Mul(n, hi) + hi;
    }
  }

  /** The mean of a non-empty group lies between its minimum and maximum. */
  lemma MeanBetweenMinAndMax(s: seq<real>)
    requires |s| > 0
    ensures Min(s) <= Mean(s) <= Max(s)
  {
    MeanWithin(s, Min(s), Max(s));
  }

  /** Every value lies in [lo, hi], so the mean does too. */
  lemma MeanWithin(s: seq<real>, lo: real, hi: real)
    requires |s| > 0
    requires forall x :: x in s ==> lo <= x <= hi
    ensures lo <= Mean(s) <= hi
  {
    SumBounds(s, lo, hi);
    DivBounds(Sum(s), |s| as real, lo, hi);
  }

  /** The mean of a group whose values are all equal is that value. */
  lemma MeanOfAllEqual(s: seq<real>)
    requires |s| > 0
    requires AllEqual(s)
    ensures Mean(s) == s[0]
  {
    MeanWithin(s, s[0], s[0]);
  }

  predicate AllEqual(s: seq<real>) {
    forall i :: 0 <= i < |s| ==> s[i] == s[0]
  }

  /** Sum of squared deviations from `m`. */
  function SquaredDeviations(s: seq<real>, m: real): (r: real)
    ensures r >= 0.0
  {
    if |s| == 0 then 0.0
    else
      SqNonNegative(s[0] - m);
      Sq(s[0] - m) + SquaredDeviations(s[1..], m)
  }

  lemma {:induction false} SquaredDeviationsZeroIff(s: seq<real>, m: real)
    ensures SquaredDeviations(s, m) == 0.0 <==> forall i :: 0 <= i < |s| ==> s[i] == m
  {
    if |s| > 0 {
      var rest := s[1..];
      SquaredDeviationsZeroIff(rest, m);
      assert forall i :: 1 <= i < |s| ==> s[i] == rest[i - 1];
      if s[0] != m {
        SqPositive(s[0] - m);
      }
      if SquaredDeviations(s, m) == 0.0 {
        assert forall i :: 0 <= i < |rest| ==> rest[i] == m;
      }
      if forall i :: 0 <= i < |s| ==> s[i] == m {
        assert forall i :: 0 <= i < |rest| ==> rest[i] == m;
      }
    }
  }

  /** Sample variance (divisor n - 1); undefined for fewer than two values. */
  function SampleVariance(s: seq<real>): (v: Option<real>)
    ensures v.Some? <==> |s| >= 2
    ensures v.Some? ==> v.value >= 0.0
  {
    if |s| < 2 then None
    else Some(SquaredDeviations(s, Mean(s)) / ((|s| - 1) as real))
  }

  /** A group of at least two values has zero sample variance exactly when
      all its values are equal. */
  lemma VarianceZeroIffAllEqual(s: seq<real>)
    requires |s| >= 2
    ensures SampleVariance(s) == Some(0.0) <==> AllEqual(s)
  {
    var m := Mean(s);
    SquaredDeviationsZeroIff(s, m);
    if AllEqual(s) {
      MeanOfAllEqual(s);
    }
    if SampleVariance(s) == Some(0.0) {
      assert SquaredDeviations(s, m) == 0.0;
    }
  }

  /** Every position of the sorted group holds one of the group's values. */
  lemma SortedValueInRange(s: seq<real>, i: int)
    requires 0 <= i < |s|
    ensures Min(s) <= SortReals(s)[i] <= Max(s)
  {
    var t := SortReals(s);
    assert t[i] in multiset(t);
    assert t[i] in multiset(s);
    assert t[i] in s;
  }

  /** The middle value of a sorted group, or the mean of the two middle
      values when the group has even size. */
  function MiddleValue(t: seq<real>): real
    requires |t| > 0
  {
    var n := |t|;
    if n % 2 == 1 then t[n / 2] else (t[n / 2 - 1] + t[n / 2]) / 2.0
  }

  lemma MiddleValueBetween(t: seq<real>)
    requires |t| > 0
    requires SortedReals(t)
    ensures t[(|t| - 1) / 2] <= MiddleValue(t) <= t[|t| / 2]
  {
  }

  /** The median of a group; missing for an empty group. */
  function Median(s: seq<real>): (m: Option<real>)
    ensures m.Some? <==> |s| > 0
    ensures m.Some? ==> Min(s) <= m.value <= Max(s)
  {
    if |s| == 0 then None
    else
      var t := SortReals(s);
      MiddleValueBetween(t);
      SortedValueInRange(s, (|t| - 1) / 2);
      SortedValueInRange(s, |t| / 2);
      Some(MiddleValue(t))
  }

  /** Position of quantile `q` in a sorted group of `n` values: the whole
      part of the virtual index h = (n - 1) q. */
  function QuantileIndex(n: nat, q: real): (lo: int)
    requires n > 0
    requires 0.0 <= q <= 1.0
    ensures 0 <= lo < n
    ensures lo as real <= Mul((n - 1) as real, q) < lo as real + 1.0
  {
    ScaleWithin((n - 1) as real, q);
    Mul((n - 1) as real, q).Floor
  }

  /** Linear interpolation between the order statistics on either side of
      the virtual index (n - 1) q of a sorted group. */
  function LinearQuantile(t: seq<real>, q: real): real
    requires |t| > 0
    requires 0.0 <= q <= 1.0
  {
    var lo := QuantileIndex(|t|, q);
    var frac := Mul((|t| - 1) as real, q) - lo as real;
    if lo + 1 < |t| then t[lo] + Mul(frac, t[lo + 1] - t[lo]) else t[lo]
  }

  /** An interpolated quantile lies between the order statistics it
      interpolates. */
  lemma LinearQuantileBetween(t: seq<real>, q: real)
    requires |t| > 0
    requires 0.0 <= q <= 1.0
    requires SortedReals(t)
    ensures var lo := QuantileIndex(|t|, q);
      && t[lo] <= LinearQuantile(t, q)
      && (lo + 1 < |t| ==> LinearQuantile(t, q) <= t[lo + 1])
      && (lo + 1 == |t| ==> LinearQuantile(t, q) == t[lo])
  {
    var lo := QuantileIndex(|t|, q);
    if lo + 1 < |t| {
      Interpolate(t[lo], t[lo + 1], Mul((|t| - 1) as real, q) - lo as real);
    }
  }

  /** The `q`-quantile with linear interpolation; missing for an empty
      group. */
  function Quantile(s: seq<real>, q: real): (v: Option<real>)
    requires 0.0 <= q <= 1.0
    ensures v.Some? <==> |s| > 0
    ensures v.Some? ==> Min(s) <= v.value <= Max(s)
  {
    if |s| == 0 then None
    else
      LinearQuantileInRange(s, q);
      Some(LinearQuantile(SortReals(s), q))
  }

  lemma LinearQuantileInRange(s: seq<real>, q: real)
    requires |s| > 0
    requires 0.0 <= q <= 1.0
    ensures Min(s) <= LinearQuantile(SortReals(s), q) <= Max(s)
  {
    LinearQuantileAboveMin(s, q);
    LinearQuantileBelowMax(s, q);
  }

  lemma LinearQuantileAboveMin(s: seq<real>, q: real)
    requires |s| > 0
    requires 0.0 <= q <= 1.0
    ensures Min(s) <= LinearQuantile(SortReals(s), q)
  {
    var t := SortReals(s);
    LinearQuantileBetween(t, q);
    SortedValueInRange(s, QuantileIndex(|t|, q));
  }

  lemma LinearQuantileBelowMax(s: seq<real>, q: real)
    requires |s| > 0
    requires 0.0 <= q <= 1.0
    ensures LinearQuantile(SortReals(s), q) <= Max(s)
  {
    var t := SortReals(s);
    LinearQuantileAtMostLast(t, q);
    BelowSortedValue(s, |s| - 1, LinearQuantile(t, q));
  }

  /** An interpolated quantile of a sorted group is at most its last value. */
  lemma LinearQuantileAtMostLast(t: seq<real>, q: real)
    requires |t| > 0
    requires 0.0 <= q <= 1.0
    requires SortedReals(t)
    ensures LinearQuantile(t, q) <= t[|t| - 1]
  {
    var lo := QuantileIndex(|t|, q);
    LinearQuantileBetween(t, q);
    if lo + 1 < |t| {
      assert t[lo + 1] <= t[|t| - 1];
    }
  }

  /** A value below an order statistic of a group is below its maximum. */
  lemma BelowSortedValue(s: seq<real>, i: int, v: real)
    requires 0 <= i < |s|
    requires v <= SortReals(s)[i]
    ensures v <= Max(s)
  {
    SortedValueInRange(s, i);
  }

  /** On a sorted group, the middle value is the 0.5-quantile. */
  lemma MiddleValueIsHalfQuantile(t: seq<real>)
    requires |t| > 0
    ensures MiddleValue(t) == LinearQuantile(t, 0.5)
  {
    var n := |t|;
    var lo := QuantileIndex(n, 0.5);
    MulHalf((n - 1) as real);
    if n % 2 == 1 {
      assert ((n - 1) as real) / 2.0 == ((n - 1) / 2) as real;
      assert lo == n / 2;
    } else {
      assert ((n - 1) as real) / 2.0 == (n / 2 - 1) as real + 0.5;
      assert lo == n / 2 - 1;
      MulHalf(t[lo + 1] - t[lo]);
    }
  }

  /** The median is the 0.5-quantile. */
  lemma MedianIsHalfQuantile(s: seq<real>)
    ensures Median(s) == Quantile(s, 0.5)
  {
    if |s| > 0 {
      MiddleValueIsHalfQuantile(SortReals(s));
    }
  }

  /** Interpolated quantiles of a sorted group grow with `q`. */
  lemma LinearQuantileMonotone(t: seq<real>, p: real, q: real)
    requires |t| > 0
    requires SortedReals(t)
    requires 0.0 <= p <= q <= 1.0
    ensures LinearQuantile(t, p) <= LinearQuantile(t, q)
  {
    var n := |t|;
    var lp := QuantileIndex(n, p);
    var lq := QuantileIndex(n, q);
    LinearQuantileBetween(t, p);
    LinearQuantileBetween(t, q);
    MulMonotone(p, q, (n - 1) as real);
    assert Mul((n - 1) as real, p) == Mul(p, (n - 1) as real);
    assert Mul((n - 1) as real, q) == Mul(q, (n - 1) as real);
    if lp == lq && lp + 1 < n {
      var fp := Mul((n - 1) as real, p) - lp as real;
      var fq := Mul((n - 1) as real, q) - lq as real;
      MulMonotone(fp, fq, t[lp + 1] - t[lp]);
    }
  }

  /** Quantiles grow with `q`. */
  lemma QuantileMonotone(s: seq<real>, p: real, q: real)
    requires |s| > 0
    requires 0.0 <= p <= q <= 1.0
    ensures Quantile(s, p).value <= Quantile(s, q).value
  {
    LinearQuantileMonotone(SortReals(s), p, q);
  }

  /** On an already sorted group, the quantile interpolates the group as
      it stands. */
  lemma QuantileOfSorted(t: seq<real>, q: real)
    requires |t| > 0
    requires 0.0 <= q <= 1.0
    requires SortedReals(t)
    ensures Quantile(t, q) == Some(LinearQuantile(t, q))
  {
    SortRealsOfSorted(t);
  }

  /** A single reading is its own quantile at every level. */
  lemma QuantileOfSingleton(x: real, q: real)
    requires 0.0 <= q <= 1.0
    ensures Quantile([x], q) == Some(x)
  {
    assert Min([x]) == x && Max([x]) == x;
  }

  /** Of two sorted values, the `q`-quantile lies the fraction `q` of the
      way from the lower to the upper one. */
  lemma LinearQuantileOfPair(x: real, y: real, q: real)
    requires 0.0 <= q < 1.0
    ensures LinearQuantile([x, y], q) == x + Mul(q, y - x)
  {
    MulOne(q);
    assert QuantileIndex(2, q) == 0;
  }

  /** Of three sorted values, the `q`-quantile interpolates between the
      first two below the median level and between the last two from it. */
  lemma LinearQuantileOfTriple(x: real, y: real, z: real, q: real)
    requires 0.0 <= q < 1.0
    ensures q < 0.5 ==> LinearQuantile([x, y, z], q) == x + Mul(2.0 * q, y - x)
    ensures q >= 0.5 ==> LinearQuantile([x, y, z], q) == y + Mul(2.0 * q - 1.0, z - y)
  {
    assert Mul(2.0, q) == 2.0 * q;
    if q < 0.5 {
      assert QuantileIndex(3, q) == 0;
    } else {
      assert QuantileIndex(3, q) == 1;
    }
  }

  /** How many values of `s` have a squared deviation from `m` above `t`. */
  function CountBeyond(s: seq<real>, m: real, t: real): (c: nat)
    ensures c <= |s|
  {
    if |s| == 0 then 0
    else (if Sq(s[0] - m) > t then 1 else 0) + CountBeyond(s[1..], m, t)
  }

  /** Each value counted contributes more than `t` to the sum of squared
      deviations, and no value contributes a negative amount. */
  lemma {:induction false} SquaredDeviationsBoundCount(s: seq<real>, m: real, t: real)
    requires t >= 0.0
    ensures Mul(CountBeyond(s, m, t) as real, t) <= SquaredDeviations(s, m)
    ensures CountBeyond(s, m, t) > 0 ==> Mul(CountBeyond(s, m, t) as real, t) < SquaredDeviations(s, m)
  {
    if |s| > 0 {
      var c := CountBeyond(s[1..], m, t);
      SquaredDeviationsBoundCount(s[1..], m, t);
      SqNonNegative(s[0] - m);
      assert Mul((c + 1) as real, t) == Mul(c as real, t) + t;
    }
  }

  /** Chebyshev's bound for the two-sigma rule: in a group of n values with
      positive sample variance v, fewer than (n - 1) / 4 values lie further
      than two standard deviations from the mean. */
  lemma FewBeyondTwoStd(s: seq<real>)
    requires SampleVariance(s).Some? && SampleVariance(s).value > 0.0
    ensures 4 * CountBeyond(s, Mean(s), 4.0 * SampleVariance(s).value) < |s| - 1
  {
    var v := SampleVariance(s).value;
    var ss := SquaredDeviations(s, Mean(s));
    var c := CountBeyond(s, Mean(s), 4.0 * v);
    MulDivCancel(ss, (|s| - 1) as real);
    SquaredDeviationsBoundCount(s, Mean(s), 4.0 * v);
    CountBelowQuarter(c, |s| - 1, v, ss);
  }

  /** The arithmetic step of Chebyshev's bound: c values each contributing
      more than 4v to a total of m v leave 4c < m. */
  lemma CountBelowQuarter(c: nat, m: nat, v: real, ss: real)
    requires m >= 1 && v > 0.0
    requires ss == Mul(m as real, v)
    requires c > 0 ==> Mul(c as real, 4.0 * v) < ss
    ensures 4 * c < m
  {
    if c > 0 && 4 * c >= m {
      MulShiftFactor(c as real, v, 4.0);
      MulMonotone(m as real, (4 * c) as real, v);
      assert false;
    }
  }
}
