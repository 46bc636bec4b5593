/** Point-level anomaly detection: a cleaned row is flagged when its power
    lies more than two sample standard deviations from the mean of its own
    (turbine, calendar day) group. */
module Anomalies {
  import opened Options
  import opened Readings
  import opened Stats
  import opened RealArith

  /** A cleaned row with the calendar day it was grouped by and its
      verdict. */
  datatype AnomalyRecord = AnomalyRecord(reading: Reading, date: int, isAnomaly: bool)

  /** The allowed distance from the day mean. A group whose standard
      deviation is undefined (a single row) or zero gets an unbounded
      tolerance; otherwise the tolerance is twice the standard deviation,
      held here through the variance it is the root of. */
  datatype Tolerance = Unbounded | TwiceStd(variance: real)

  function ToleranceOf(variance: Option<real>): (t: Tolerance)
    ensures t.TwiceStd? <==> variance.Some? && variance.value != 0.0
  {
    match variance
    case None => Unbounded
    case Some(v) => if v == 0.0 then Unbounded else TwiceStd(v)
  }

  /** Whether a deviation from the mean is beyond the tolerance; with the
      standard deviation `sd`, |d| > 2 sd is written as d^2 > 4 sd^2. */
  predicate Exceeds(d: real, t: Tolerance)
    ensures Exceeds(d, t) ==> t.TwiceStd?
    ensures t.TwiceStd? && t.variance >= 0.0 && Exceeds(d, t) ==> d != 0.0
  {
    match t
    case Unbounded => false
    case TwiceStd(v) => Sq(d) > 4.0 * v
  }

  /** The tolerance test as the pipeline writes it, given the day's standard
      deviation (missing for a single-row day): a missing deviation counts
      as zero, a zero tolerance as infinite. */
  predicate ExceedsWithStd(d: real, sd: Option<real>) {
    var tol := 2.0 * sd.GetOr(0.0);
    tol != 0.0 && Abs(d) > tol
  }

  /** The square-free test agrees with the pipeline's test whenever `sd` is
      the non-negative square root of the variance. */
  lemma ExceedsAgreesWithStd(d: real, variance: Option<real>, sd: Option<real>)
    requires variance.Some? <==> sd.Some?
    requires sd.Some? ==> sd.value >= 0.0 && Sq(sd.value) == variance.value
    ensures Exceeds(d, ToleranceOf(variance)) <==> ExceedsWithStd(d, sd)
  {
    if sd.Some? {
      var s := sd.value;
      if s == 0.0 {
        assert Sq(s) == 0.0;
      } else {
        SqPositive(s);
        SqOfAbs(d);
        SqOfDouble(s);
        SqStrictlyMonotone(2.0 * s, Abs(d));
      }
    }
  }

  /** A row's power is one of the values of its own group. */
  lemma RowInOwnGroup(rows: seq<Reading>, r: Reading)
    requires r in rows
    ensures r.powerOutput in GroupOutputs(rows, KeyOf(r))
    ensures |GroupOutputs(rows, KeyOf(r))| > 0
  {
    var i :| 0 <= i < |rows| && rows[i] == r;
    assert KeyOf(rows[i]) == KeyOf(r);
  }

  /** The verdict on row `r` of the cleaned table `rows`. */
  predicate IsAnomaly(rows: seq<Reading>, r: Reading)
    requires r in rows
    ensures IsAnomaly(rows, r) ==>
      var vals := GroupOutputs(rows, KeyOf(r));
      |vals| >= 2 && SampleVariance(vals).Some? && SampleVariance(vals).value > 0.0
  {
    RowInOwnGroup(rows, r);
    var vals := GroupOutputs(rows, KeyOf(r));
    Exceeds(r.powerOutput - Mean(vals), ToleranceOf(SampleVariance(vals)))
  }

  /** Every cleaned row, in order, with its verdict; a flagged row lies in a
      group of at least two rows with positive variance, and its squared
      distance from the group mean exceeds four times that variance. */
  function DetectAnomalies(rows: seq<Reading>): (r: seq<AnomalyRecord>)
    ensures |r| == |rows|
    ensures forall i :: 0 <= i < |r| ==> r[i].reading == rows[i]
    ensures forall i :: 0 <= i < |r| ==> r[i].date == DayOf(rows[i].timestamp)
    ensures forall i :: 0 <= i < |r| && r[i].isAnomaly ==>
      var vals := GroupOutputs(rows, KeyOf(rows[i]));
      && |vals| >= 2
      && SampleVariance(vals).value > 0.0
      && Sq(rows[i].powerOutput - Mean(vals)) > 4.0 * SampleVariance(vals).value
  {
    seq(|rows|, i requires 0 <= i < |rows| => AnomalyRecord(rows[i], DayOf(rows[i].timestamp), IsAnomaly(rows, rows[i])))
  }

  /** The verdict on row `i` is the pipeline's test against the day's
      sample standard deviation `sd`, for `sd` the non-negative root of the
      day's sample variance (missing together with it). */
  lemma FlaggedIffBeyondTwoStd(rows: seq<Reading>, i: int, sd: Option<real>)
    requires 0 <= i < |rows|
    requires var vals := GroupOutputs(rows, KeyOf(rows[i]));
      && (SampleVariance(vals).Some? <==> sd.Some?)
      && (sd.Some? ==> sd.value >= 0.0 && Sq(sd.value) == SampleVariance(vals).value)
    ensures var vals := GroupOutputs(rows, KeyOf(rows[i]));
      |vals| > 0 &&
      (DetectAnomalies(rows)[i].isAnomaly <==> ExceedsWithStd(rows[i].powerOutput - Mean(vals), sd))
  {
    var vals := GroupOutputs(rows, KeyOf(rows[i]));
    RowInOwnGroup(rows, rows[i]);
    ExceedsAgreesWithStd(rows[i].powerOutput - Mean(vals), SampleVariance(vals), sd);
  }

  /** A day on which a turbine reported one power value throughout has no
      anomaly. */
  lemma ConstantDayNotFlagged(rows: seq<Reading>, i: int)
    requires 0 <= i < |rows|
    requires AllEqual(GroupOutputs(rows, KeyOf(rows[i])))
    ensures !DetectAnomalies(rows)[i].isAnomaly
  {
    var vals := GroupOutputs(rows, KeyOf(rows[i]));
    if |vals| >= 2 {
      VarianceZeroIffAllEqual(vals);
    }
  }

  /** How many records of group `k` are flagged. */
  function FlagCount(recs: seq<AnomalyRecord>, k: DayKey): (c: nat)
    ensures c <= |recs|
  {
    if |recs| == 0 then 0
    else (if KeyOf(recs[0].reading) == k && recs[0].isAnomaly then 1 else 0) + FlagCount(recs[1..], k)
  }

  /** Counting flags of group `k` over the records is counting, over the
      group's values, those whose squared deviation from `m` exceeds `t`,
      when that is what the flags of the group say. */
  lemma {:induction false} FlagCountOfGroup(rs: seq<Reading>, recs: seq<AnomalyRecord>, k: DayKey, m: real, t: real)
    requires |recs| == |rs|
    requires forall i :: 0 <= i < |rs| ==> recs[i].reading == rs[i]
    requires forall i :: 0 <= i < |rs| && KeyOf(rs[i]) == k ==>
      (recs[i].isAnomaly <==> Sq(rs[i].powerOutput - m) > t)
    ensures FlagCount(recs, k) == CountBeyond(GroupOutputs(rs, k), m, t)
  {
    if |rs| > 0 {
      FlagCountOfGroup(rs[1..], recs[1..], k, m, t);
      var head := if KeyOf(rs[0]) == k then [rs[0].powerOutput] else [];
      var g := GroupOutputs(rs, k);
      assert g == head + GroupOutputs(rs[1..], k);
      assert recs[0].reading == rs[0];
      if KeyOf(rs[0]) == k {
        assert recs[0].isAnomaly <==> Sq(rs[0].powerOutput - m) > t;
        assert g[0] == rs[0].powerOutput;
        assert g[1..] == GroupOutputs(rs[1..], k);
      } else {
        assert g == GroupOutputs(rs[1..], k);
      }
    }
  }

  /** Records of a group none of whose records is flagged count no flag. */
  lemma {:induction false} FlagCountZero(recs: seq<AnomalyRecord>, k: DayKey)
    requires forall i :: 0 <= i < |recs| && KeyOf(recs[i].reading) == k ==> !recs[i].isAnomaly
    ensures FlagCount(recs, k) == 0
  {
    if |recs| > 0 {
      FlagCountZero(recs[1..], k);
    }
  }

  /** Within one group, a row is flagged exactly when its squared deviation
      from the group mean exceeds four times the group variance, or never
      when that variance is missing or zero. */
  lemma GroupVerdicts(rows: seq<Reading>, k: DayKey, i: int)
    requires 0 <= i < |rows| && KeyOf(rows[i]) == k
    ensures var vals := GroupOutputs(rows, k);
      var v := SampleVariance(vals);
      |vals| > 0 &&
      DetectAnomalies(rows)[i].isAnomaly ==
        (v.Some? && v.value != 0.0 && Sq(rows[i].powerOutput - Mean(vals)) > 4.0 * v.value)
  {
    RowInOwnGroup(rows, rows[i]);
  }

  /** On every (turbine, day) group of n rows, fewer than (n - 1) / 4 rows
      are flagged, if any are. */
  lemma FewAnomaliesPerDay(rows: seq<Reading>, k: DayKey)
    ensures var c := FlagCount(DetectAnomalies(rows), k);
      c == 0 || 4 * c < |GroupOutputs(rows, k)| - 1
  {
    var recs := DetectAnomalies(rows);
    var vals := GroupOutputs(rows, k);
    var v := SampleVariance(vals);
    forall i | 0 <= i < |rows| && KeyOf(rows[i]) == k
      ensures recs[i].isAnomaly ==
        (v.Some? && v.value != 0.0 && Sq(rows[i].powerOutput - Mean(vals)) > 4.0 * v.value)
    {
      GroupVerdicts(rows, k, i);
    }
    if v.Some? && v.value != 0.0 {
      FlagCountOfGroup(rows, recs, k, Mean(vals), 4.0 * v.value);
      FewBeyondTwoStd(vals);
    } else {
      FlagCountZero(recs, k);
    }
  }

  /** A day with at most five readings of a turbine never has an anomaly:
      one reading further than two standard deviations from the mean needs
      at least six. */
  lemma SmallDayNotFlagged(rows: seq<Reading>, i: int)
    requires 0 <= i < |rows|
    requires |GroupOutputs(rows, KeyOf(rows[i]))| <= 5
    ensures !DetectAnomalies(rows)[i].isAnomaly
  {
    var recs := DetectAnomalies(rows);
    var k := KeyOf(rows[i]);
    FewAnomaliesPerDay(rows, k);
    if recs[i].isAnomaly {
      FlagCountPositive(recs, k, i);
    }
  }

  /** A flagged record of group `k` is counted. */
  lemma {:induction false} FlagCountPositive(recs: seq<AnomalyRecord>, k: DayKey, i: int)
    requires 0 <= i < |recs|
    requires KeyOf(recs[i].reading) == k && recs[i].isAnomaly
    ensures FlagCount(recs, k) > 0
  {
    if i > 0 {
      FlagCountPositive(recs[1..], k, i - 1);
    }
  }

  /** Six readings of one turbine within one day: five at 0 and one at 6. */
  function SixReadings(): seq<Reading> {
    [Reading("T1", 0, 0.0, None), Reading("T1", 600, 0.0, None),
     Reading("T1", 1200, 0.0, None), Reading("T1", 1800, 0.0, None),
     Reading("T1", 2400, 0.0, None), Reading("T1", 3000, 6.0, None)]
  }

  lemma SixReadingsGroup()
    ensures GroupOutputs(SixReadings(), DayKey("T1", 0)) == [0.0, 0.0, 0.0, 0.0, 0.0, 6.0]
  {
    var rs := SixReadings();
    var k := DayKey("T1", 0);
    assert forall i :: 0 <= i < |rs| ==> KeyOf(rs[i]) == k;
    assert GroupOutputs(rs[5..], k) == [6.0];
    assert rs[4..][1..] == rs[5..];
    assert rs[3..][1..] == rs[4..];
    assert rs[2..][1..] == rs[3..];
    assert rs[1..][1..] == rs[2..];
  }

  /** The day's mean is 1 and its sample variance is 6, so the reading at 6
      lies 5 from the mean, beyond 2 sqrt 6 (about 4.9). */
  lemma SixReadingsMoments()
    ensures var vals := [0.0, 0.0, 0.0, 0.0, 0.0, 6.0];
      Mean(vals) == 1.0 && SampleVariance(vals) == Some(6.0)
  {
    var vals := [0.0, 0.0, 0.0, 0.0, 0.0, 6.0];
    assert Sum(vals[5..]) == 6.0;
    assert vals[4..][1..] == vals[5..];
    assert vals[3..][1..] == vals[4..];
    assert vals[2..][1..] == vals[3..];
    assert vals[1..][1..] == vals[2..];
    assert Sum(vals) == 6.0;
    assert Sq(-1.0) == 1.0 && Sq(5.0) == 25.0;
    assert SquaredDeviations(vals[5..], 1.0) == 25.0;
    assert SquaredDeviations(vals, 1.0) == 30.0;
  }

  /** The verdict on a row once its group's mean and variance are known. */
  lemma VerdictFromMoments(rows: seq<Reading>, i: int, m: real, v: real)
    requires 0 <= i < |rows|
    requires var vals := GroupOutputs(rows, KeyOf(rows[i]));
      |vals| > 0 && Mean(vals) == m && SampleVariance(vals) == Some(v) && v != 0.0
    ensures DetectAnomalies(rows)[i].isAnomaly == (Sq(rows[i].powerOutput - m) > 4.0 * v)
  {
    GroupVerdicts(rows, KeyOf(rows[i]), i);
  }

  /** Six readings suffice for a flag, so the five-reading bound of
      `SmallDayNotFlagged` cannot be raised. */
  lemma SixthReadingFlagged()
    ensures DetectAnomalies(SixReadings())[5].isAnomaly
    ensures forall i :: 0 <= i < 5 ==> !DetectAnomalies(SixReadings())[i].isAnomaly
  {
    var rs := SixReadings();
    SixReadingsGroup();
    SixReadingsMoments();
    assert forall i :: 0 <= i < |rs| ==> KeyOf(rs[i]) == DayKey("T1", 0);
    assert Sq(5.0) == 25.0 && Sq(-1.0) == 1.0;
    VerdictFromMoments(rs, 5, 1.0, 6.0);
    forall i | 0 <= i < 5 ensures !DetectAnomalies(rs)[i].isAnomaly {
      VerdictFromMoments(rs, i, 1.0, 6.0);
    }
  }
}
