/** The daily summary: minimum, maximum and mean power of every
    (turbine, calendar day) group of the cleaned table. */
module DailyStats {
  import opened Seqs
  import opened Readings
  import opened Sorting
  import opened Stats

  /** One row of the daily table. */
  datatype DailyStat = DailyStat(
    turbineId: string,
    date: int,
    minOutput: real,
    maxOutput: real,
    avgOutput: real)

  function StatKey(d: DailyStat): DayKey {
    DayKey(d.turbineId, d.date)
  }

  /** Whether some row of the table falls in group `k`. */
  predicate HasGroup(rows: seq<Reading>, k: DayKey) {
    exists i :: 0 <= i < |rows| && KeyOf(rows[i]) == k
  }

  /** The distinct groups of the table in ascending (turbine, day) order,
      as the grouping step of the data frame library lists them. */
  function Groups(rows: seq<Reading>): (g: seq<DayKey>)
    ensures forall k :: k in g <==> HasGroup(rows, k)
    ensures forall i, j :: 0 <= i < j < |g| ==> DayKeyLe(g[i], g[j]) && g[i] != g[j]
    ensures |g| == |Elements(DayKeys(rows))|
  {
    var keys := DayKeys(rows);
    var distinct := Dedup(keys);
    var g := SortKeys(distinct);
    NoDuplicatesOfPermutation(g, distinct);
    assert forall k :: k in g <==> k in distinct by {
      forall k ensures k in g <==> k in distinct {
        assert k in g <==> k in multiset(g);
      }
    }
    assert forall k :: k in keys <==> HasGroup(rows, k) by {
      forall k | HasGroup(rows, k) ensures k in keys {
        var i :| 0 <= i < |rows| && KeyOf(rows[i]) == k;
        assert keys[i] == k;
      }
    }
    g
  }

  /** A group with a row has a value. */
  lemma GroupNonEmpty(rows: seq<Reading>, k: DayKey)
    requires HasGroup(rows, k)
    ensures |GroupOutputs(rows, k)| > 0
  {
    var i :| 0 <= i < |rows| && KeyOf(rows[i]) == k;
    assert rows[i].powerOutput in GroupOutputs(rows, k);
  }

  /** The summary of one group. */
  function GroupStat(rows: seq<Reading>, k: DayKey): (d: DailyStat)
    requires HasGroup(rows, k)
    ensures StatKey(d) == k
    ensures |GroupOutputs(rows, k)| > 0
  {
    GroupNonEmpty(rows, k);
    var vals := GroupOutputs(rows, k);
    DailyStat(k.turbineId, k.date, Min(vals), Max(vals), Mean(vals))
  }

  /** One summary row per (turbine, day) group, in ascending group order. */
  function CalculateDailyStats(rows: seq<Reading>): (r: seq<DailyStat>)
    ensures |r| == |Elements(DayKeys(rows))|
    ensures forall i :: 0 <= i < |r| ==> HasGroup(rows, StatKey(r[i]))
    ensures forall k :: HasGroup(rows, k) ==> exists i :: 0 <= i < |r| && StatKey(r[i]) == k
    ensures forall i, j :: 0 <= i < j < |r| ==> DayKeyLe(StatKey(r[i]), StatKey(r[j])) && StatKey(r[i]) != StatKey(r[j])
  {
    var g := Groups(rows);
    var r := seq(|g|, i requires 0 <= i < |g| => GroupStat(rows, g[i]));
    StatKeysAreGroups(rows, g, r);
    r
  }

  lemma StatKeysAreGroups(rows: seq<Reading>, g: seq<DayKey>, r: seq<DailyStat>)
    requires g == Groups(rows)
    requires |r| == |g|
    requires forall i :: 0 <= i < |r| ==> StatKey(r[i]) == g[i]
    ensures forall i :: 0 <= i < |r| ==> HasGroup(rows, StatKey(r[i]))
    ensures forall k :: HasGroup(rows, k) ==> exists i :: 0 <= i < |r| && StatKey(r[i]) == k
    ensures forall i, j :: 0 <= i < j < |r| ==> DayKeyLe(StatKey(r[i]), StatKey(r[j])) && StatKey(r[i]) != StatKey(r[j])
  {
    forall k | HasGroup(rows, k) ensures exists i :: 0 <= i < |r| && StatKey(r[i]) == k {
      var i :| 0 <= i < |g| && g[i] == k;
      assert StatKey(r[i]) == k;
    }
  }

  /** Each record describes its group: the minimum and maximum are values of
      the group bounding all others, and the average is the group mean,
      which lies between them. */
  lemma DailyStatDescribesGroup(rows: seq<Reading>, i: int)
    requires 0 <= i < |CalculateDailyStats(rows)|
    ensures var d := CalculateDailyStats(rows)[i];
      var vals := GroupOutputs(rows, StatKey(d));
      && |vals| > 0
      && d.minOutput in vals && d.maxOutput in vals
      && (forall x :: x in vals ==> d.minOutput <= x <= d.maxOutput)
      && d.avgOutput == Mean(vals)
      && d.minOutput <= d.avgOutput <= d.maxOutput
  {
    var g := Groups(rows);
    var d := CalculateDailyStats(rows)[i];
    assert d == GroupStat(rows, g[i]);
    MeanBetweenMinAndMax(GroupOutputs(rows, g[i]));
  }

  /** Every cleaned row is summarised by the record of its own group, whose
      minimum and maximum enclose the row's power. */
  lemma RowWithinDailyRange(rows: seq<Reading>, j: int)
    requires 0 <= j < |rows|
    ensures var r := CalculateDailyStats(rows);
      exists i :: 0 <= i < |r| && StatKey(r[i]) == KeyOf(rows[j])
        && r[i].minOutput <= rows[j].powerOutput <= r[i].maxOutput
  {
    var r := CalculateDailyStats(rows);
    assert HasGroup(rows, KeyOf(rows[j]));
    var i :| 0 <= i < |r| && StatKey(r[i]) == KeyOf(rows[j]);
    DailyStatDescribesGroup(rows, i);
    assert rows[j].powerOutput in GroupOutputs(rows, KeyOf(rows[j]));
  }

  /** A day on which a turbine reported one value throughout has that value
      as its minimum, maximum and average. */
  lemma ConstantDayStat(rows: seq<Reading>, i: int)
    requires 0 <= i < |CalculateDailyStats(rows)|
    requires AllEqual(GroupOutputs(rows, StatKey(CalculateDailyStats(rows)[i])))
    ensures var d := CalculateDailyStats(rows)[i];
      var x := GroupOutputs(rows, StatKey(d))[0];
      d.minOutput == x && d.maxOutput == x && d.avgOutput == x
  {
    var d := CalculateDailyStats(rows)[i];
    var vals := GroupOutputs(rows, StatKey(d));
    DailyStatDescribesGroup(rows, i);
    MeanOfAllEqual(vals);
  }
}
