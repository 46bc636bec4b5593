/** The rows of the turbine tables and the orders and groupings the
    pipeline uses on them. */
module Readings {
  import opened Options

  /** A raw row as loaded from one daily file: every cell may be missing,
      and the timestamp is still the unparsed text. */
  datatype RawReading = RawReading(
    turbineId: Option<string>,
    timestamp: Option<string>,
    powerOutput: Option<real>,
    sourceFile: Option<string>)

  /** A row with a turbine and a parsed instant (UTC seconds) but possibly
      no power value yet. */
  datatype KeyedReading = KeyedReading(
    turbineId: string,
    timestamp: int,
    powerOutput: Option<real>,
    sourceFile: Option<string>)

  /** A fully populated row: the shape of every cleaned record. */
  datatype Reading = Reading(
    turbineId: string,
    timestamp: int,
    powerOutput: real,
    sourceFile: Option<string>)

  /** Lexicographic order on identifiers, comparing code points as Python
      compares `str` values. */
  predicate StrLess(a: string, b: string)
    decreases |a|
  {
    if |a| == 0 then |b| > 0
    else if |b| == 0 then false
    else if a[0] < b[0] then true
    else if a[0] == b[0] then StrLess(a[1..], b[1..])
    else false
  }

  lemma {:induction false} StrLessIrreflexive(a: string)
    ensures !StrLess(a, a)
    decreases |a|
  {
    if |a| > 0 {
      StrLessIrreflexive(a[1..]);
    }
  }

  lemma {:induction false} StrLessTransitive(a: string, b: string, c: string)
    requires StrLess(a, b) && StrLess(b, c)
    ensures StrLess(a, c)
    decreases |a|
  {
    if |a| > 0 && a[0] == b[0] && b[0] == c[0] {
      StrLessTransitive(a[1..], b[1..], c[1..]);
    }
  }

  lemma {:induction false} StrLessTrichotomy(a: string, b: string)
    ensures StrLess(a, b) || a == b || StrLess(b, a)
    decreases |a|
  {
    if |a| > 0 && |b| > 0 && a[0] == b[0] {
      StrLessTrichotomy(a[1..], b[1..]);
      if a[1..] == b[1..] {
        assert a == [a[0]] + a[1..];
        assert b == [b[0]] + b[1..];
      }
    }
  }

  /** The sort key of the cleaned table: turbine first, then time. */
  predicate KeyLe(a: Reading, b: Reading) {
    StrLess(a.turbineId, b.turbineId)
    || (a.turbineId == b.turbineId && a.timestamp <= b.timestamp)
  }

  lemma KeyLeTotal(a: Reading, b: Reading)
    ensures KeyLe(a, b) || KeyLe(b, a)
  {
    StrLessTrichotomy(a.turbineId, b.turbineId);
  }

  lemma KeyLeTransitive(a: Reading, b: Reading, c: Reading)
    requires KeyLe(a, b) && KeyLe(b, c)
    ensures KeyLe(a, c)
  {
    if StrLess(a.turbineId, b.turbineId) && StrLess(b.turbineId, c.turbineId) {
      StrLessTransitive(a.turbineId, b.turbineId, c.turbineId);
    }
  }

  predicate SortedByKey(s: seq<Reading>) {
    forall i, j :: 0 <= i < j < |s| ==> KeyLe(s[i], s[j])
  }

  /** Power values of one turbine's rows, in table order. */
  function TurbineOutputs(rows: seq<Reading>, id: string): (r: seq<real>)
    ensures forall x :: x in r <==> exists i :: 0 <= i < |rows| && rows[i].turbineId == id && rows[i].powerOutput == x
  {
    if |rows| == 0 then []
    else
      var rest := TurbineOutputs(rows[1..], id);
      assert forall i :: 1 <= i < |rows| ==> rows[i] == rows[1..][i - 1];
      (if rows[0].turbineId == id then [rows[0].powerOutput] else []) + rest
  }

  const SecondsPerDay: int := 86400

  /** The UTC calendar day of an instant, as a day number since the epoch
      (floor division, so instants before the epoch fall on negative days). */
  function DayOf(timestamp: int): (d: int)
    ensures d * SecondsPerDay <= timestamp < (d + 1) * SecondsPerDay
  {
    timestamp / SecondsPerDay
  }

  /** The grouping key of the daily stages. */
  datatype DayKey = DayKey(turbineId: string, date: int)

  function KeyOf(r: Reading): DayKey {
    DayKey(r.turbineId, DayOf(r.timestamp))
  }

  /** Power values of the rows in one (turbine, day) group, in table order. */
  function GroupOutputs(rows: seq<Reading>, key: DayKey): (r: seq<real>)
    ensures |r| <= |rows|
    ensures forall x :: x in r <==> exists i :: 0 <= i < |rows| && KeyOf(rows[i]) == key && rows[i].powerOutput == x
  {
    if |rows| == 0 then []
    else
      var rest := GroupOutputs(rows[1..], key);
      assert forall i :: 1 <= i < |rows| ==> rows[i] == rows[1..][i - 1];
      (if KeyOf(rows[0]) == key then [rows[0].powerOutput] else []) + rest
  }

  /** The order of the daily tables: turbine first, then calendar day. */
  predicate DayKeyLe(a: DayKey, b: DayKey) {
    StrLess(a.turbineId, b.turbineId)
    || (a.turbineId == b.turbineId && a.date <= b.date)
  }

  lemma DayKeyLeTotal(a: DayKey, b: DayKey)
    ensures DayKeyLe(a, b) || DayKeyLe(b, a)
  {
    StrLessTrichotomy(a.turbineId, b.turbineId);
  }

  lemma DayKeyLeTransitive(a: DayKey, b: DayKey, c: DayKey)
    requires DayKeyLe(a, b) && DayKeyLe(b, c)
    ensures DayKeyLe(a, c)
  {
    if StrLess(a.turbineId, b.turbineId) && StrLess(b.turbineId, c.turbineId) {
      StrLessTransitive(a.turbineId, b.turbineId, c.turbineId);
    }
  }

  lemma DayKeyLeAntisymmetric(a: DayKey, b: DayKey)
    requires DayKeyLe(a, b) && DayKeyLe(b, a)
    ensures a == b
  {
    StrLessIrreflexive(a.turbineId);
    if StrLess(a.turbineId, b.turbineId) && StrLess(b.turbineId, a.turbineId) {
      StrLessTransitive(a.turbineId, b.turbineId, a.turbineId);
    }
  }

  /** The group key of every row, in table order. */
  function DayKeys(rows: seq<Reading>): (r: seq<DayKey>)
    ensures |r| == |rows|
    ensures forall i :: 0 <= i < |rows| ==> r[i] == KeyOf(rows[i])
  {
    seq(|rows|, i requires 0 <= i < |rows| => KeyOf(rows[i]))
  }
}
