/** Insertion sorts for the two orders the pipeline needs: power values
    ascending (for medians and quantiles) and cleaned rows by
    (turbine, timestamp). */
module Sorting {
  import opened Readings

  predicate SortedReals(s: seq<real>) {
    forall i, j :: 0 <= i < j < |s| ==> s[i] <= s[j]
  }

  function InsertReal(x: real, s: seq<real>): (r: seq<real>)
    requires SortedReals(s)
    ensures SortedReals(r)
    ensures multiset(r) == multiset(s) + multiset{x}
  {
    if |s| == 0 then [x]
    else if x <= s[0] then
      assert forall y :: y in multiset(s) ==> x <= y by {
        forall y | y in multiset(s) ensures x <= y {
          var j :| 0 <= j < |s| && s[j] == y;
        }
      }
      ConsSorted(x, s);
      [x] + s
    else
      assert s == [s[0]] + s[1..];
      SortedRealsTail(s);
      var rest := InsertReal(x, s[1..]);
      assert forall y :: y in multiset(rest) ==> s[0] <= y by {
        forall y | y in multiset(rest) ensures s[0] <= y {
          if y != x {
            assert y in multiset(s[1..]);
            var j :| 0 <= j < |s| - 1 && s[1..][j] == y;
            assert s[j + 1] == y;
          }
        }
      }
      ConsSorted(s[0], rest);
      [s[0]] + rest
  }

  lemma SortedRealsTail(s: seq<real>)
    requires |s| > 0
    requires SortedReals(s)
    ensures SortedReals(s[1..])
  {
    forall i, j | 0 <= i < j < |s| - 1 ensures s[1..][i] <= s[1..][j] {
      assert s[1..][i] == s[i + 1] && s[1..][j] == s[j + 1];
    }
  }

  lemma ConsSorted(h: real, rest: seq<real>)
    requires SortedReals(rest)
    requires forall y :: y in multiset(rest) ==> h <= y
    ensures SortedReals([h] + rest)
  {
    var r := [h] + rest;
    forall i, j | 0 <= i < j < |r| ensures r[i] <= r[j] {
      assert r[j] == rest[j - 1];
      if i > 0 {
        assert r[i] == rest[i - 1];
      } else {
        assert rest[j - 1] in multiset(rest);
      }
    }
  }

  /** The values of `s` in ascending order. */
  function SortReals(s: seq<real>): (r: seq<real>)
    ensures SortedReals(r)
    ensures multiset(r) == multiset(s)
    ensures |r| == |s|
  {
    if |s| == 0 then []
    else
      assert s == [s[0]] + s[1..];
      InsertReal(s[0], SortReals(s[1..]))
  }

  /** Sorting leaves an already sorted group as it is. */
  lemma {:induction false} SortRealsOfSorted(s: seq<real>)
    requires SortedReals(s)
    ensures SortReals(s) == s
  {
    if |s| > 0 {
      SortRealsOfSorted(s[1..]);
      assert s == [s[0]] + s[1..];
    }
  }

  function InsertRow(x: Reading, s: seq<Reading>): (r: seq<Reading>)
    requires SortedByKey(s)
    ensures SortedByKey(r)
    ensures multiset(r) == multiset(s) + multiset{x}
  {
    if |s| == 0 then [x]
    else if KeyLe(x, s[0]) then
      assert forall y :: y in s ==> KeyLe(x, y) by {
        forall y | y in s ensures KeyLe(x, y) {
          var j :| 0 <= j < |s| && s[j] == y;
          if j > 0 {
            KeyLeTransitive(x, s[0], s[j]);
          }
        }
      }
      ConsSortedRows(x, s);
      [x] + s
    else
      assert s == [s[0]] + s[1..];
      SortedRowsTail(s);
      KeyLeTotal(x, s[0]);
      var rest := InsertRow(x, s[1..]);
      assert forall y :: y in rest ==> KeyLe(s[0], y) by {
        forall y | y in rest ensures KeyLe(s[0], y) {
          assert y in multiset(rest);
          if y != x {
            assert y in multiset(s[1..]);
            var j :| 0 <= j < |s| - 1 && s[1..][j] == y;
            assert s[j + 1] == y;
          }
        }
      }
      ConsSortedRows(s[0], rest);
      [s[0]] + rest
  }

  lemma SortedRowsTail(s: seq<Reading>)
    requires |s| > 0
    requires SortedByKey(s)
    ensures SortedByKey(s[1..])
  {
    forall i, j | 0 <= i < j < |s| - 1 ensures KeyLe(s[1..][i], s[1..][j]) {
      assert s[1..][i] == s[i + 1] && s[1..][j] == s[j + 1];
    }
  }

  lemma ConsSortedRows(h: Reading, rest: seq<Reading>)
    requires SortedByKey(rest)
    requires forall y :: y in rest ==> KeyLe(h, y)
    ensures SortedByKey([h] + rest)
  {
    var r := [h] + rest;
    forall i, j | 0 <= i < j < |r| ensures KeyLe(r[i], r[j]) {
      assert r[j] == rest[j - 1];
      if i > 0 {
        assert r[i] == rest[i - 1];
      } else {
        assert rest[j - 1] in rest;
      }
    }
  }

  /** The rows of `s` ordered by (turbine, timestamp). */
  function SortRows(s: seq<Reading>): (r: seq<Reading>)
    ensures SortedByKey(r)
    ensures multiset(r) == multiset(s)
    ensures |r| == |s|
  {
    if |s| == 0 then []
    else
      assert s == [s[0]] + s[1..];
      InsertRow(s[0], SortRows(s[1..]))
  }

  predicate SortedKeys(s: seq<DayKey>) {
    forall i, j :: 0 <= i < j < |s| ==> DayKeyLe(s[i], s[j])
  }

  function InsertKey(x: DayKey, s: seq<DayKey>): (r: seq<DayKey>)
    requires SortedKeys(s)
    ensures SortedKeys(r)
    ensures multiset(r) == multiset(s) + multiset{x}
  {
    if |s| == 0 then [x]
    else if DayKeyLe(x, s[0]) then
      assert forall y :: y in s ==> DayKeyLe(x, y) by {
        forall y | y in s ensures DayKeyLe(x, y) {
          var j :| 0 <= j < |s| && s[j] == y;
          if j > 0 {
            DayKeyLeTransitive(x, s[0], s[j]);
          }
        }
      }
      ConsSortedKeys(x, s);
      [x] + s
    else
      assert s == [s[0]] + s[1..];
      SortedKeysTail(s);
      DayKeyLeTotal(x, s[0]);
      var rest := InsertKey(x, s[1..]);
      assert forall y :: y in rest ==> DayKeyLe(s[0], y) by {
        forall y | y in rest ensures DayKeyLe(s[0], y) {
          assert y in multiset(rest);
          if y != x {
            assert y in multiset(s[1..]);
            var j :| 0 <= j < |s| - 1 && s[1..][j] == y;
            assert s[j + 1] == y;
          }
        }
      }
      ConsSortedKeys(s[0], rest);
      [s[0]] + rest
  }

  lemma SortedKeysTail(s: seq<DayKey>)
    requires |s| > 0
    requires SortedKeys(s)
    ensures SortedKeys(s[1..])
  {
    forall i, j | 0 <= i < j < |s| - 1 ensures DayKeyLe(s[1..][i], s[1..][j]) {
      assert s[1..][i] == s[i + 1] && s[1..][j] == s[j + 1];
    }
  }

  lemma ConsSortedKeys(h: DayKey, rest: seq<DayKey>)
    requires SortedKeys(rest)
    requires forall y :: y in rest ==> DayKeyLe(h, y)
    ensures SortedKeys([h] + rest)
  {
    var r := [h] + rest;
    forall i, j | 0 <= i < j < |r| ensures DayKeyLe(r[i], r[j]) {
      assert r[j] == rest[j - 1];
      if i > 0 {
        assert r[i] == rest[i - 1];
      } else {
        assert rest[j - 1] in rest;
      }
    }
  }

  /** The keys of `s` ordered by (turbine, day). */
  function SortKeys(s: seq<DayKey>): (r: seq<DayKey>)
    ensures SortedKeys(r)
    ensures multiset(r) == multiset(s)
    ensures |r| == |s|
  {
    if |s| == 0 then []
    else
      assert s == [s[0]] + s[1..];
      InsertKey(s[0], SortKeys(s[1..]))
  }
}
