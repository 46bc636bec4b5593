/** Sequence combinators used to express the table operations of the
    pipeline: row filters, row-wise maps that may drop a row, and the
    removal of exact duplicate rows. */
module Seqs {
  import opened Options

  /** The set of distinct elements of a sequence. */
  function Elements<T>(s: seq<T>): set<T> {
    set x | x in s
  }

  predicate NoDuplicates<T(==)>(s: seq<T>) {
    forall i, j :: 0 <= i < j < |s| ==> s[i] != s[j]
  }

  /** Keeps the elements satisfying `p`, in order. */
  function Filter<T(!new)>(s: seq<T>, p: T -> bool): (r: seq<T>)
    ensures |r| <= |s|
    ensures forall x :: x in r <==> x in s && p(x)
    ensures forall x :: multiset(r)[x] == if p(x) then multiset(s)[x] else 0
  {
    if |s| == 0 then []
    else
      assert s == [s[0]] + s[1..];
      (if p(s[0]) then [s[0]] else []) + Filter(s[1..], p)
  }

  /** The number of elements of `s` whose image under `f` is `b`. */
  function Hits<A, B(==)>(s: seq<A>, f: A -> Option<B>, b: B): nat {
    if |s| == 0 then 0
    else (if f(s[0]) == Some(b) then 1 else 0) + Hits(s[1..], f, b)
  }

  /** Applies `f` to every element, keeping the defined results in order;
      an element whose image is `None` contributes nothing. */
  function FilterMap<A, B(!new)>(s: seq<A>, f: A -> Option<B>): (r: seq<B>)
    ensures |r| <= |s|
    ensures forall b :: b in r <==> exists i :: 0 <= i < |s| && f(s[i]) == Some(b)
  {
    if |s| == 0 then []
    else
      var rest := FilterMap(s[1..], f);
      assert forall b :: b in rest <==> exists i :: 1 <= i < |s| && f(s[i]) == Some(b) by {
        forall b | b in rest
          ensures exists i :: 1 <= i < |s| && f(s[i]) == Some(b)
        {
          var i :| 0 <= i < |s[1..]| && f(s[1..][i]) == Some(b);
          assert f(s[i + 1]) == Some(b);
        }
        forall b, i | 1 <= i < |s| && f(s[i]) == Some(b)
          ensures b in rest
        {
          assert f(s[1..][i - 1]) == Some(b);
        }
      }
      match f(s[0])
      case Some(b) => [b] + rest
      case None => rest
  }

  lemma {:induction false} ElementsOfPrefix<T>(s: seq<T>)
    requires |s| > 0
    ensures Elements(s) == Elements(s[..|s| - 1]) + {s[|s| - 1]}
  {
    var p := s[..|s| - 1];
    forall x | x in s ensures x in p || x == s[|s| - 1] {
      var i :| 0 <= i < |s| && s[i] == x;
      if i < |s| - 1 {
        assert p[i] == x;
      }
    }
  }

  /** Removes exact duplicates, keeping one copy of each value (the data
      frame's `drop_duplicates`). The body keeps first occurrences in order;
      the contract states membership and distinctness only. */
  function Dedup<T(==,!new)>(s: seq<T>): (r: seq<T>)
    ensures forall x :: x in r <==> x in s
    ensures NoDuplicates(r)
    ensures |r| == |Elements(s)|
  {
    if |s| == 0 then []
    else
      var p := s[..|s| - 1];
      var last := s[|s| - 1];
      var rest := Dedup(p);
      ElementsOfPrefix(s);
      MembersOfPrefix(s);
      assert Elements(rest) == Elements(p);
      if last in rest then
        assert Elements(s) == Elements(p);
        rest
      else
        assert last !in Elements(p);
        assert |Elements(s)| == |Elements(p)| + 1;
        AppendDistinct(rest, last);
        rest + [last]
  }

  /** The members of a non-empty sequence are those of its prefix and its
      last element. */
  lemma MembersOfPrefix<T>(s: seq<T>)
    requires |s| > 0
    ensures forall x :: x in s <==> x in s[..|s| - 1] || x == s[|s| - 1]
  {
    assert s == s[..|s| - 1] + [s[|s| - 1]];
  }

  lemma AppendDistinct<T>(s: seq<T>, x: T)
    requires NoDuplicates(s)
    requires x !in s
    ensures NoDuplicates(s + [x])
  {
    var r := s + [x];
    forall i, j | 0 <= i < j < |r| ensures r[i] != r[j] {
      if j < |s| {
        assert r[i] == s[i] && r[j] == s[j];
      } else {
        assert r[i] == s[i];
      }
    }
  }

  /** A sequence without duplicates is left unchanged by `Dedup`. */
  lemma {:induction false} DedupOfDistinct<T(!new)>(s: seq<T>)
    requires NoDuplicates(s)
    ensures Dedup(s) == s
  {
    if |s| > 0 {
      var p := s[..|s| - 1];
      assert NoDuplicates(p);
      DedupOfDistinct(p);
      assert s[|s| - 1] !in p;
      assert s == p + [s[|s| - 1]];
    }
  }

  /** Removing duplicates twice removes nothing more. */
  lemma DedupIdempotent<T(!new)>(s: seq<T>)
    ensures Dedup(Dedup(s)) == Dedup(s)
  {
    DedupOfDistinct(Dedup(s));
  }

  /** A filter whose predicate holds throughout keeps everything. */
  lemma {:induction false} FilterKeepsAll<T(!new)>(s: seq<T>, p: T -> bool)
    requires forall i :: 0 <= i < |s| ==> p(s[i])
    ensures Filter(s, p) == s
  {
    if |s| > 0 {
      FilterKeepsAll(s[1..], p);
      assert s == [s[0]] + s[1..];
    }
  }

  /** Without duplicates, every value occurs at most once. */
  lemma {:induction false} NoDuplicatesCount<T>(s: seq<T>, x: T)
    requires NoDuplicates(s)
    ensures multiset(s)[x] <= 1
  {
    if |s| > 0 {
      var rest := s[1..];
      assert s == [s[0]] + rest;
      assert NoDuplicates(rest);
      NoDuplicatesCount(rest, x);
      if x == s[0] {
        assert x !in rest;
      }
    }
  }

  /** A reordering of a sequence without duplicates has none either. */
  lemma NoDuplicatesOfPermutation<T>(a: seq<T>, b: seq<T>)
    requires multiset(a) == multiset(b)
    requires NoDuplicates(b)
    ensures NoDuplicates(a)
  {
    forall i, j | 0 <= i < j < |a| ensures a[i] != a[j] {
      if a[i] == a[j] {
        var x := a[i];
        assert a == a[..j] + a[j..];
        assert a[..j][i] == x;
        assert a[j..][0] == x;
        assert multiset(a[..j])[x] >= 1;
        assert multiset(a[j..])[x] >= 1;
        NoDuplicatesCount(b, x);
        assert false;
      }
    }
  }

  /** When `f` is defined everywhere on `s`, `FilterMap` drops nothing and
      keeps the order. */
  lemma {:induction false} FilterMapAllDefined<A, B(!new)>(s: seq<A>, f: A -> Option<B>)
    requires forall i :: 0 <= i < |s| ==> f(s[i]).Some?
    ensures |FilterMap(s, f)| == |s|
    ensures forall i :: 0 <= i < |s| ==> FilterMap(s, f)[i] == f(s[i]).value
  {
    if |s| > 0 {
      FilterMapAllDefined(s[1..], f);
    }
  }

  /** Every element with a defined image contributes exactly one result:
      each value occurs as often as elements map to it. */
  lemma {:induction false} FilterMapMultiplicity<A, B(!new)>(s: seq<A>, f: A -> Option<B>)
    ensures forall b :: multiset(FilterMap(s, f))[b] == Hits(s, f, b)
  {
    if |s| > 0 {
      FilterMapMultiplicity(s[1..], f);
    }
  }

  /** A filter-map keeps one result per element whose image is defined: with
      `p` marking exactly the elements whose image is `None`, the results
      and the elements `p` selects together account for every element. */
  lemma {:induction false} FilterMapCount<A(!new), B(!new)>(s: seq<A>, f: A -> Option<B>, p: A -> bool)
    requires forall i :: 0 <= i < |s| ==> (p(s[i]) <==> f(s[i]).None?)
    ensures |FilterMap(s, f)| + |Filter(s, p)| == |s|
  {
    if |s| > 0 {
      assert forall i :: 0 <= i < |s[1..]| ==> s[1..][i] == s[i + 1];
      FilterMapCount(s[1..], f, p);
    }
  }
}
