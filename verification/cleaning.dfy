/** The cleaning stage: de-duplication, timestamp parsing, removal of rows
    without a turbine or an instant, per-turbine median imputation, the
    widened percentile fence, and the final sort. */
module Cleaning {
  import opened Options
  import opened Seqs
  import opened Readings
  import opened Sorting
  import opened Stats
  import opened RealArith

  /** Conversion of timestamp text to an instant in UTC seconds; `None` for
      text that does not parse. The parser itself is not modelled. */
  type Parser = string -> Option<int>

  /** A row keeps going only with a turbine and a parseable timestamp. */
  function KeyRow(d: RawReading, parse: Parser): Option<KeyedReading> {
    match d.turbineId
    case None => None
    case Some(id) =>
      match d.timestamp
      case None => None
      case Some(text) =>
        match parse(text)
        case None => None
        case Some(t) => Some(KeyedReading(id, t, d.powerOutput, d.sourceFile))
  }

  /** Exact duplicates removed first (on the raw text, source file
      included), then timestamps parsed and unusable rows dropped. */
  function Keyed(raw: seq<RawReading>, parse: Parser): (ks: seq<KeyedReading>)
    ensures |ks| <= |Elements(raw)|
  {
    FilterMap(Dedup(raw), d => KeyRow(d, parse))
  }

  function OutputOf(k: KeyedReading, id: string): Option<real> {
    if k.turbineId == id then k.powerOutput else None
  }

  /** The non-missing power values of one turbine, in table order. */
  function KnownOutputs(ks: seq<KeyedReading>, id: string): seq<real> {
    FilterMap(ks, k => OutputOf(k, id))
  }

  /** A missing power value takes the turbine's median; a row whose turbine
      has no value at all is dropped. */
  function ImputeRow(k: KeyedReading, ks: seq<KeyedReading>): Option<Reading> {
    match k.powerOutput
    case Some(p) => Some(Reading(k.turbineId, k.timestamp, p, k.sourceFile))
    case None =>
      match Median(KnownOutputs(ks, k.turbineId))
      case Some(m) => Some(Reading(k.turbineId, k.timestamp, m, k.sourceFile))
      case None => None
  }

  function Imputed(ks: seq<KeyedReading>): (rs: seq<Reading>)
    ensures |rs| <= |ks|
    ensures forall i :: 0 <= i < |ks| && ks[i].powerOutput.Some? ==>
      Reading(ks[i].turbineId, ks[i].timestamp, ks[i].powerOutput.value, ks[i].sourceFile) in rs
  {
    FilterMap(ks, k => ImputeRow(k, ks))
  }

  /** The acceptance interval of one turbine. */
  datatype Fence = Fence(low: real, high: real)

  const LowQuantile: real := 0.01
  const HighQuantile: real := 0.99
  const LowScale: real := 0.5
  const HighScale: real := 1.5

  /** The widened band [0.5 q01, 1.5 q99] of a turbine's values; missing for
      a turbine without rows. */
  function FenceOf(rs: seq<Reading>, id: string): (f: Option<Fence>)
    ensures f.Some? <==> exists i :: 0 <= i < |rs| && rs[i].turbineId == id
  {
    var vals := TurbineOutputs(rs, id);
    assert |vals| > 0 ==> vals[0] in vals;
    assert forall i :: 0 <= i < |rs| && rs[i].turbineId == id ==> rs[i].powerOutput in vals;
    if |vals| == 0 then None
    else Some(Fence(LowScale * Quantile(vals, LowQuantile).value,
                    HighScale * Quantile(vals, HighQuantile).value))
  }

  /** Whether a row lies inside its turbine's fence, both ends included. */
  predicate InFence(r: Reading, rs: seq<Reading>)
    ensures InFence(r, rs) ==> exists i :: 0 <= i < |rs| && rs[i].turbineId == r.turbineId
  {
    match FenceOf(rs, r.turbineId)
    case Some(f) => f.low <= r.powerOutput <= f.high
    case None => false
  }

  /** The fence of every turbine is computed once, over the rows handed in,
      and then applied to those same rows. */
  function Fenced(rs: seq<Reading>): (out: seq<Reading>)
    ensures multiset(out) <= multiset(rs)
    ensures forall r :: r in out <==> r in rs && InFence(r, rs)
  {
    Filter(rs, r => InFence(r, rs))
  }

  /** The whole cleaning stage. */
  function CleanData(raw: seq<RawReading>, parse: Parser): (out: seq<Reading>)
    ensures SortedByKey(out)
    ensures var rs := Imputed(Keyed(raw, parse));
      forall r :: multiset(out)[r] == if InFence(r, rs) then multiset(rs)[r] else 0
    ensures |out| <= |Elements(raw)|
  {
    var ks := Keyed(raw, parse);
    var rs := Imputed(ks);
    var fenced := Fenced(rs);
    assert |fenced| <= |rs| <= |ks| <= |Dedup(raw)|;
    SortRows(fenced)
  }

  /** A row is in the cleaned table exactly when it is an imputed row inside
      its turbine's fence. */
  lemma CleanedRowsAreFencedRows(raw: seq<RawReading>, parse: Parser, r: Reading)
    ensures var rs := Imputed(Keyed(raw, parse));
      r in CleanData(raw, parse) <==> r in rs && InFence(r, rs)
  {
    var rs := Imputed(Keyed(raw, parse));
    assert r in CleanData(raw, parse) <==> r in multiset(CleanData(raw, parse));
    assert r in rs <==> r in multiset(rs);
  }

  /** Raw row `d` accounts for cleaned row `o`: same turbine, same source
      file, a timestamp text that parses to the row's instant, and either
      the same power value or a missing one replaced by `median`. */
  predicate Explains(d: RawReading, parse: Parser, o: Reading, median: Option<real>) {
    && d.turbineId == Some(o.turbineId)
    && d.sourceFile == o.sourceFile
    && d.timestamp.Some?
    && parse(d.timestamp.value) == Some(o.timestamp)
    && (d.powerOutput == Some(o.powerOutput)
        || (d.powerOutput == None && median == Some(o.powerOutput)))
  }

  /** Every keyed row is the keyed form of some raw row. */
  lemma KeyedRowOrigin(raw: seq<RawReading>, parse: Parser, k: KeyedReading)
    requires k in Keyed(raw, parse)
    ensures exists i :: 0 <= i < |raw| && KeyRow(raw[i], parse) == Some(k)
  {
    var d := Dedup(raw);
    var e :| 0 <= e < |d| && KeyRow(d[e], parse) == Some(k);
    assert d[e] in raw;
    var i :| 0 <= i < |raw| && raw[i] == d[e];
  }

  /** Conversely, every raw row with a turbine and a parseable timestamp is
      keyed: the key filter drops no other row. */
  lemma KeyedRowKept(raw: seq<RawReading>, parse: Parser, d: RawReading)
    requires d in raw
    requires KeyRow(d, parse).Some?
    ensures KeyRow(d, parse).value in Keyed(raw, parse)
  {
    var dd := Dedup(raw);
    assert d in dd;
    var e :| 0 <= e < |dd| && dd[e] == d;
  }

  /** The key filter keeps one row per distinct raw row and drops exactly
      the distinct raw rows without a turbine or a parseable timestamp. */
  lemma KeyedRowForRow(raw: seq<RawReading>, parse: Parser)
    ensures |Keyed(raw, parse)| + |Filter(Dedup(raw), d => KeyRow(d, parse).None?)| == |Elements(raw)|
  {
    FilterMapCount(Dedup(raw), d => KeyRow(d, parse), d => KeyRow(d, parse).None?);
  }

  /** A keyed row imputation cannot fill: its power value is missing and
      its turbine has no known value. */
  predicate Unfillable(k: KeyedReading, ks: seq<KeyedReading>) {
    k.powerOutput.None? && |KnownOutputs(ks, k.turbineId)| == 0
  }

  /** Imputation is row for row: it yields one row for every keyed row
      except the unfillable ones, which it drops. */
  lemma ImputedRowForRow(ks: seq<KeyedReading>)
    ensures |Imputed(ks)| + |Filter(ks, k => Unfillable(k, ks))| == |ks|
  {
    forall i | 0 <= i < |ks|
      ensures Unfillable(ks[i], ks) <==> ImputeRow(ks[i], ks).None?
    {
      var vals := KnownOutputs(ks, ks[i].turbineId);
      assert Median(vals).None? <==> |vals| == 0;
    }
    FilterMapCount(ks, k => ImputeRow(k, ks), k => Unfillable(k, ks));
  }

  /** Every imputed row is a keyed row with its power value filled in from
      the row itself or, when missing, from the turbine's median. */
  lemma ImputedRowOrigin(ks: seq<KeyedReading>, r: Reading)
    requires r in Imputed(ks)
    ensures exists i :: 0 <= i < |ks| && ImputeRow(ks[i], ks) == Some(r)
    ensures exists i :: (
      && 0 <= i < |ks|
      && ks[i].turbineId == r.turbineId
      && ks[i].timestamp == r.timestamp
      && ks[i].sourceFile == r.sourceFile
      && (ks[i].powerOutput == Some(r.powerOutput)
          || (ks[i].powerOutput == None
              && Median(KnownOutputs(ks, r.turbineId)) == Some(r.powerOutput))))
  {
    var i :| 0 <= i < |ks| && ImputeRow(ks[i], ks) == Some(r);
  }

  /** Every cleaned row is explained by a raw row, with the median of its
      turbine's known values standing in for a missing power value. */
  lemma CleanedRowOrigin(raw: seq<RawReading>, parse: Parser, o: Reading)
    requires o in CleanData(raw, parse)
    ensures exists i :: (
      && 0 <= i < |raw|
      && Explains(raw[i], parse, o, Median(KnownOutputs(Keyed(raw, parse), o.turbineId))))
  {
    var ks := Keyed(raw, parse);
    CleanedRowsAreFencedRows(raw, parse, o);
    ImputedRowOrigin(ks, o);
    var j :| 0 <= j < |ks| && ImputeRow(ks[j], ks) == Some(o);
    KeyedRowOrigin(raw, parse, ks[j]);
    var i :| 0 <= i < |raw| && KeyRow(raw[i], parse) == Some(ks[j]);
    StagesExplain(raw[i], parse, ks[j], ks, o);
  }

  lemma StagesExplain(d: RawReading, parse: Parser, k: KeyedReading, ks: seq<KeyedReading>, o: Reading)
    requires KeyRow(d, parse) == Some(k)
    requires ImputeRow(k, ks) == Some(o)
    ensures Explains(d, parse, o, Median(KnownOutputs(ks, o.turbineId)))
  {
  }

  /** A missing power value on a turbine that has at least one known value
      is replaced by the median of that turbine's known values. */
  lemma MissingOutputTakesMedian(ks: seq<KeyedReading>, k: KeyedReading)
    requires k in ks
    requires k.powerOutput == None
    requires |KnownOutputs(ks, k.turbineId)| > 0
    ensures var m := Median(KnownOutputs(ks, k.turbineId));
      m.Some? && Reading(k.turbineId, k.timestamp, m.value, k.sourceFile) in Imputed(ks)
  {
    var i :| 0 <= i < |ks| && ks[i] == k;
    assert ImputeRow(ks[i], ks).Some?;
  }

  /** A known power value is kept as it is by imputation. */
  lemma KnownOutputKept(ks: seq<KeyedReading>, k: KeyedReading)
    requires k in ks
    requires k.powerOutput.Some?
    ensures Reading(k.turbineId, k.timestamp, k.powerOutput.value, k.sourceFile) in Imputed(ks)
  {
    var i :| 0 <= i < |ks| && ks[i] == k;
    assert ImputeRow(ks[i], ks).Some?;
  }

  /** A turbine has known values exactly when one of its rows has a power
      value. */
  lemma KnownOutputsNonEmptyIff(ks: seq<KeyedReading>, id: string)
    ensures |KnownOutputs(ks, id)| > 0 <==>
      exists i :: 0 <= i < |ks| && ks[i].turbineId == id && ks[i].powerOutput.Some?
  {
    var vals := KnownOutputs(ks, id);
    if |vals| > 0 {
      assert vals[0] in vals;
    }
    if exists i :: 0 <= i < |ks| && ks[i].turbineId == id && ks[i].powerOutput.Some? {
      var i :| 0 <= i < |ks| && ks[i].turbineId == id && ks[i].powerOutput.Some?;
      assert OutputOf(ks[i], id) == Some(ks[i].powerOutput.value);
      assert ks[i].powerOutput.value in vals;
    }
  }

  /** A turbine all of whose power values are missing has no rows left
      after imputation. */
  lemma AllMissingTurbineDropped(ks: seq<KeyedReading>, id: string)
    requires forall i :: 0 <= i < |ks| && ks[i].turbineId == id ==> ks[i].powerOutput == None
    ensures forall r :: r in Imputed(ks) ==> r.turbineId != id
  {
    KnownOutputsNonEmptyIff(ks, id);
    forall r | r in Imputed(ks) ensures r.turbineId != id {
      var i :| 0 <= i < |ks| && ImputeRow(ks[i], ks) == Some(r);
    }
  }

  /** A turbine whose raw rows all lack a power value contributes no row to
      the cleaned table. */
  lemma AllMissingTurbineAbsent(raw: seq<RawReading>, parse: Parser, id: string)
    requires forall d :: d in raw && d.turbineId == Some(id) ==> d.powerOutput == None
    ensures forall o :: o in CleanData(raw, parse) ==> o.turbineId != id
  {
    var ks := Keyed(raw, parse);
    forall j | 0 <= j < |ks| && ks[j].turbineId == id ensures ks[j].powerOutput == None {
      KeyedRowOrigin(raw, parse, ks[j]);
    }
    AllMissingTurbineDropped(ks, id);
    forall o | o in CleanData(raw, parse) ensures o.turbineId != id {
      CleanedRowsAreFencedRows(raw, parse, o);
    }
  }

  /** Every cleaned row lies inside [0.5 q01, 1.5 q99] of its turbine, with
      both quantiles taken over the turbine's rows after imputation and
      before fencing. */
  lemma CleanedRowInFence(raw: seq<RawReading>, parse: Parser, o: Reading)
    requires o in CleanData(raw, parse)
    ensures var vals := TurbineOutputs(Imputed(Keyed(raw, parse)), o.turbineId);
      && |vals| > 0
      && LowScale * Quantile(vals, LowQuantile).value <= o.powerOutput
      && o.powerOutput <= HighScale * Quantile(vals, HighQuantile).value
  {
    CleanedRowsAreFencedRows(raw, parse, o);
  }

  /** The fence of a turbine with a single reading is [0.5 v, 1.5 v], which
      holds v exactly when v is not negative. */
  lemma SingleReadingFence(rs: seq<Reading>, r: Reading)
    requires r in rs
    requires TurbineOutputs(rs, r.turbineId) == [r.powerOutput]
    ensures r in Fenced(rs) <==> r.powerOutput >= 0.0
  {
    QuantileOfSingleton(r.powerOutput, LowQuantile);
    QuantileOfSingleton(r.powerOutput, HighQuantile);
  }

  /** After imputation, a turbine left with one reading keeps it in the
      cleaned table exactly when that reading is not negative. */
  lemma SingleReadingKept(raw: seq<RawReading>, parse: Parser, r: Reading)
    requires r in Imputed(Keyed(raw, parse))
    requires TurbineOutputs(Imputed(Keyed(raw, parse)), r.turbineId) == [r.powerOutput]
    ensures r in CleanData(raw, parse) <==> r.powerOutput >= 0.0
  {
    CleanedRowsAreFencedRows(raw, parse, r);
    SingleReadingFence(Imputed(Keyed(raw, parse)), r);
  }

  /** For a turbine whose values are not negative, the fence contains the
      band between its 1st and 99th percentiles: it widens that band and
      never narrows it. */
  lemma FenceWidensBand(rs: seq<Reading>, id: string)
    requires |TurbineOutputs(rs, id)| > 0
    requires forall x :: x in TurbineOutputs(rs, id) ==> x >= 0.0
    ensures var vals := TurbineOutputs(rs, id);
      && FenceOf(rs, id).Some?
      && FenceOf(rs, id).value.low <= Quantile(vals, LowQuantile).value
      && Quantile(vals, LowQuantile).value <= Quantile(vals, HighQuantile).value
      && Quantile(vals, HighQuantile).value <= FenceOf(rs, id).value.high
  {
    var vals := TurbineOutputs(rs, id);
    QuantileMonotone(vals, LowQuantile, HighQuantile);
    assert Min(vals) >= 0.0;
  }

  /** A row between its turbine's 1st and 99th percentiles survives the
      fence when the turbine's values are not negative. */
  lemma BandRowKept(rs: seq<Reading>, r: Reading)
    requires r in rs
    requires forall x :: x in TurbineOutputs(rs, r.turbineId) ==> x >= 0.0
    requires var vals := TurbineOutputs(rs, r.turbineId);
      |vals| > 0 &&
      Quantile(vals, LowQuantile).value <= r.powerOutput <= Quantile(vals, HighQuantile).value
    ensures r in Fenced(rs)
  {
    FenceWidensBand(rs, r.turbineId);
  }

  /** Three readings of one turbine, spread over four orders of magnitude. */
  function SpreadRows(): seq<Reading> {
    [Reading("T1", 0, 1.0, None), Reading("T1", 60, 200.0, None), Reading("T1", 120, 30000.0, None)]
  }

  lemma SpreadRowsOutputs()
    ensures TurbineOutputs(SpreadRows(), "T1") == [1.0, 200.0, 30000.0]
    ensures TurbineOutputs(SpreadRows()[1..], "T1") == [200.0, 30000.0]
  {
    var rs := SpreadRows();
    assert rs[1..][1..] == [rs[2]];
    assert [rs[2]][1..] == [];
  }

  /** The first fence over the spread rows is [2.49, 44106]. */
  lemma SpreadRowsFirstFence()
    ensures FenceOf(SpreadRows(), "T1") == Some(Fence(2.49, 44106.0))
  {
    SpreadRowsOutputs();
    SpreadQuantiles();
  }

  lemma SpreadQuantiles()
    ensures Quantile([1.0, 200.0, 30000.0], LowQuantile) == Some(4.98)
    ensures Quantile([1.0, 200.0, 30000.0], HighQuantile) == Some(29404.0)
  {
    var t := [1.0, 200.0, 30000.0];
    assert SortedReals(t);
    QuantileOfSorted(t, LowQuantile);
    QuantileOfSorted(t, HighQuantile);
    LinearQuantileOfTriple(1.0, 200.0, 30000.0, LowQuantile);
    assert Mul(0.02, 199.0) == 3.98;
    LinearQuantileOfTriple(1.0, 200.0, 30000.0, HighQuantile);
    assert Mul(0.98, 29800.0) == 29204.0;
  }

  /** The fence over the two survivors is [249, 44553]. */
  lemma SpreadRowsSecondFence()
    ensures FenceOf(SpreadRows()[1..], "T1") == Some(Fence(249.0, 44553.0))
  {
    SpreadRowsOutputs();
    SortRealsOfSorted([200.0, 30000.0]);
    LinearQuantileOfPair(200.0, 30000.0, LowQuantile);
    assert Mul(0.01, 29800.0) == 298.0;
    LinearQuantileOfPair(200.0, 30000.0, HighQuantile);
    assert Mul(0.99, 29800.0) == 29502.0;
  }

  /** The first fence keeps the two upper readings only. */
  lemma SpreadRowsFirstPass()
    ensures Fenced(SpreadRows()) == SpreadRows()[1..]
  {
    var rs := SpreadRows();
    SpreadRowsFirstFence();
    assert !InFence(rs[0], rs);
    assert rs[1..] == [rs[1], rs[2]];
    FilterKeepsAll(rs[1..], r => InFence(r, rs));
  }

  /** The second fence keeps the top reading only. */
  lemma SpreadRowsSecondPass()
    ensures Fenced(SpreadRows()[1..]) == SpreadRows()[2..]
  {
    var rs := SpreadRows()[1..];
    SpreadRowsSecondFence();
    assert !InFence(rs[0], rs);
    assert rs[1..] == [rs[1]];
    FilterKeepsAll(rs[1..], r => InFence(r, rs));
    assert SpreadRows()[2..] == rs[1..];
  }

  /** Fencing the fenced rows again can drop more: the fence is recomputed
      from the survivors. With one turbine at 1, 200 and 30000, the first
      fence [2.49, 44106] drops 1; on the survivors 200 and 30000 the fence
      becomes [249, 44553] and drops 200 as well. */
  lemma FenceNotIdempotent()
    ensures Fenced(SpreadRows()) == SpreadRows()[1..]
    ensures Fenced(Fenced(SpreadRows())) == SpreadRows()[2..]
    ensures Fenced(Fenced(SpreadRows())) != Fenced(SpreadRows())
  {
    SpreadRowsFirstPass();
    SpreadRowsSecondPass();
  }

  /** As a collection of rows, the cleaned table is the fenced table. */
  lemma CleanDataIsFenced(raw: seq<RawReading>, parse: Parser)
    ensures multiset(CleanData(raw, parse)) == multiset(Fenced(Imputed(Keyed(raw, parse))))
  {
    var rs := Imputed(Keyed(raw, parse));
    var out := CleanData(raw, parse);
    var fenced := Fenced(rs);
    forall x ensures multiset(out)[x] == multiset(fenced)[x] {
    }
  }

  /** The raw form of the spread rows, with timestamp texts "t0", "t1" and
      "t2". */
  function SpreadRaw(): seq<RawReading> {
    [RawReading(Some("T1"), Some("t0"), Some(1.0), None),
     RawReading(Some("T1"), Some("t1"), Some(200.0), None),
     RawReading(Some("T1"), Some("t2"), Some(30000.0), None)]
  }

  /** A parser reading "t0", "t1" and "t2" as 0, 60 and 120 seconds. */
  predicate SpreadParser(parse: Parser) {
    parse("t0") == Some(0) && parse("t1") == Some(60) && parse("t2") == Some(120)
  }

  /** A raw row with every cell present and a parseable timestamp. */
  predicate Complete(d: RawReading, parse: Parser) {
    d.turbineId.Some? && d.timestamp.Some? && parse(d.timestamp.value).Some? && d.powerOutput.Some?
  }

  function AsKeyed(d: RawReading, parse: Parser): KeyedReading
    requires Complete(d, parse)
  {
    KeyedReading(d.turbineId.value, parse(d.timestamp.value).value, d.powerOutput, d.sourceFile)
  }

  function AsReading(d: RawReading, parse: Parser): Reading
    requires Complete(d, parse)
  {
    Reading(d.turbineId.value, parse(d.timestamp.value).value, d.powerOutput.value, d.sourceFile)
  }

  /** A complete raw row whose reading lies in its turbine's fence is in
      the cleaned table, whatever the other raw rows are. */
  lemma CompleteRowCleaned(raw: seq<RawReading>, parse: Parser, d: RawReading)
    requires d in raw
    requires Complete(d, parse)
    requires InFence(AsReading(d, parse), Imputed(Keyed(raw, parse)))
    ensures AsReading(d, parse) in CleanData(raw, parse)
  {
    KeyedRowKept(raw, parse, d);
    KnownOutputKept(Keyed(raw, parse), AsKeyed(d, parse));
    CleanedRowsAreFencedRows(raw, parse, AsReading(d, parse));
  }

  /** Distinct complete rows are all keyed, in order. */
  lemma CompleteRowsKeyed(raw: seq<RawReading>, parse: Parser)
    requires NoDuplicates(raw)
    requires forall i :: 0 <= i < |raw| ==> Complete(raw[i], parse)
    ensures var ks := Keyed(raw, parse);
      |ks| == |raw| && forall i :: 0 <= i < |raw| ==>
        ks[i] == AsKeyed(raw[i], parse)
  {
    DedupOfDistinct(raw);
    FilterMapAllDefined(raw, d => KeyRow(d, parse));
  }

  /** Rows that all carry a power value are all kept by the imputation. */
  lemma KnownRowsImputed(ks: seq<KeyedReading>)
    requires forall i :: 0 <= i < |ks| ==> ks[i].powerOutput.Some?
    ensures var rs := Imputed(ks);
      |rs| == |ks| && forall i :: 0 <= i < |ks| ==>
        rs[i] == Reading(ks[i].turbineId, ks[i].timestamp, ks[i].powerOutput.value, ks[i].sourceFile)
  {
    FilterMapAllDefined(ks, k => ImputeRow(k, ks));
  }

  /** Distinct complete rows pass the stages before the fence unchanged and
      in order. */
  lemma CompleteRowsReachFence(raw: seq<RawReading>, parse: Parser)
    requires NoDuplicates(raw)
    requires forall i :: 0 <= i < |raw| ==> Complete(raw[i], parse)
    ensures var rs := Imputed(Keyed(raw, parse));
      |rs| == |raw| && forall i :: 0 <= i < |raw| ==> rs[i] == AsReading(raw[i], parse)
  {
    CompleteRowsKeyed(raw, parse);
    KnownRowsImputed(Keyed(raw, parse));
  }

  lemma SpreadRawImputed(parse: Parser)
    requires SpreadParser(parse)
    ensures Imputed(Keyed(SpreadRaw(), parse)) == SpreadRows()
    ensures Imputed(Keyed(SpreadRaw()[1..], parse)) == SpreadRows()[1..]
  {
    SpreadRawImputedAll(parse);
    SpreadRawImputedTail(parse);
  }

  lemma SpreadRawImputedAll(parse: Parser)
    requires SpreadParser(parse)
    ensures Imputed(Keyed(SpreadRaw(), parse)) == SpreadRows()
  {
    var raw := SpreadRaw();
    SpreadRawComplete(parse, raw);
    CompleteRowsReachFence(raw, parse);
  }

  lemma SpreadRawImputedTail(parse: Parser)
    requires SpreadParser(parse)
    ensures Imputed(Keyed(SpreadRaw()[1..], parse)) == SpreadRows()[1..]
  {
    var raw := SpreadRaw()[1..];
    SpreadRawComplete(parse, raw);
    CompleteRowsReachFence(raw, parse);
  }

  lemma SpreadRawComplete(parse: Parser, raw: seq<RawReading>)
    requires SpreadParser(parse)
    requires raw == SpreadRaw() || raw == SpreadRaw()[1..]
    ensures NoDuplicates(raw)
    ensures forall i :: 0 <= i < |raw| ==> Complete(raw[i], parse)
  {
  }

  /** Two raw rows of one turbine with the same timestamp text: one with a
      power value of 5, one without. They differ, so both survive the
      de-duplication. */
  function TwinRows(): seq<RawReading> {
    [RawReading(Some("T1"), Some("t"), Some(5.0), None),
     RawReading(Some("T1"), Some("t"), None, None)]
  }

  lemma TwinRowsKeyed(parse: Parser)
    requires parse("t").Some?
    ensures var t := parse("t").value;
      Keyed(TwinRows(), parse)
        == [KeyedReading("T1", t, Some(5.0), None), KeyedReading("T1", t, None, None)]
  {
    var raw := TwinRows();
    DedupOfDistinct(raw);
    assert raw[1..][1..] == [];
  }

  lemma TwinRowsImputed(parse: Parser)
    requires parse("t").Some?
    ensures var r := Reading("T1", parse("t").value, 5.0, None);
      Imputed(Keyed(TwinRows(), parse)) == [r, r]
  {
    var t := parse("t").value;
    var ks := Keyed(TwinRows(), parse);
    TwinRowsKeyed(parse);
    assert ks[1..][1..] == [];
    assert KnownOutputs(ks, "T1") == [5.0];
    assert Median([5.0]) == Some(5.0) by {
      assert Min([5.0]) == 5.0 && Max([5.0]) == 5.0;
    }
  }

  /** The fence over two equal readings of 5 is [2.5, 7.5]. */
  lemma TwinRowsFence(r: Reading)
    requires r.turbineId == "T1" && r.powerOutput == 5.0
    ensures InFence(r, [r, r])
  {
    assert [r, r][1..] == [r];
    assert [r][1..] == [];
    assert TurbineOutputs([r], "T1") == [5.0];
    assert TurbineOutputs([r, r], "T1") == [5.0, 5.0];
    SortRealsOfSorted([5.0, 5.0]);
    LinearQuantileOfPair(5.0, 5.0, LowQuantile);
    LinearQuantileOfPair(5.0, 5.0, HighQuantile);
    assert Mul(LowQuantile, 0.0) == 0.0 && Mul(HighQuantile, 0.0) == 0.0;
  }

  /** The de-duplication runs before imputation, so the cleaned table can
      hold two identical rows: the row without a power value takes the
      turbine's median, 5, and becomes a copy of its sibling. */
  lemma ImputationCanDuplicate(parse: Parser)
    requires parse("t").Some?
    ensures var r := Reading("T1", parse("t").value, 5.0, None);
      multiset(CleanData(TwinRows(), parse))[r] == 2
  {
    var r := Reading("T1", parse("t").value, 5.0, None);
    TwinRowsImputed(parse);
    TwinRowsFence(r);
  }

  /** Cleaning the raw form of the cleaned table again removes another row,
      so the cleaner is not idempotent: the spread rows clean to the readings
      200 and 30000, and those, cleaned again, to 30000 alone. */
  lemma CleanerNotIdempotent(parse: Parser)
    requires SpreadParser(parse)
    ensures multiset(CleanData(SpreadRaw(), parse)) == multiset(SpreadRows()[1..])
    ensures multiset(CleanData(SpreadRaw()[1..], parse)) == multiset(SpreadRows()[2..])
  {
    SpreadRawImputed(parse);
    CleanDataIsFenced(SpreadRaw(), parse);
    CleanDataIsFenced(SpreadRaw()[1..], parse);
    FenceNotIdempotent();
  }
}
