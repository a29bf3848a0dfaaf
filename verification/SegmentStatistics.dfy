/** From a segment's columns to its statistics: what the encoded bytes of an integer column give
    bounds the column, so a scan may be pruned by them. */
module SegmentStatistics {
  import opened Keys
  import opened SortedEntries
  import opened Values
  import opened MemTables
  import opened Merges
  import opened LsmModel
  import opened LsmEngine
  import opened Bytes
  import opened Expressions
  import opened SparseIndexes
  import opened SegmentPruning
  import Codecs = ColumnCodecs

  /** An encoded integer column; run-length columns keep their NULL marks in the runs. */
  datatype EncodedInts = EncodedInts(rle: bool, data: Buffer, nulls: seq<bool>)

  datatype ColumnStat = ColumnStat(minVal: Buffer, maxVal: Buffer, nullCount: nat)

  function Nums(vals: seq<Value>): (r: seq<int>)
    ensures |r| == |vals| && forall i :: 0 <= i < |vals| ==> Codecs.Is64(r[i])
  {
    seq(|vals|, i requires 0 <= i < |vals| => if vals[i].valid then vals[i].num else 0)
  }

  function NullRows(vals: seq<Value>): seq<bool> {
    seq(|vals|, i requires 0 <= i < |vals| => !vals[i].valid)
  }

  /** The encoded column stands for these integers and NULL marks. */
  ghost predicate Encodes(enc: EncodedInts, ints: seq<int>, nulls: seq<bool>)
    requires forall i :: 0 <= i < |ints| ==> Codecs.Is64(ints[i])
  {
    if enc.rle then
      var runs := Codecs.RunsIn(enc.data, |enc.data| / 16);
      |enc.data| % 16 == 0 && Codecs.Expand(runs) == Codecs.Plain(ints, nulls)
    else enc.data == Codecs.WordsBytes(ints) && enc.nulls == nulls
  }

  /** Runs of equal integers, NULL marks apart. */
  function RunCount(ints: seq<int>): nat {
    if |ints| <= 1 then 1
    else RunCount(ints[..|ints| - 1]) + if ints[|ints| - 1] != ints[|ints| - 2] then 1 else 0
  }

  /** Run-length encoding is chosen when there is at most one run for every two rows. */
  method ChoosesRLE(ints: seq<int>) returns (rle: bool)
    ensures rle <==> |ints| >= 2 && 2 * RunCount(ints) <= |ints|
  {
    if |ints| < 2 {
      return false;
    }
    var runCount := 1;
    for i := 1 to |ints|
      invariant runCount == RunCount(ints[..i])
    {
      assert ints[..i + 1][..i] == ints[..i];
      if ints[i] != ints[i - 1] {
        runCount := runCount + 1;
      }
    }
    assert ints[..|ints|] == ints;
    rle := 2 * runCount <= |ints|;
  }

  method EncodeInts(ints: seq<int>, nulls: seq<bool>) returns (enc: EncodedInts)
    requires |ints| < TWO32 && forall i :: 0 <= i < |ints| ==> Codecs.Is64(ints[i])
    ensures enc.rle <==> |ints| >= 2 && 2 * RunCount(ints) <= |ints|
    ensures Encodes(enc, ints, nulls)
  {
    var rle := ChoosesRLE(ints);
    if rle {
      var data := Codecs.EncodeRLE(ints, nulls);
      enc := EncodedInts(true, data, []);
    } else {
      enc := EncodedInts(false, Codecs.WordsBytes(ints), nulls);
    }
  }

  function CountMarks(nulls: seq<bool>, n: nat): nat {
    if n == 0 then 0 else CountMarks(nulls, n - 1) + if IsNullAt(nulls, n - 1) then 1 else 0
  }

  /** A column's statistics from its bytes. */
  method ComputeColumnStat(enc: EncodedInts, rowCount: nat) returns (stat: ColumnStat)
    requires enc.rle || 8 * rowCount <= |enc.data|
    ensures stat.nullCount == CountMarks(enc.nulls, rowCount)
    ensures |stat.minVal| == |stat.maxVal| && (stat.minVal == [] || |stat.minVal| == 8)
    ensures var span := SparseIndexes.Stored(stat.minVal, stat.maxVal);
      if !enc.rle then Spans(span, rowCount, NullMarks(enc.nulls), Words(enc.data))
      else |enc.data| >= 16 ==> Spans(span, |enc.data| / 16, RunNulls(enc.data), RunValues(enc.data))
  {
    var nullCount := 0;
    for i := 0 to rowCount
      invariant nullCount == CountMarks(enc.nulls, i)
    {
      if IsNullAt(enc.nulls, i) {
        nullCount := nullCount + 1;
      }
    }
    var lo, hi: Buffer;
    if enc.rle {
      lo, hi := ComputeRLEMinMax(enc.data, rowCount);
    } else {
      lo, hi := ComputeIntStats(enc.data, rowCount, enc.nulls);
    }
    stat := ColumnStat(lo, hi, nullCount);
  }

  // ----- every value of the column was scanned -----

  lemma {:induction false} WordsInAt(data: Buffer, n: nat, i: nat)
    requires 8 * n <= |data| && i < n
    ensures Codecs.WordsIn(data, n)[i] == WordAt(data, i)
  {
    hide Int64Of;
    if i < n - 1 { WordsInAt(data, n - 1, i); }
  }

  lemma PlainScanned(data: Buffer, ints: seq<int>, i: nat)
    requires (forall j :: 0 <= j < |ints| ==> Codecs.Is64(ints[j])) && data == Codecs.WordsBytes(ints) && i < |ints|
    ensures Words(data)(i) == ints[i]
  {
    hide WordAt;
    assert data[0..|data|] == data;
    Codecs.WordsRoundTrip(data, ints);
    WordsInAt(data, |ints|, i);
  }

  lemma {:induction false} RunsInAt(data: Buffer, n: nat, r: nat)
    requires 16 * n <= |data| && r < n
    ensures var run := Codecs.RunsIn(data, n)[r]; run.value == RunValues(data)(r) && run.isNull == RunNulls(data)(r)
  {
    hide Int64Of, Number;
    if r < n - 1 { RunsInAt(data, n - 1, r); }
  }

  /** Every row lies in a run. */
  lemma {:induction false} RowInRun(runs: seq<Codecs.Run>, i: nat) returns (r: nat)
    requires i < |Codecs.Expand(runs).ints|
    ensures r < |runs|
    ensures runs[r].value == Codecs.Expand(runs).ints[i] && runs[r].isNull == Codecs.Expand(runs).nulls[i]
  {
    var n := |runs| - 1;
    if i < |Codecs.Expand(runs[..n]).ints| {
      r := RowInRun(runs[..n], i);
    } else {
      r := n;
    }
  }

  lemma RLEScanned(data: Buffer, ints: seq<int>, nulls: seq<bool>, i: nat) returns (r: nat)
    requires |data| % 16 == 0 && Codecs.Expand(Codecs.RunsIn(data, |data| / 16)) == Codecs.Plain(ints, nulls) && i < |ints|
    ensures r < |data| / 16
    ensures RunNulls(data)(r) == Codecs.IsNull(nulls, i)
    ensures !Codecs.IsNull(nulls, i) ==> RunValues(data)(r) == ints[i]
  {
    hide RunNulls, RunValues;
    var n := |data| / 16;
    r := RowInRun(Codecs.RunsIn(data, n), i);
    RunsInAt(data, n, r);
  }

  /** Statistics computed from the bytes an integer column was encoded to bound the column. */
  lemma ColumnStatBounds(enc: EncodedInts, stat: ColumnStat, typ: DataType, vals: seq<Value>)
    requires typ.IsIntFamily() && IntColumn(vals) && Encodes(enc, Nums(vals), NullRows(vals))
    requires |stat.minVal| == |stat.maxVal| && (stat.minVal == [] || |stat.minVal| == 8)
    requires var span := SparseIndexes.Stored(stat.minVal, stat.maxVal);
      if !enc.rle then Spans(span, |vals|, NullMarks(enc.nulls), Words(enc.data))
      else |enc.data| >= 16 ==> Spans(span, |enc.data| / 16, RunNulls(enc.data), RunValues(enc.data))
    ensures Bounds(FooterStat(stat.minVal, stat.maxVal, stat.nullCount, typ), vals)
  {
    hide Spans, FooterStat, Words, RunNulls, RunValues, Bounds;
    var ints, nulls := Nums(vals), NullRows(vals);
    if vals == [] {
      NoValueToBound(FooterStat(stat.minVal, stat.maxVal, stat.nullCount, typ));
    } else if enc.rle {
      forall i | 0 <= i < |vals| && vals[i].valid
        ensures exists r: nat :: r < |enc.data| / 16 && !RunNulls(enc.data)(r) && RunValues(enc.data)(r) == vals[i].num
      {
        var r := RLEScanned(enc.data, ints, nulls, i);
      }
      var r := RLEScanned(enc.data, ints, nulls, 0);
      FooterStatBounds(|enc.data| / 16, RunNulls(enc.data), RunValues(enc.data), stat.minVal, stat.maxVal, stat.nullCount, typ, vals);
    } else {
      forall i | 0 <= i < |vals| && vals[i].valid
        ensures exists r: nat :: r < |vals| && !NullMarks(enc.nulls)(r) && Words(enc.data)(r) == vals[i].num
      {
        PlainScanned(enc.data, ints, i);
        assert !NullMarks(enc.nulls)(i);
      }
      FooterStatBounds(|vals|, NullMarks(enc.nulls), Words(enc.data), stat.minVal, stat.maxVal, stat.nullCount, typ, vals);
    }
  }

  lemma NoValueToBound(stat: Stat)
    ensures Bounds(stat, [])
  {
  }

  // ----- a built segment -----

  function ColumnOf(seg: Segment, c: nat): (r: seq<Value>)
    requires forall i :: 0 <= i < |seg.rows| ==> c < |seg.rows[i].value|
    ensures |r| == |seg.rows| && forall i :: 0 <= i < |r| ==> r[i] == seg.rows[i].value[c]
  {
    seq(|seg.rows|, i requires 0 <= i < |seg.rows| => seg.rows[i].value[c])
  }

  ghost predicate ColumnFits(seg: Segment, meta: seq<ColumnMeta>, c: nat) {
    c < |meta| && forall i :: 0 <= i < |seg.rows| ==> c < |seg.rows[i].value|
  }

  /** A footer entry of an integer column bounds the column. */
  ghost predicate GoodEntry(stat: ColumnStat, seg: Segment, meta: seq<ColumnMeta>, c: nat) {
    ColumnFits(seg, meta, c) &&
    (meta[c].typ.IsIntFamily() ==> Bounds(FooterStat(stat.minVal, stat.maxVal, stat.nullCount, meta[c].typ), ColumnOf(seg, c)))
  }

  ghost predicate GoodFooter(footer: seq<ColumnStat>, seg: Segment, meta: seq<ColumnMeta>) {
    |footer| == |meta| && forall c :: 0 <= c < |meta| ==> GoodEntry(footer[c], seg, meta, c)
  }

  lemma CanonicalInts(seg: Segment, meta: seq<ColumnMeta>, c: nat)
    requires CanonicalSegment(seg, meta) && c < |meta| && meta[c].typ.IsIntFamily()
    ensures IntColumn(ColumnOf(seg, c))
  {
    forall i | 0 <= i < |seg.rows| && seg.rows[i].value[c].valid ensures seg.rows[i].value[c].typ.IsIntFamily() {
      assert Kept(meta[c].typ, seg.rows[i].value[c]) == seg.rows[i].value[c];
    }
  }

  /** The footer of a built segment; the statistics of columns that hold no integers are given. */
  method BuildFooter(seg: Segment, meta: seq<ColumnMeta>, other: (nat, nat) -> ColumnStat) returns (footer: seq<ColumnStat>)
    requires CanonicalSegment(seg, meta) && |seg.rows| < TWO32
    ensures GoodFooter(footer, seg, meta)
  {
    hide Canonical, Encodes, Spans, Bounds, FooterStat;
    footer := [];
    for c := 0 to |meta|
      invariant |footer| == c && forall b :: 0 <= b < c ==> GoodEntry(footer[b], seg, meta, b)
    {
      RowsReach(seg, meta, c);
      var stat := other(seg.id, c);
      if meta[c].typ.IsIntFamily() {
        var vals := ColumnOf(seg, c);
        var enc := EncodeInts(Nums(vals), NullRows(vals));
        PlainLength(enc, vals);
        stat := ComputeColumnStat(enc, |vals|);
        CanonicalInts(seg, meta, c);
        ColumnStatBounds(enc, stat, meta[c].typ, vals);
      }
      footer := footer + [stat];
    }
  }

  lemma RowsReach(seg: Segment, meta: seq<ColumnMeta>, c: nat)
    requires CanonicalSegment(seg, meta) && c < |meta|
    ensures ColumnFits(seg, meta, c)
  {
  }

  lemma PlainLength(enc: EncodedInts, vals: seq<Value>)
    requires Encodes(enc, Nums(vals), NullRows(vals))
    ensures enc.rle || 8 * |vals| <= |enc.data|
  {
  }

  /** Registers every column's statistics under the segment, and changes nothing else. */
  method LoadFromSegment(si: SparseIndex, seg: Segment, footer: seq<ColumnStat>, meta: seq<ColumnMeta>)
    requires GoodFooter(footer, seg, meta)
    modifies si
    ensures StatsBound(si.stats, seg, meta)
    ensures forall k: StatKey :: k.seg != seg.id ==> (k in si.stats <==> k in old(si.stats)) && (k in si.stats ==> si.stats[k] == old(si.stats)[k])
  {
    hide Bounds, FooterStat, StatsBound, GoodEntry;
    for c := 0 to |footer|
      invariant forall b :: 0 <= b < c ==> Registered(si.stats, seg.id, b, footer[b], meta)
      invariant forall k: StatKey :: k.seg != seg.id ==> (k in si.stats <==> k in old(si.stats)) && (k in si.stats ==> si.stats[k] == old(si.stats)[k])
    {
      si.RegisterColumnStat(seg.id, c, footer[c].minVal, footer[c].maxVal, footer[c].nullCount, meta[c].typ);
    }
    RegisteredBound(si.stats, seg, footer, meta);
  }

  ghost predicate Registered(stats: map<StatKey, Stat>, id: nat, c: nat, stat: ColumnStat, meta: seq<ColumnMeta>) {
    c < |meta| && StatKey(id, c) in stats && stats[StatKey(id, c)] == FooterStat(stat.minVal, stat.maxVal, stat.nullCount, meta[c].typ)
  }

  lemma RegisteredBound(stats: map<StatKey, Stat>, seg: Segment, footer: seq<ColumnStat>, meta: seq<ColumnMeta>)
    requires GoodFooter(footer, seg, meta) && forall c :: 0 <= c < |footer| ==> Registered(stats, seg.id, c, footer[c], meta)
    ensures StatsBound(stats, seg, meta)
  {
    hide FooterStat, BoundsOne;
    forall c: nat, i | c < |meta| && meta[c].typ.IsIntFamily() && StatKey(seg.id, c) in stats && 0 <= i < |seg.rows|
      ensures c < |seg.rows[i].value| && BoundsOne(stats[StatKey(seg.id, c)], seg.rows[i].value[c])
    {
      assert GoodEntry(footer[c], seg, meta, c) && Registered(stats, seg.id, c, footer[c], meta);
      assert BoundsOne(stats[StatKey(seg.id, c)], ColumnOf(seg, c)[i]);
    }
  }

  /** Statistics of a segment stay right while other segments come and go. */
  lemma OtherSegments(stats: map<StatKey, Stat>, stats': map<StatKey, Stat>, seg: Segment, meta: seq<ColumnMeta>)
    requires StatsBound(stats, seg, meta)
    requires forall k: StatKey :: k.seg == seg.id && k in stats' ==> k in stats && stats'[k] == stats[k]
    ensures StatsBound(stats', seg, meta)
  {
    hide BoundsOne;
  }

  ghost predicate AllBound(stats: map<StatKey, Stat>, segs: seq<Segment>, meta: seq<ColumnMeta>) {
    forall i :: 0 <= i < |segs| ==> StatsBound(stats, segs[i], meta)
  }

  /** The statistics of segments with distinct ids, built and registered one after the other. */
  method IndexSegments(fp: FloatOps, segs: seq<Segment>, meta: seq<ColumnMeta>, other: (nat, nat) -> ColumnStat)
    returns (si: SparseIndex)
    requires forall i :: 0 <= i < |segs| ==> CanonicalSegment(segs[i], meta) && |segs[i].rows| < TWO32
    requires forall i, j :: 0 <= i < j < |segs| ==> segs[i].id < segs[j].id
    ensures fresh(si) && si.fp == fp && AllBound(si.stats, segs, meta)
  {
    hide StatsBound, CanonicalSegment, GoodFooter;
    si := new SparseIndex(fp);
    for i := 0 to |segs|
      invariant fresh(si) && si.fp == fp && AllBound(si.stats, segs[..i], meta)
    {
      ghost var before := si.stats;
      var footer := BuildFooter(segs[i], meta, other);
      LoadFromSegment(si, segs[i], footer, meta);
      forall j | 0 <= j < i ensures StatsBound(si.stats, segs[j], meta) {
        assert StatsBound(before, segs[..i][j], meta);
        OtherSegments(before, si.stats, segs[j], meta);
      }
    }
    assert segs[..|segs|] == segs;
  }

  /** Build the statistics of the engine's segments, scan with the predicates of a WHERE clause, and
      filter: over segments that share no key this keeps exactly the rows the clause keeps of all data. */
  method IndexedScan(e: Engine, en: Ops, pred: Expression, start: Key, end: Key, other: (nat, nat) -> ColumnStat)
    returns (results: seq<Entry<Row>>)
    requires e.Valid() && MonotoneFloats(en.fp) && SymmetricEq(en.fp)
    requires NumberedColumns(e.columnMeta) && OnIntColumns(Extract(pred), e.columnMeta)
    requires forall i :: 0 <= i < |e.segments| ==> |e.segments[i].rows| < TWO32
    requires KeyDisjoint(e.segments)
    ensures Sorted(results)
    ensures Passing(en, pred, ToMap(results)) ==
      Restrict(Passing(en, pred, Merged(AllSources(e.segments, e.immutable, e.active, e.columnMeta))), start, end)
  {
    hide MonotoneFloats, SymmetricEq, OnIntColumns, NumberedColumns, Extract, StatsBound, CanonicalSegment, Merged, ToMap, Restrict,
      Passing, Sorted, AllBound, NothingExposed, KeyDisjoint, Engine.LiveRows, PrunedSources;
    SegmentsAreGood(e);
    var si := IndexSegments(en.fp, e.segments, e.columnMeta, other);
    var preds := ExtractColumnPredicates(pred);
    results := ScanRangeWithPruning(e, si, start, end, preds);
    DisjointIsSafe(e, si, en, pred);
    FilteredScanIsExact(e, si, en, pred, start, end, results);
  }

  ghost predicate KeyDisjoint(segs: seq<Segment>) {
    forall i, j, k :: 0 <= j < i < |segs| && HasKey(segs[i].rows, k) ==> !HasKey(segs[j].rows, k)
  }

  lemma SegmentsAreGood(e: Engine)
    requires e.Valid()
    ensures DistinctNames(e.columnMeta)
    ensures forall i :: 0 <= i < |e.segments| ==> CanonicalSegment(e.segments[i], e.columnMeta)
    ensures forall i, j :: 0 <= i < j < |e.segments| ==> e.segments[i].id < e.segments[j].id
  {
    hide Sorted, GoodMem, GoodQueue, GoodIndex, MapMatches, NoFalseNegatives;
  }

  lemma DisjointIsSafe(e: Engine, si: SparseIndex, en: Ops, pred: Expression)
    requires si.fp == en.fp && MonotoneFloats(en.fp) && SymmetricEq(en.fp) && DistinctNames(e.columnMeta)
    requires NumberedColumns(e.columnMeta) && OnIntColumns(Extract(pred), e.columnMeta)
    requires forall i :: 0 <= i < |e.segments| ==> CanonicalSegment(e.segments[i], e.columnMeta)
    requires AllBound(si.stats, e.segments, e.columnMeta) && KeyDisjoint(e.segments)
    ensures PruningSafe(e, si, en, pred)
  {
    DisjointSegmentsSuffice(e, si, Extract(pred));
    hide MonotoneFloats, SymmetricEq, OnIntColumns, Extract, StatsBound, CanonicalSegment, DistinctNames, NumberedColumns, NothingExposed;
  }
}
