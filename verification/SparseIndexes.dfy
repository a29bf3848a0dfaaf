/** Min/max statistics per segment column, and when they allow a segment to be skipped. */
module SparseIndexes {
  import opened Keys
  import opened SortedEntries
  import opened Values
  import opened Expressions
  import opened Bytes

  datatype Stat = Stat(minValue: Value, maxValue: Value, nullCount: nat, hasValues: bool)

  datatype StatKey = StatKey(seg: nat, col: nat)

  /** May the segment be skipped for `column op value`? */
  predicate SkipBy(fp: FloatOps, stat: Stat, op: BinaryOp, value: Value) {
    stat.hasValues &&
    match op
    case OpEq => LessThan(fp, value, stat.minValue) || LessThan(fp, stat.maxValue, value)
    case OpLt => !LessThan(fp, stat.minValue, value)
    case OpLe => LessThan(fp, value, stat.minValue)
    case OpGt => !LessThan(fp, value, stat.maxValue)
    case OpGe => LessThan(fp, stat.maxValue, value)
    case _ => false
  }

  /** Conversion to float keeps the order, and values that are less are not equal. */
  ghost predicate MonotoneFloats(fp: FloatOps) {
    && (forall x: Int64, y: Int64, f: Float64 {:trigger fp.ofInt(x), fp.ofInt(y), fp.lt(f, fp.ofInt(x))} ::
          x <= y && fp.lt(f, fp.ofInt(x)) ==> fp.lt(f, fp.ofInt(y)))
    && (forall x: Int64, y: Int64, f: Float64 {:trigger fp.ofInt(x), fp.ofInt(y), fp.lt(fp.ofInt(y), f)} ::
          x <= y && fp.lt(fp.ofInt(y), f) ==> fp.lt(fp.ofInt(x), f))
    && (forall f: Float64, g: Float64 :: fp.lt(f, g) ==> !fp.eq(f, g) && !fp.eq(g, f))
  }

  /** The statistics bound a value of an integer column. */
  ghost predicate BoundsOne(stat: Stat, v: Value) {
    v.valid && stat.hasValues ==>
      && v.typ.IsIntFamily()
      && stat.minValue.valid && stat.minValue.typ.IsIntFamily() && stat.minValue.num <= v.num
      && stat.maxValue.valid && stat.maxValue.typ.IsIntFamily() && v.num <= stat.maxValue.num
  }

  ghost predicate Bounds(stat: Stat, vals: seq<Value>) {
    forall i :: 0 <= i < |vals| ==> BoundsOne(stat, vals[i])
  }

  /** Skipping is safe: no bounded value satisfies the comparison, whatever the literal's type. */
  lemma SkipIsSafe(fp: FloatOps, stat: Stat, op: BinaryOp, literal: Value, v: Value)
    requires MonotoneFloats(fp) && BoundsOne(stat, v) && IsComparison(op)
    requires SkipBy(fp, stat, op, literal) && literal.valid && v.valid
    ensures !CompareValues(fp, op, v, literal)
  {
  }

  predicate SatisfiesInt(op: BinaryOp, x: int, y: int) {
    match op
    case OpEq => x == y
    case OpNe => x != y
    case OpLt => x < y
    case OpLe => x <= y
    case OpGt => x > y
    case OpGe => x >= y
    case _ => false
  }

  /** On integers skipping is also complete: a segment is skipped exactly when no number within its bounds satisfies the
      comparison; only `!=` never skips. */
  lemma SkipIff(fp: FloatOps, stat: Stat, op: BinaryOp, literal: Value)
    requires stat.hasValues && stat.minValue.valid && stat.maxValue.valid && literal.valid
    requires stat.minValue.typ.IsIntFamily() && stat.maxValue.typ.IsIntFamily() && literal.typ.IsIntFamily()
    requires stat.minValue.num <= stat.maxValue.num && IsComparison(op)
    ensures SkipBy(fp, stat, op, literal) <==>
      !op.OpNe? && forall x: int :: stat.minValue.num <= x <= stat.maxValue.num ==> !SatisfiesInt(op, x, literal.num)
  {
    var low: int, high: int := stat.minValue.num, stat.maxValue.num;
    assert SatisfiesInt(op, low, literal.num) || !SatisfiesInt(op, low, literal.num);
    assert SatisfiesInt(op, high, literal.num) || !SatisfiesInt(op, high, literal.num);
    assert SatisfiesInt(op, literal.num, literal.num) || !SatisfiesInt(op, literal.num, literal.num);
  }

  // ----- building the statistics -----

  function CountNulls(vals: seq<Value>): nat {
    if vals == [] then 0 else CountNulls(vals[..|vals| - 1]) + if vals[|vals| - 1].valid then 0 else 1
  }

  ghost predicate IntColumn(vals: seq<Value>) {
    forall i :: 0 <= i < |vals| ==> !vals[i].valid || vals[i].typ.IsIntFamily()
  }

  /** The statistics of an integer column, exactly: attained bounds and the number of NULLs. */
  ghost predicate Describes(stat: Stat, vals: seq<Value>) {
    && stat.nullCount == CountNulls(vals)
    && (stat.hasValues <==> exists i :: 0 <= i < |vals| && vals[i].valid)
    && (stat.hasValues ==> stat.minValue in vals && stat.minValue.valid && stat.maxValue in vals && stat.maxValue.valid)
    && Bounds(stat, vals)
  }

  /** The statistics after one more value. */
  function Extended(fp: FloatOps, stat: Stat, val: Value): Stat {
    if !val.valid then stat.(nullCount := stat.nullCount + 1)
    else if !stat.hasValues then stat.(minValue := val, maxValue := val, hasValues := true)
    else stat.(minValue := if LessThan(fp, val, stat.minValue) then val else stat.minValue,
               maxValue := if LessThan(fp, stat.maxValue, val) then val else stat.maxValue)
  }

  function BuiltStat(fp: FloatOps, vals: seq<Value>): Stat {
    if vals == [] then Stat(NewNull, NewNull, 0, false)
    else Extended(fp, BuiltStat(fp, vals[..|vals| - 1]), vals[|vals| - 1])
  }

  /** On an integer column the running statistics are exact. */
  lemma {:induction false} BuiltDescribes(fp: FloatOps, vals: seq<Value>)
    requires IntColumn(vals)
    ensures Describes(BuiltStat(fp, vals), vals)
  {
    hide LessThan;
    if vals != [] {
      var n := |vals| - 1;
      BuiltDescribes(fp, vals[..n]);
      DescribesMore(fp, BuiltStat(fp, vals[..n]), vals[..n], vals[n]);
      assert vals == vals[..n] + [vals[n]];
    }
  }

  class SparseIndex {
    const fp: FloatOps
    var stats: map<StatKey, Stat>

    constructor (fp: FloatOps)
      ensures this.fp == fp && stats == map[]
    {
      this.fp := fp;
      stats := map[];
    }

    /** Statistics as they come from a segment's footer; empty byte strings mean no values. */
    method RegisterColumnStat(segID: nat, colID: nat, minVal: Buffer, maxVal: Buffer, nullCount: nat, typ: DataType)
      modifies this
      ensures stats == old(stats)[StatKey(segID, colID) := FooterStat(minVal, maxVal, nullCount, typ)]
    {
      var stat := Stat(NewNull, NewNull, nullCount, false);
      if |minVal| > 0 && |maxVal| > 0 {
        stat := stat.(minValue := BytesToValue(minVal, typ), maxValue := BytesToValue(maxVal, typ), hasValues := true);
      }
      stats := stats[StatKey(segID, colID) := stat];
    }

    /** Deletes key by key; the statistics of every other segment stay. */
    method UnregisterSegment(segID: nat)
      modifies this
      ensures forall k: StatKey :: k in stats <==> k in old(stats) && k.seg != segID
      ensures forall k: StatKey :: k in stats ==> stats[k] == old(stats)[k]
    {
      var rest := stats.Keys;
      while rest != {}
        invariant rest <= stats.Keys <= old(stats).Keys
        invariant forall k: StatKey :: k in old(stats) && (k.seg != segID || k in rest) ==> k in stats
        invariant forall k: StatKey :: k in stats ==> stats[k] == old(stats)[k] && (k.seg != segID || k in rest)
        decreases |rest|
      {
        var key :| key in rest;
        rest := rest - {key};
        if key.seg == segID {
          stats := stats - {key};
        }
      }
    }

    predicate CanSkip(segID: nat, colID: nat, op: BinaryOp, value: Value)
      reads this
    {
      StatKey(segID, colID) in stats && SkipBy(fp, stats[StatKey(segID, colID)], op, value)
    }

    /** The running minimum and maximum over a column's values. */
    method BuildFromColumnVector(segID: nat, colID: nat, vals: seq<Value>)
      modifies this
      ensures stats == if vals == [] then old(stats) else old(stats)[StatKey(segID, colID) := BuiltStat(fp, vals)]
    {
      if |vals| == 0 {
        return;
      }
      var stat := Stat(NewNull, NewNull, 0, false);
      for i := 0 to |vals|
        invariant stat == BuiltStat(fp, vals[..i])
      {
        assert vals[..i + 1][..i] == vals[..i];
        var val := vals[i];
        if !val.valid {
          stat := stat.(nullCount := stat.nullCount + 1);
          continue;
        }
        if !stat.hasValues {
          stat := stat.(minValue := val, maxValue := val, hasValues := true);
        } else {
          if LessThan(fp, val, stat.minValue) {
            stat := stat.(minValue := val);
          }
          if LessThan(fp, stat.maxValue, val) {
            stat := stat.(maxValue := val);
          }
        }
      }
      assert vals[..|vals|] == vals;
      stats := stats[StatKey(segID, colID) := stat];
    }
  }

  lemma DescribesMore(fp: FloatOps, stat: Stat, vals: seq<Value>, val: Value)
    requires Describes(stat, vals) && (!val.valid || val.typ.IsIntFamily()) && IntColumn(vals)
    ensures Describes(Extended(fp, stat, val), vals + [val])
  {
    var all, next := vals + [val], Extended(fp, stat, val);
    assert all[..|all| - 1] == vals;
    forall i | 0 <= i < |all| ensures BoundsOne(next, all[i]) {
      if i < |vals| { assert BoundsOne(stat, vals[i]); }
      if stat.hasValues {
        var j :| 0 <= j < |vals| && vals[j] == stat.minValue;
        var k :| 0 <= k < |vals| && vals[k] == stat.maxValue;
        assert BoundsOne(stat, vals[j]) && BoundsOne(stat, vals[k]);
      }
    }
    if val.valid { assert all[|vals|].valid; }
    if i :| 0 <= i < |vals| && vals[i].valid { assert all[i].valid; }
  }

  // ----- footer statistics -----

  function BytesToValue(b: Buffer, typ: DataType): Value {
    if typ.IsIntFamily() then
      if |b| >= 8 then NewIntFamilyValue(typ, Int64Of(b[..8])) else NewNull
    else match typ
      case TypeFloat64 => if |b| >= 8 then FloatBits(b) else NewNull
      case TypeBool => if |b| > 0 then NewBool(b[0] != 0) else NewNull
      case TypeTimestamp => if |b| >= 8 then NewTimestamp(Int64Of(b[..8])) else NewNull
      case TypeString => NewString(b)
      case _ => NewNull
  }

  function FloatBits(b: Buffer): Value
    requires |b| >= 8
  {
    PowValues();
    FromLEBound(b[..8]);
    NewFloat64(FromLE(b[..8]))
  }

  function FooterStat(minVal: Buffer, maxVal: Buffer, nullCount: nat, typ: DataType): Stat {
    if |minVal| > 0 && |maxVal| > 0 then Stat(BytesToValue(minVal, typ), BytesToValue(maxVal, typ), nullCount, true)
    else Stat(NewNull, NewNull, nullCount, false)
  }

  function IsNullAt(nulls: seq<bool>, i: nat): bool {
    i < |nulls| && nulls[i]
  }

  /** The i-th 8-byte word as an int64. */
  function IntAt(data: Buffer, i: nat): (r: int)
    requires 8 * i + 8 <= |data|
    ensures -TWO63 <= r < TWO63
  {
    Int64Of(data[8 * i..8 * i + 8])
  }

  datatype MinMax = NoValues | MinMax(min: int, max: int)

  /** Least and greatest of the non-NULL integers among the first `n`. */
  ghost predicate Spans(r: MinMax, n: nat, isNull: nat -> bool, num: nat -> int) {
    match r
    case NoValues => forall i: nat :: i < n ==> isNull(i)
    case MinMax(lo, hi) =>
      && (exists i: nat :: i < n && !isNull(i) && num(i) == lo)
      && (exists i: nat :: i < n && !isNull(i) && num(i) == hi)
      && (forall i: nat :: i < n && !isNull(i) ==> lo <= num(i) <= hi)
  }

  lemma SpansMore(r: MinMax, n: nat, isNull: nat -> bool, num: nat -> int)
    requires Spans(r, n, isNull, num)
    ensures Spans(Widened(r, isNull(n), num(n)), n + 1, isNull, num)
  {
    var w := Widened(r, isNull(n), num(n));
    if !isNull(n) {
      if r.MinMax? {
        var i: nat :| i < n && !isNull(i) && num(i) == r.min;
        var j: nat :| j < n && !isNull(j) && num(j) == r.max;
        assert num(if num(n) < r.min then n else i) == w.min;
        assert num(if num(n) > r.max then n else j) == w.max;
      } else {
        assert num(n) == w.min == w.max;
      }
    } else if r.MinMax? {
      var i: nat :| i < n && !isNull(i) && num(i) == r.min;
      var j: nat :| j < n && !isNull(j) && num(j) == r.max;
    }
  }

  function Widened(r: MinMax, isNull: bool, v: int): MinMax {
    if isNull then r
    else if r.NoValues? then MinMax(v, v)
    else MinMax(if v < r.min then v else r.min, if v > r.max then v else r.max)
  }

  function WordAt(data: Buffer, i: nat): int {
    if 8 * i + 8 <= |data| then IntAt(data, i) else 0
  }

  function NullMarks(nulls: seq<bool>): nat -> bool {
    (i: nat) => IsNullAt(nulls, i)
  }

  function Words(data: Buffer): nat -> int {
    (i: nat) => WordAt(data, i)
  }

  /** Plain integer columns: the scan over the encoded words. */
  method ComputeIntStats(data: Buffer, rowCount: nat, nulls: seq<bool>) returns (minVal: Buffer, maxVal: Buffer)
    requires 8 * rowCount <= |data|
    ensures |minVal| == |maxVal| && (minVal == [] || |minVal| == 8)
    ensures Spans(Stored(minVal, maxVal), rowCount, NullMarks(nulls), Words(data))
  {
    hide IntAt, IsNullAt, Spans, Int64Of;
    ghost var isNull, num := NullMarks(nulls), Words(data);
    var first, lo: Int64, hi: Int64 := true, 0, 0;
    ghost var span := NoValues;
    NothingSpanned(isNull, num);
    var i: nat := 0;
    while i < rowCount && i * 8 + 8 <= |data|
      invariant i <= rowCount && Spans(span, i, isNull, num)
      invariant span == if first then NoValues else MinMax(lo, hi)
    {
      SpansMore(span, i, isNull, num);
      span := Widened(span, isNull(i), num(i));
      if !IsNullAt(nulls, i) {
        var v := IntAt(data, i);
        if first {
          lo, hi, first := v, v, false;
        } else {
          if v < lo {
            lo := v;
          }
          if v > hi {
            hi := v;
          }
        }
      }
      i := i + 1;
    }
    minVal, maxVal := [], [];
    if !first {
      Int64RoundTrip(lo);
      Int64RoundTrip(hi);
      minVal, maxVal := Int64Bytes(lo), Int64Bytes(hi);
    }
  }

  lemma NothingSpanned(isNull: nat -> bool, num: nat -> int)
    ensures Spans(NoValues, 0, isNull, num)
  {
  }

  /** What a pair of statistics in a footer says: nothing, or two numbers of eight bytes. */
  function Stored(minVal: Buffer, maxVal: Buffer): MinMax
    requires |minVal| == |maxVal| && (minVal == [] || |minVal| == 8)
  {
    if minVal == [] then NoValues else MinMax(Int64Of(minVal), Int64Of(maxVal))
  }

  function RunValue(data: Buffer, r: nat): int {
    if 16 * r + 8 <= |data| then Int64Of(data[16 * r..16 * r + 8]) else 0
  }

  function RunIsNull(data: Buffer, r: nat): bool {
    16 * r + 12 < |data| && data[16 * r + 12] == 1
  }

  function RunNulls(data: Buffer): nat -> bool {
    (r: nat) => RunIsNull(data, r)
  }

  function RunValues(data: Buffer): nat -> int {
    (r: nat) => RunValue(data, r)
  }

  /** Run-length columns: the scan over the runs. Without a run, a column with rows is given
      the bounds 0 and 0. */
  method ComputeRLEMinMax(data: Buffer, rowCount: nat) returns (minVal: Buffer, maxVal: Buffer)
    ensures |minVal| == |maxVal| && (minVal == [] || |minVal| == 8)
    ensures |data| < 16 ==> Stored(minVal, maxVal) == if rowCount > 0 then MinMax(0, 0) else NoValues
    ensures |data| >= 16 ==>
      Spans(Stored(minVal, maxVal), |data| / 16, RunNulls(data), RunValues(data))
  {
    hide Spans, Int64Of;
    minVal, maxVal := [], [];
    ghost var span := NoValues;
    var runCount := |data| / 16;
    if runCount == 0 {
      if rowCount > 0 {
        Int64RoundTrip(0);
        minVal, maxVal := Int64Bytes(0), Int64Bytes(0);
      }
      return;
    }
    ghost var isNull, num := RunNulls(data), RunValues(data);
    var first, lo: Int64, hi: Int64 := true, 0, 0;
    NothingSpanned(isNull, num);
    for r: nat := 0 to runCount
      invariant Spans(span, r, isNull, num)
      invariant span == if first then NoValues else MinMax(lo, hi)
    {
      var off := r * 16;
      SpansMore(span, r, isNull, num);
      span := Widened(span, isNull(r), num(r));
      var val := Int64Of(data[off..off + 8]);
      if data[off + 12] == 1 {
        continue;
      }
      if first {
        lo, hi, first := val, val, false;
      } else {
        if val < lo {
          lo := val;
        }
        if val > hi {
          hi := val;
        }
      }
    }
    if !first {
      Int64RoundTrip(lo);
      Int64RoundTrip(hi);
      minVal, maxVal := Int64Bytes(lo), Int64Bytes(hi);
    }
  }

  /** A footer's statistics bound the column when every value of the column was among the numbers
      scanned, as it is in plain words and in runs. */
  lemma FooterStatBounds(n: nat, isNull: nat -> bool, num: nat -> int, minVal: Buffer, maxVal: Buffer,
      nullCount: nat, typ: DataType, vals: seq<Value>)
    requires |minVal| == |maxVal| && (minVal == [] || |minVal| == 8)
    requires Spans(Stored(minVal, maxVal), n, isNull, num) && typ.IsIntFamily() && IntColumn(vals)
    requires forall i :: 0 <= i < |vals| && vals[i].valid ==> exists r: nat :: r < n && !isNull(r) && num(r) == vals[i].num
    ensures Bounds(FooterStat(minVal, maxVal, nullCount, typ), vals)
  {
    hide Int64Of;
    var stat := FooterStat(minVal, maxVal, nullCount, typ);
    forall i | 0 <= i < |vals| ensures BoundsOne(stat, vals[i]) {
      if vals[i].valid && stat.hasValues {
        assert minVal[..8] == minVal && maxVal[..8] == maxVal;
        var r: nat :| r < n && !isNull(r) && num(r) == vals[i].num;
      }
    }
  }

  // ----- dictionary columns -----

  /** A dictionary column's statistics: the first and the last string of the dictionary. */
  function DictStat(dict: seq<Str>, nullCount: nat): Stat {
    if dict == [] then Stat(NewNull, NewNull, nullCount, false)
    else FooterStat(dict[0], dict[|dict| - 1], nullCount, TypeString)
  }

  /** The dictionary is in order of first use, so its ends bound nothing: a column holding
      "m", "a" and "z" is skipped for = 'a'. */
  lemma DictStatsDoNotBound(fp: FloatOps)
    ensures SkipBy(fp, DictStat([[109], [97], [122]], 0), OpEq, NewString([97]))
    ensures CompareValues(fp, OpEq, NewString([97]), NewString([97]))
  {
    var m: Str, a: Str := [109], [97];
    assert a[0] < m[0] && Less(a, m);
  }

  /** No string of the dictionary satisfies a comparison for which the segment is skipped. */
  ghost predicate DictSkipsRight(fp: FloatOps, dict: seq<Str>, nullCount: nat) {
    forall op, literal: Value, i | IsComparison(op) && literal.valid && 0 <= i < |dict| && SkipBy(fp, DictStat(dict, nullCount), op, literal) ::
      !CompareValues(fp, op, NewString(dict[i]), literal)
  }

  lemma DictSkipIsSafe(fp: FloatOps, lo: Str, hi: Str, s: Str, nullCount: nat, op: BinaryOp, literal: Value)
    requires AtMost(lo, s) && AtMost(s, hi) && IsComparison(op) && literal.valid
    requires SkipBy(fp, Stat(NewString(lo), NewString(hi), nullCount, true), op, literal)
    ensures !CompareValues(fp, op, NewString(s), literal)
  {
    hide Less;
    if literal.typ.TypeString? {
      var x := literal.str;
      LessTotal(lo, s);
      LessTotal(s, hi);
      LessIrreflexive(s);
      if Less(s, x) && Less(lo, s) { LessTransitive(lo, s, x); }
      if Less(x, s) && Less(s, hi) { LessTransitive(x, s, hi); }
      LessTotal(s, x);
      if Less(hi, x) && Less(s, hi) { LessTransitive(s, hi, x); }
      if Less(x, lo) && Less(lo, s) { LessTransitive(x, lo, s); }
      if Less(s, x) && Less(x, s) { LessTransitive(s, x, s); }
    }
  }

  /** They are right, about every comparison with every literal, exactly when an end of the dictionary
      is the empty string, so that nothing is skipped, or no string sorts below the first or above the
      last. */
  lemma DictStatsRightIff(fp: FloatOps, dict: seq<Str>, nullCount: nat)
    ensures DictSkipsRight(fp, dict, nullCount) <==>
      dict == [] || dict[0] == [] || dict[|dict| - 1] == []
      || forall i :: 0 <= i < |dict| ==> AtMost(dict[0], dict[i]) && AtMost(dict[i], dict[|dict| - 1])
  {
    hide Less, AtMost, CompareValues;
    if dict != [] && dict[0] != [] && dict[|dict| - 1] != [] {
      var lo, hi := dict[0], dict[|dict| - 1];
      var stat := DictStat(dict, nullCount);
      assert stat == Stat(NewString(lo), NewString(hi), nullCount, true);
      if i :| 0 <= i < |dict| && !(AtMost(lo, dict[i]) && AtMost(dict[i], hi)) {
        DictSkipsOutside(fp, lo, hi, dict[i], nullCount);
        assert !DictSkipsRight(fp, dict, nullCount);
      } else {
        forall op, literal: Value, i | IsComparison(op) && literal.valid && 0 <= i < |dict| && SkipBy(fp, stat, op, literal)
          ensures !CompareValues(fp, op, NewString(dict[i]), literal)
        {
          DictSkipIsSafe(fp, lo, hi, dict[i], nullCount, op, literal);
        }
      }
    }
  }

  lemma DictSkipsOutside(fp: FloatOps, lo: Str, hi: Str, s: Str, nullCount: nat)
    requires !(AtMost(lo, s) && AtMost(s, hi))
    ensures SkipBy(fp, Stat(NewString(lo), NewString(hi), nullCount, true), OpEq, NewString(s))
    ensures CompareValues(fp, OpEq, NewString(s), NewString(s))
  {
    hide Less;
  }
}
