/** Skipping segments by their column statistics: the predicates a WHERE clause yields, and why
    a filtered scan does not notice the skipped segments. */
module SegmentPruning {
  import opened Keys
  import opened SortedEntries
  import opened Values
  import opened MemTables
  import opened Merges
  import opened MergeIterators
  import opened LsmModel
  import opened SegmentSearch
  import opened LsmEngine
  import opened Expressions
  import opened Folding
  import opened SparseIndexes
  import Chunks

  datatype ColumnPredicate = ColumnPredicate(name: Str, op: BinaryOp, value: Value)

  function ColumnRefName(e: Expression): Option<Str> {
    match e
    case ColumnExpr(name) => if name == [] then None else Some(name)
    case ResolvedColumnExpr(name, _) => if name == [] then None else Some(name)
    case _ => None
  }

  /** `column op literal`, or `literal op column` turned around. */
  function ColumnBinary(e: Expression): Option<ColumnPredicate> {
    if !e.BinaryExpr? || !IsComparison(e.op) then None
    else if ColumnRefName(e.left).Some? && IsConstant(e.right) then
      Some(ColumnPredicate(ColumnRefName(e.left).value, e.op, e.right.value))
    else if ColumnRefName(e.right).Some? && IsConstant(e.left) then
      Some(ColumnPredicate(ColumnRefName(e.right).value, FlipComparison(e.op), e.left.value))
    else None
  }

  function FromConjuncts(conjuncts: seq<Expression>): seq<ColumnPredicate> {
    if conjuncts == [] then []
    else
      var n := |conjuncts| - 1;
      FromConjuncts(conjuncts[..n]) +
      if ColumnBinary(conjuncts[n]).Some? then [ColumnBinary(conjuncts[n]).value] else []
  }

  function Extract(pred: Expression): seq<ColumnPredicate> {
    FromConjuncts(SplitConjuncts(pred))
  }

  method ExtractColumnPredicates(pred: Expression) returns (preds: seq<ColumnPredicate>)
    ensures preds == Extract(pred)
  {
    var conjuncts := SplitConjuncts(pred);
    preds := [];
    for i := 0 to |conjuncts|
      invariant preds == FromConjuncts(conjuncts[..i])
    {
      assert conjuncts[..i + 1][..i] == conjuncts[..i];
      var p := ColumnBinary(conjuncts[i]);
      if p.Some? {
        preds := preds + [p.value];
      }
    }
    assert conjuncts[..|conjuncts|] == conjuncts;
  }

  /** The conjunct compares a named column with a constant, or a constant with a named column. */
  predicate ComparesColumn(e: Expression) {
    && e.BinaryExpr? && IsComparison(e.op)
    && ((IsNamedColumn(e.left) && IsConstant(e.right)) || (IsNamedColumn(e.right) && IsConstant(e.left)))
  }

  predicate IsNamedColumn(e: Expression) {
    (e.ColumnExpr? || e.ResolvedColumnExpr?) && e.name != []
  }

  /** The predicate for a conjunct, the constant moved to the right. */
  function Turned(e: Expression): ColumnPredicate
    requires ComparesColumn(e)
  {
    if IsNamedColumn(e.left) && IsConstant(e.right) then ColumnPredicate(e.left.name, e.op, e.right.value)
    else ColumnPredicate(e.right.name, FlipComparison(e.op), e.left.value)
  }

  lemma BinaryIsTurned(e: Expression)
    ensures ColumnBinary(e) == if ComparesColumn(e) then Some(Turned(e)) else None
  {
  }

  /** Some conjuncts, and a predicate for each of them. */
  ghost predicate TurnedAll(picked: seq<Expression>, preds: seq<ColumnPredicate>) {
    |preds| == |picked| && forall k :: 0 <= k < |picked| ==> ComparesColumn(picked[k]) && preds[k] == Turned(picked[k])
  }

  lemma {:induction false} FromConjunctsAt(conjuncts: seq<Expression>) returns (idx: seq<nat>, picked: seq<Expression>)
    ensures Chunks.PicksAt(conjuncts, idx, picked) && TurnedAll(picked, FromConjuncts(conjuncts))
    ensures forall q: nat :: q in idx <==> q < |conjuncts| && ComparesColumn(conjuncts[q])
  {
    hide Turned, ComparesColumn, ColumnBinary, Chunks.PicksAt;
    idx, picked := [], [];
    if conjuncts == [] {
      Chunks.NothingPicked<Expression>();
    } else {
      var n := |conjuncts| - 1;
      idx, picked := FromConjunctsAt(conjuncts[..n]);
      BinaryIsTurned(conjuncts[n]);
      idx := Chunks.PickLast(conjuncts, idx, picked, ComparesColumn(conjuncts[n]));
      picked := picked + if ComparesColumn(conjuncts[n]) then [conjuncts[n]] else [];
      forall q: nat ensures q in idx <==> q < |conjuncts| && ComparesColumn(conjuncts[q]) {
        assert q < n ==> conjuncts[..n][q] == conjuncts[q];
      }
    }
  }

  /** Every conjunct that compares a column with a constant is extracted, in their order, and nothing else. */
  lemma ExtractIsComplete(pred: Expression) returns (idx: seq<nat>, picked: seq<Expression>)
    ensures Chunks.PicksAt(SplitConjuncts(pred), idx, picked) && TurnedAll(picked, Extract(pred))
    ensures forall q: nat :: q in idx <==> q < |SplitConjuncts(pred)| && ComparesColumn(SplitConjuncts(pred)[q])
  {
    idx, picked := FromConjunctsAt(SplitConjuncts(pred));
  }

  /** What an extracted predicate says about a row its conjunct accepts. */
  ghost predicate Satisfies(fp: FloatOps, p: ColumnPredicate, row: RowMap) {
    p.name in row && row[p.name].valid && CompareValues(fp, p.op, row[p.name], p.value)
  }

  lemma ComparisonPasses(en: Ops, op: BinaryOp, left: Value, right: Value)
    requires IsComparison(op)
    ensures var r := EvalBinary(en, op, Ok(left), Ok(right));
      r.Ok? && (IsTruthy(en.fp, r.value) <==> left.valid && right.valid && CompareValues(en.fp, op, left, right))
  {
    hide CompareValues, EvalArithmetic;
  }

  lemma ConjunctMeans(en: Ops, c: Expression, row: RowMap)
    requires SymmetricEq(en.fp) && ColumnBinary(c).Some? && Passes(en, c, row)
    ensures Satisfies(en.fp, ColumnBinary(c).value, row)
    ensures ColumnBinary(c).value.value.valid && IsComparison(ColumnBinary(c).value.op)
  {
    hide SymmetricEq, CompareValues, EvalArithmetic, EvalBinary, IsTruthy;
    var p := ColumnBinary(c).value;
    var v := if p.name in row then row[p.name] else NewNull;
    if ColumnRefName(c.left).Some? && IsConstant(c.right) {
      assert Eval(en, c.left, row) == Ok(v) && Eval(en, c.right, row) == Ok(p.value);
      ComparisonPasses(en, c.op, v, p.value);
    } else {
      assert Eval(en, c.left, row) == Ok(p.value) && Eval(en, c.right, row) == Ok(v);
      ComparisonPasses(en, c.op, p.value, v);
      FlipMeaning(en.fp, c.op, p.value, v);
    }
  }

  lemma {:induction false} AllConjunctsPass(en: Ops, conjuncts: seq<Expression>, row: RowMap, i: nat)
    requires i < |conjuncts| && EvalAll(en, conjuncts, row).Ok? && IsTruthy(en.fp, EvalAll(en, conjuncts, row).value)
    ensures Passes(en, conjuncts[i], row)
  {
    hide Eval, CompareValues, EvalArithmetic;
    var n := |conjuncts| - 1;
    EvalAllIsBool(en, conjuncts[..n], row);
    if i < n { AllConjunctsPass(en, conjuncts[..n], row, i); }
  }

  /** A row the predicate accepts, each conjunct accepts. */
  lemma ConjunctsPass(en: Ops, pred: Expression, row: RowMap, i: nat)
    requires Passes(en, pred, row) && i < |SplitConjuncts(pred)|
    ensures Passes(en, SplitConjuncts(pred)[i], row)
  {
    hide Eval, EvalAll, SplitConjuncts;
    SplitMeansAnd(en, pred, row);
    AllConjunctsPass(en, SplitConjuncts(pred), row, i);
  }

  lemma {:induction false} FromConjunct(conjuncts: seq<Expression>, p: ColumnPredicate)
    requires p in FromConjuncts(conjuncts)
    ensures exists i :: 0 <= i < |conjuncts| && ColumnBinary(conjuncts[i]) == Some(p)
  {
    hide ColumnBinary;
    var n := |conjuncts| - 1;
    if p in FromConjuncts(conjuncts[..n]) {
      FromConjunct(conjuncts[..n], p);
      var i :| 0 <= i < n && ColumnBinary(conjuncts[..n][i]) == Some(p);
      assert ColumnBinary(conjuncts[i]) == Some(p);
    }
  }

  /** Every accepted row satisfies every extracted predicate. */
  lemma ExtractMeans(en: Ops, pred: Expression, row: RowMap, p: ColumnPredicate)
    requires SymmetricEq(en.fp) && Passes(en, pred, row) && p in Extract(pred)
    ensures Satisfies(en.fp, p, row) && p.value.valid && IsComparison(p.op)
  {
    hide ColumnBinary, SplitConjuncts, Passes, SymmetricEq, Satisfies;
    FromConjunct(SplitConjuncts(pred), p);
    var i :| 0 <= i < |SplitConjuncts(pred)| && ColumnBinary(SplitConjuncts(pred)[i]) == Some(p);
    ConjunctsPass(en, pred, row, i);
    ConjunctMeans(en, SplitConjuncts(pred)[i], row);
  }

  // ----- one segment -----

  function ColumnID(meta: seq<ColumnMeta>, name: Str): Option<nat> {
    if meta == [] then None
    else if meta[|meta| - 1].name == name then Some(meta[|meta| - 1].id)
    else ColumnID(meta[..|meta| - 1], name)
  }

  /** The engine numbers its columns by position. */
  ghost predicate NumberedColumns(meta: seq<ColumnMeta>) {
    forall i :: 0 <= i < |meta| ==> meta[i].id == i
  }

  lemma {:induction false} ColumnIDMeans(meta: seq<ColumnMeta>, name: Str)
    requires NumberedColumns(meta)
    ensures ColumnID(meta, name).Some? ==> ColumnID(meta, name).value < |meta| && meta[ColumnID(meta, name).value].name == name
    ensures ColumnID(meta, name).None? ==> forall c :: 0 <= c < |meta| ==> meta[c].name != name
  {
    if meta != [] { ColumnIDMeans(meta[..|meta| - 1], name); }
  }

  /** The registered statistics bound every integer column of the segment. */
  ghost predicate StatsBound(stats: map<StatKey, Stat>, seg: Segment, meta: seq<ColumnMeta>) {
    forall c: nat :: c < |meta| && meta[c].typ.IsIntFamily() && StatKey(seg.id, c) in stats ==>
      forall i :: 0 <= i < |seg.rows| ==> c < |seg.rows[i].value| && BoundsOne(stats[StatKey(seg.id, c)], seg.rows[i].value[c])
  }

  /** Predicates on columns of the table are on integer columns. */
  ghost predicate OnIntColumns(preds: seq<ColumnPredicate>, meta: seq<ColumnMeta>) {
    forall i, c :: 0 <= i < |preds| && 0 <= c < |meta| && preds[i].name == meta[c].name ==> meta[c].typ.IsIntFamily()
  }

  function SkipByStats(fp: FloatOps, stats: map<StatKey, Stat>, segID: nat, p: ColumnPredicate, meta: seq<ColumnMeta>): bool {
    var id := ColumnID(meta, p.name);
    id.Some? && StatKey(segID, id.value) in stats && SkipBy(fp, stats[StatKey(segID, id.value)], p.op, p.value)
  }

  /** One predicate that rules the segment out is enough. */
  predicate CanSkipSegment(fp: FloatOps, stats: map<StatKey, Stat>, segID: nat, preds: seq<ColumnPredicate>, meta: seq<ColumnMeta>) {
    exists i :: 0 <= i < |preds| && SkipByStats(fp, stats, segID, preds[i], meta)
  }

  method CanSkip(si: SparseIndex, segID: nat, preds: seq<ColumnPredicate>, meta: seq<ColumnMeta>) returns (skip: bool)
    ensures skip == CanSkipSegment(si.fp, si.stats, segID, preds, meta)
  {
    for i := 0 to |preds|
      invariant forall j :: 0 <= j < i ==> !SkipByStats(si.fp, si.stats, segID, preds[j], meta)
    {
      var id := ColumnID(meta, preds[i].name);
      if id.None? {
        continue;
      }
      if si.CanSkip(segID, id.value, preds[i].op, preds[i].value) {
        assert SkipByStats(si.fp, si.stats, segID, preds[i], meta);
        return true;
      }
    }
    return false;
  }

  ghost predicate Rejects(en: Ops, pred: Expression, rows: seq<Entry<Row>>) {
    forall i :: 0 <= i < |rows| ==> !Passes(en, pred, rows[i].value.columns)
  }

  /** No row of a skipped segment satisfies the predicate. */
  lemma SkippedSegmentRejects(en: Ops, pred: Expression, stats: map<StatKey, Stat>, seg: Segment, meta: seq<ColumnMeta>)
    requires MonotoneFloats(en.fp) && SymmetricEq(en.fp) && DistinctNames(meta) && NumberedColumns(meta)
    requires StatsBound(stats, seg, meta) && CanonicalSegment(seg, meta) && OnIntColumns(Extract(pred), meta)
    requires CanSkipSegment(en.fp, stats, seg.id, Extract(pred), meta)
    ensures Rejects(en, pred, SegmentRows(seg, meta))
  {
    hide Passes, SymmetricEq, MonotoneFloats, Extract, SkipBy, CompareValues;
    var k :| 0 <= k < |Extract(pred)| && SkipByStats(en.fp, stats, seg.id, Extract(pred)[k], meta);
    var p := Extract(pred)[k];
    ColumnIDMeans(meta, p.name);
    var c := ColumnID(meta, p.name).value;
    forall i | 0 <= i < |seg.rows| ensures !Passes(en, pred, SegmentRows(seg, meta)[i].value.columns) {
      var row := SegmentRows(seg, meta)[i].value.columns;
      ReadBackColumn(seg.rows[i].value, meta, c);
      if Passes(en, pred, row) {
        ExtractMeans(en, pred, row, p);
        SkipIsSafe(en.fp, stats[StatKey(seg.id, c)], p.op, p.value, row[p.name]);
      }
    }
  }

  // ----- the whole scan -----

  /** The sources with the skipped segments emptied. */
  function Pruned(all: Sources<Row>, skip: seq<bool>): (r: Sources<Row>)
    requires |skip| <= |all|
    ensures |r| == |all|
    ensures forall i :: 0 <= i < |all| ==> r[i] == if i < |skip| && skip[i] then [] else all[i]
  {
    seq(|all|, i requires 0 <= i < |all| => if i < |skip| && skip[i] then [] else all[i])
  }

  /** The rows a WHERE clause keeps. */
  function Passing(en: Ops, pred: Expression, m: map<Key, Row>): map<Key, Row> {
    map k | k in m && !m[k].tombstone && Passes(en, pred, m[k].columns) :: m[k]
  }

  predicate Skipped(skip: seq<bool>, i: nat) {
    i < |skip| && skip[i]
  }

  /** Source `i` is the newest one that holds the key. */
  ghost predicate Newest(all: Sources<Row>, i: nat, k: Key) {
    i < |all| && k in ToMap(all[i]) && forall j :: i < j < |all| ==> k !in ToMap(all[j])
  }

  /** A key whose newest holder is skipped is held below it by skipped segments only. */
  ghost predicate NothingExposed(all: Sources<Row>, skip: seq<bool>) {
    forall i: nat, j: nat, k :: Newest(all, i, k) && Skipped(skip, i) && j < i && k in ToMap(all[j]) ==> Skipped(skip, j)
  }

  ghost predicate RejectsSkipped(en: Ops, pred: Expression, all: Sources<Row>, skip: seq<bool>)
    requires |skip| <= |all|
  {
    forall i :: 0 <= i < |skip| && skip[i] ==> Rejects(en, pred, all[i])
  }

  /** Under every key the pruned sources agree with all of them, or miss a row that fails. */
  ghost predicate MissesOnlyRejected(en: Ops, pred: Expression, full: map<Key, Row>, pruned: map<Key, Row>) {
    && (forall k :: k in pruned ==> k in full && full[k] == pruned[k])
    && (forall k :: k in full && k !in pruned ==> !Passes(en, pred, full[k].columns))
  }

  lemma {:induction false} RejectedInMap(en: Ops, pred: Expression, rows: seq<Entry<Row>>, k: Key)
    requires Rejects(en, pred, rows) && k in ToMap(rows)
    ensures !Passes(en, pred, ToMap(rows)[k].columns)
  {
    hide Passes;
    var n := |rows| - 1;
    if rows[n].key != k { RejectedInMap(en, pred, rows[..n], k); }
  }

  lemma EmptyMap()
    ensures ToMap<Row>([]) == map[]
  {
  }

  lemma NewestExists(all: Sources<Row>, k: Key) returns (i: nat)
    requires k in Merged(all)
    ensures Newest(all, i, k) && Merged(all)[k] == ToMap(all[i])[k]
  {
    hide ToMap, Merged;
    MergedKeys(all, k);
    i :| 0 <= i < |all| && k in ToMap(all[i]);
    while exists j :: i < j < |all| && k in ToMap(all[j])
      invariant i < |all| && k in ToMap(all[i])
      decreases |all| - i
    {
      var j :| i < j < |all| && k in ToMap(all[j]);
      i := j;
    }
    MergedAt(all, i, k);
  }

  lemma PrunedHolds(all: Sources<Row>, skip: seq<bool>, i: nat, k: Key)
    requires |skip| <= |all| && i < |all|
    ensures k in ToMap(Pruned(all, skip)[i]) <==> !Skipped(skip, i) && k in ToMap(all[i])
  {
    hide ToMap;
    EmptyMap();
  }

  lemma KeyMissedIfRejected(en: Ops, pred: Expression, all: Sources<Row>, skip: seq<bool>, k: Key)
    requires |skip| <= |all| && NothingExposed(all, skip) && RejectsSkipped(en, pred, all, skip)
    ensures var full, pruned := Merged(all), Merged(Pruned(all, skip));
      && (k in pruned ==> k in full && full[k] == pruned[k])
      && (k in full && k !in pruned ==> !Passes(en, pred, full[k].columns))
  {
    hide Passes, Rejects, ToMap, Merged;
    var p := Pruned(all, skip);
    forall i: nat | i < |all| ensures k in ToMap(p[i]) <==> !Skipped(skip, i) && k in ToMap(all[i]) { PrunedHolds(all, skip, i, k); }
    MergedKeys(all, k);
    MergedKeys(p, k);
    if k in Merged(all) {
      var i := NewestExists(all, k);
      if Skipped(skip, i) {
        RejectedInMap(en, pred, all[i], k);
        forall j | 0 <= j < |p| ensures k !in ToMap(p[j]) { }
      } else {
        MergedAt(p, i, k);
        assert p[i] == all[i];
      }
    }
  }

  lemma MissesPassing(en: Ops, pred: Expression, full: map<Key, Row>, pruned: map<Key, Row>)
    requires MissesOnlyRejected(en, pred, full, pruned)
    ensures Passing(en, pred, pruned) == Passing(en, pred, full)
  {
    hide Passes;
  }

  /** Filtering after pruning is filtering without pruning. */
  lemma PruningIsInvisible(en: Ops, pred: Expression, all: Sources<Row>, skip: seq<bool>)
    requires |skip| <= |all| && NothingExposed(all, skip) && RejectsSkipped(en, pred, all, skip)
    ensures Passing(en, pred, Merged(Pruned(all, skip))) == Passing(en, pred, Merged(all))
  {
    hide Passes, Merged, Rejects, NothingExposed, RejectsSkipped, Passing, Pruned;
    forall k ensures k in Merged(Pruned(all, skip)) ==> k in Merged(all) && Merged(all)[k] == Merged(Pruned(all, skip))[k] {
      KeyMissedIfRejected(en, pred, all, skip, k);
    }
    forall k | k in Merged(all) && k !in Merged(Pruned(all, skip)) ensures !Passes(en, pred, Merged(all)[k].columns) {
      KeyMissedIfRejected(en, pred, all, skip, k);
    }
    MissesPassing(en, pred, Merged(all), Merged(Pruned(all, skip)));
  }

  /** Contents that differ in their rows only. */
  ghost predicate SameKeys(a: Sources<Row>, b: Sources<Row>) {
    |a| == |b| && forall i, k :: 0 <= i < |a| ==> (k in ToMap(a[i]) <==> k in ToMap(b[i]))
  }

  ghost predicate InvisibleFor(en: Ops, pred: Expression, all: Sources<Row>, skip: seq<bool>)
    requires |skip| <= |all|
  {
    RejectsSkipped(en, pred, all, skip) ==> Passing(en, pred, Merged(Pruned(all, skip))) == Passing(en, pred, Merged(all))
  }

  lemma ExposedFollowsKeys(a: Sources<Row>, b: Sources<Row>, skip: seq<bool>)
    requires SameKeys(a, b) && NothingExposed(a, skip)
    ensures NothingExposed(b, skip)
  {
    hide ToMap, Skipped;
    forall i: nat, j: nat, k | Newest(b, i, k) && Skipped(skip, i) && j < i && k in ToMap(b[j]) ensures Skipped(skip, j) {
      assert Newest(a, i, k);
    }
  }

  /** The same keys, every row of a skipped segment `bad` and every other row `good`. */
  function Repainted(all: Sources<Row>, skip: seq<bool>, good: Row, bad: Row): (r: Sources<Row>)
    ensures |r| == |all|
  {
    seq(|all|, i requires 0 <= i < |all| => MapEntries(all[i], (r: Row) => if Skipped(skip, i) then bad else good))
  }

  lemma RepaintedAt(all: Sources<Row>, skip: seq<bool>, good: Row, bad: Row, i: nat, k: Key)
    requires i < |all|
    ensures var b := Repainted(all, skip, good, bad);
      && (k in ToMap(b[i]) <==> k in ToMap(all[i]))
      && (k in ToMap(b[i]) ==> ToMap(b[i])[k] == if Skipped(skip, i) then bad else good)
  {
    hide ToMap, Skipped;
    ToMapOfMapped(all[i], (r: Row) => if Skipped(skip, i) then bad else good);
  }

  /** An exposed key shows: the repainted contents reject it, and show an older row once pruned. */
  lemma ExposedShows(en: Ops, pred: Expression, all: Sources<Row>, skip: seq<bool>, good: Row, bad: Row, i: nat, j: nat, k: Key)
    requires |skip| <= |all| && Passes(en, pred, good.columns) && !good.tombstone && !Passes(en, pred, bad.columns)
    requires Newest(all, i, k) && Skipped(skip, i) && j < i && k in ToMap(all[j]) && !Skipped(skip, j)
    ensures SameKeys(all, Repainted(all, skip, good, bad)) && !InvisibleFor(en, pred, Repainted(all, skip, good, bad), skip)
  {
    hide ToMap, Merged, Passes;
    var b := Repainted(all, skip, good, bad);
    var p := Pruned(b, skip);
    forall q: nat, x | q < |all| ensures (x in ToMap(b[q]) <==> x in ToMap(all[q])) &&
      (x in ToMap(b[q]) ==> ToMap(b[q])[x] == if Skipped(skip, q) then bad else good) { RepaintedAt(all, skip, good, bad, q, x); }
    MergedAt(b, i, k);
    PrunedHolds(b, skip, j, k);
    MergedKeys(p, k);
    var t := NewestExists(p, k);
    PrunedHolds(b, skip, t, k);
    assert p[t] == b[t];
    assert k in Passing(en, pred, Merged(p)) && k !in Passing(en, pred, Merged(b));
  }

  /** The exact condition on the layout. Whatever rows lie under the keys, as long as those of skipped
      segments fail the predicate, pruning is invisible: exactly when no key whose newest holder is
      skipped is held below it by a source that is not. */
  lemma PruningInvisibleIff(en: Ops, pred: Expression, all: Sources<Row>, skip: seq<bool>, good: Row, bad: Row)
    requires |skip| <= |all| && Passes(en, pred, good.columns) && !good.tombstone && !Passes(en, pred, bad.columns)
    ensures (forall b: Sources<Row> :: SameKeys(all, b) ==> InvisibleFor(en, pred, b, skip)) <==> NothingExposed(all, skip)
  {
    hide ToMap, Merged, Passes, SameKeys, RejectsSkipped, Passing, Pruned, Repainted, Skipped;
    if NothingExposed(all, skip) {
      forall b: Sources<Row> | SameKeys(all, b) ensures |b| == |all| && InvisibleFor(en, pred, b, skip) {
        SameCount(all, b);
        ExposedFollowsKeys(all, b, skip);
        if RejectsSkipped(en, pred, b, skip) { PruningIsInvisible(en, pred, b, skip); }
      }
    } else {
      var i: nat, j: nat, k :| Newest(all, i, k) && Skipped(skip, i) && j < i && k in ToMap(all[j]) && !Skipped(skip, j);
      ExposedShows(en, pred, all, skip, good, bad, i, j, k);
    }
  }

  lemma SameCount(a: Sources<Row>, b: Sources<Row>)
    requires SameKeys(a, b)
    ensures |a| == |b|
  {
  }

  /** When an older segment does hold the key, skipping the newer one brings the old row back. */
  lemma SkippingExposesOldRows(en: Ops, pred: Expression, k: Key, older: Row, newer: Row)
    requires Passes(en, pred, older.columns) && !older.tombstone && !Passes(en, pred, newer.columns)
    ensures var all := [[Entry(k, older)], [Entry(k, newer)]];
      && Rejects(en, pred, all[1])
      && k in Passing(en, pred, Merged(Pruned(all, [false, true])))
      && k !in Passing(en, pred, Merged(all))
  {
    hide Passes;
    var a, b := [Entry(k, older)], [Entry(k, newer)];
    var all := [a, b];
    var p := Pruned(all, [false, true]);
    var none: seq<Entry<Row>> := [];
    assert p == [a] + [none] && all == [a] + [b];
    SingleMerged(a);
    MergedSnoc([a], none);
    MergedSnoc([a], b);
    ToMapSnoc([], Entry(k, older));
    ToMapSnoc([], Entry(k, newer));
    assert [] + [Entry(k, older)] == a && [] + [Entry(k, newer)] == b;
    EmptyMap();
  }

  // ----- the engine's pruned scan -----

  function Skips(si: SparseIndex, segs: seq<Segment>, preds: seq<ColumnPredicate>, meta: seq<ColumnMeta>): (r: seq<bool>)
    reads si
    ensures |r| == |segs|
    ensures forall i {:trigger r[i]} :: 0 <= i < |segs| ==> r[i] == CanSkipSegment(si.fp, si.stats, segs[i].id, preds, meta)
  {
    seq(|segs|, i requires 0 <= i < |segs| reads si => CanSkipSegment(si.fp, si.stats, segs[i].id, preds, meta))
  }

  ghost function PrunedSources(e: Engine, si: SparseIndex, preds: seq<ColumnPredicate>): Sources<Row>
    reads e, si
  {
    Pruned(AllSources(e.segments, e.immutable, e.active, e.columnMeta), Skips(si, e.segments, preds, e.columnMeta))
  }

  /** One iterator per source that can hold a key of the range and is not ruled out. */
  method BuildScanIteratorsWithPruning(e: Engine, si: SparseIndex, start: Key, end: Key, preds: seq<ColumnPredicate>) returns (iters: Sources<Row>)
    requires e.Valid()
    ensures AllSorted(iters)
    ensures Merged(iters) == Restrict(Merged(PrunedSources(e, si, preds)), start, end)
  {
    hide Less, Merged, Sorted, SegmentRows, Slice, ToMap, Restrict, AllSorted, CanSkipSegment, Engine.Valid;
    ghost var all := AllSources(e.segments, e.immutable, e.active, e.columnMeta);
    ghost var pruned := PrunedSources(e, si, preds);
    iters := [];
    Engine.NothingRead(start, end);
    for i := 0 to |e.segments|
      invariant AllSorted(iters) && Merged(iters) == Restrict(Merged(pruned[..i]), start, end)
    {
      var seg := e.segments[i];
      assert all[i] == SegmentRows(seg, e.columnMeta);
      e.SegmentRowsSorted(i);
      EmptySource(start, end);
      var skip := CanSkip(si, seg.id, preds, e.columnMeta);
      if Less(end, seg.minKey) || Less(seg.maxKey, start) {
        e.OutsideRange(i, start, end);
        Engine.SkipSource(pruned, i, iters, start, end);
        continue;
      }
      if skip {
        Engine.SkipSource(pruned, i, iters, start, end);
        continue;
      }
      var rows := SegmentScan(SegmentRows(seg, e.columnMeta), start, end);
      Engine.ReadSource(pruned, i, iters, start, end);
      iters := iters + [rows];
    }
    iters := AddMemTables(e, pruned, iters, start, end);
  }

  /** The memtables are never skipped. */
  method AddMemTables(e: Engine, ghost pruned: Sources<Row>, segIters: Sources<Row>, start: Key, end: Key) returns (iters: Sources<Row>)
    requires e.Valid() && |pruned| == |e.segments| + |e.immutable| + 1
    requires pruned[|e.segments|..] == e.immutable + [e.active]
    requires AllSorted(segIters) && Merged(segIters) == Restrict(Merged(pruned[..|e.segments|]), start, end)
    ensures AllSorted(iters) && Merged(iters) == Restrict(Merged(pruned), start, end)
  {
    hide Less, Merged, Sorted, Slice, ToMap, Restrict, AllSorted, GoodQueue, GoodMem, GoodSegments, NoFalseNegatives, DistinctNames,
      MapMatches, GoodLevels, GoodIndex;
    iters := segIters;
    var s := |e.segments|;
    for i := 0 to |e.immutable|
      invariant AllSorted(iters) && Merged(iters) == Restrict(Merged(pruned[..s + i]), start, end)
    {
      Engine.MemSorted(e.immutable, i);
      assert pruned[s + i] == pruned[s..][i];
      Engine.ReadSource(pruned, s + i, iters, start, end);
      iters := iters + [Slice(e.immutable[i], start, end)];
    }
    assert pruned[|pruned| - 1] == pruned[s..][|e.immutable|] && pruned[..|pruned|] == pruned;
    e.ActiveSorted();
    Engine.ReadSource(pruned, |pruned| - 1, iters, start, end);
    iters := iters + [Slice(e.active, start, end)];
  }

  lemma EmptySource(start: Key, end: Key)
    ensures Sorted<Row>([]) && Slice<Row>([], start, end) == []
  {
  }

  /** The pruned scan: live rows of the range, each key once, in order. */
  method ScanRangeWithPruning(e: Engine, si: SparseIndex, start: Key, end: Key, preds: seq<ColumnPredicate>) returns (results: seq<Entry<Row>>)
    requires e.Valid()
    ensures Sorted(results)
    ensures ToMap(results) == Engine.LiveRows(Restrict(Merged(PrunedSources(e, si, preds)), start, end))
  {
    hide Less, Merged, Sorted, ToMap, Restrict, Engine.Valid, Engine.LiveRows, PrunedSources;
    var iters := BuildScanIteratorsWithPruning(e, si, start, end, preds);
    var merged := MergeAll(iters);
    results := [];
    for i := 0 to |merged|
      invariant results == Engine.Untombed(merged[..i])
    {
      assert merged[..i + 1][..i] == merged[..i];
      if merged[i].value.tombstone {
        continue;
      }
      results := results + [merged[i]];
    }
    assert merged[..|merged|] == merged;
    Engine.UntombedFacts(merged);
  }

  /** Statistics and segments under which pruning is allowed. */
  ghost predicate PruningSafe(e: Engine, si: SparseIndex, en: Ops, pred: Expression)
    reads e, si
  {
    && si.fp == en.fp && MonotoneFloats(en.fp) && SymmetricEq(en.fp)
    && DistinctNames(e.columnMeta) && NumberedColumns(e.columnMeta) && OnIntColumns(Extract(pred), e.columnMeta)
    && (forall i :: 0 <= i < |e.segments| ==>
         CanonicalSegment(e.segments[i], e.columnMeta) && StatsBound(si.stats, e.segments[i], e.columnMeta))
    && NothingExposed(AllSources(e.segments, e.immutable, e.active, e.columnMeta), Skips(si, e.segments, Extract(pred), e.columnMeta))
  }

  lemma PassingLive(en: Ops, pred: Expression, m: map<Key, Row>, start: Key, end: Key)
    ensures Passing(en, pred, Engine.LiveRows(Restrict(m, start, end))) == Restrict(Passing(en, pred, m), start, end)
  {
    hide Passes, Within;
  }

  /** A WHERE clause over the pruned scan keeps exactly the rows it keeps of the whole data. */
  lemma FilteredScanIsExact(e: Engine, si: SparseIndex, en: Ops, pred: Expression, start: Key, end: Key, results: seq<Entry<Row>>)
    requires PruningSafe(e, si, en, pred)
    requires ToMap(results) == Engine.LiveRows(Restrict(Merged(PrunedSources(e, si, Extract(pred))), start, end))
    ensures Passing(en, pred, ToMap(results)) ==
      Restrict(Passing(en, pred, Merged(AllSources(e.segments, e.immutable, e.active, e.columnMeta))), start, end)
  {
    var preds := Extract(pred);
    var skip := Skips(si, e.segments, preds, e.columnMeta);
    var all := AllSources(e.segments, e.immutable, e.active, e.columnMeta);
    hide Passes, Merged, ToMap, Restrict, Engine.LiveRows, Passing, NothingExposed, Rejects, StatsBound, CanonicalSegment, CanSkipSegment,
      MonotoneFloats, SymmetricEq, Extract, SegmentRows, DistinctNames, NumberedColumns, OnIntColumns;
    forall i | 0 <= i < |skip| && skip[i] ensures Rejects(en, pred, all[i]) {
      assert all[i] == SegmentRows(e.segments[i], e.columnMeta);
      SkippedSegmentRejects(en, pred, si.stats, e.segments[i], e.columnMeta);
    }
    PruningIsInvisible(en, pred, all, skip);
    PassingLive(en, pred, Merged(Pruned(all, skip)), start, end);
  }

  /** Segments that share no key meet the condition on older segments, whichever are skipped. */
  lemma DisjointSegmentsSuffice(e: Engine, si: SparseIndex, preds: seq<ColumnPredicate>)
    requires forall i, j, k :: 0 <= j < i < |e.segments| && HasKey(e.segments[i].rows, k) ==> !HasKey(e.segments[j].rows, k)
    ensures NothingExposed(AllSources(e.segments, e.immutable, e.active, e.columnMeta), Skips(si, e.segments, preds, e.columnMeta))
  {
    hide CanSkipSegment, ToMap, SegmentRow;
    var all := AllSources(e.segments, e.immutable, e.active, e.columnMeta);
    var skip := Skips(si, e.segments, preds, e.columnMeta);
    forall i: nat, j: nat, k | Newest(all, i, k) && Skipped(skip, i) && j < i ensures k !in ToMap(all[j]) {
      SegmentKeys(e.segments[i], e.columnMeta, k);
      SegmentKeys(e.segments[j], e.columnMeta, k);
    }
  }

  lemma SegmentKeys(seg: Segment, meta: seq<ColumnMeta>, k: Key)
    ensures k in ToMap(SegmentRows(seg, meta)) <==> HasKey(seg.rows, k)
  {
    hide SegmentRow, ToMap;
    var rows := SegmentRows(seg, meta);
    ToMapKeys(rows, k);
    if i :| 0 <= i < |seg.rows| && seg.rows[i].key == k {
      assert rows[i].key == k;
    }
  }
}
