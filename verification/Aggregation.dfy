/** GROUP BY and the aggregate functions: the general path over row maps, the fast path over
    column indexes, and what both compute. */
module Aggregation {
  import opened Keys
  import opened SortedEntries
  import opened Values
  import opened Expressions
  import opened Chunks

  datatype AggFunc = AggUnknown | AggCount | AggSum | AggMin | AggMax | AggAvg

  /** `arg` is absent in COUNT(*). */
  datatype AggExpr = AggExpr(fn: AggFunc, arg: Option<Expression>)

  datatype Aggregate = Aggregate(groupBy: seq<Expression>, aggs: seq<AggExpr>)

  datatype Accumulator = Accumulator(fn: AggFunc, count: Int64, sum: Float64, minVal: Value, maxVal: Value, hasValue: bool)

  // An int64 counter wraps.
  function Increment(n: Int64): Int64 {
    if n == INT64_MAX then INT64_MIN else n + 1
  }

  function NewAccumulators(aggs: seq<AggExpr>): (r: seq<Accumulator>)
    ensures |r| == |aggs|
  {
    seq(|aggs|, i requires 0 <= i < |aggs| => Accumulator(aggs[i].fn, 0, 0, NewNull, NewNull, false))
  }

  function Update(fp: FloatOps, a: Accumulator, v: Value): Accumulator {
    match a.fn
    case AggUnknown => a
    case AggCount => a.(count := Increment(a.count))
    case AggMin =>
      if !v.valid then a
      else a.(minVal := if !a.hasValue || LessThan(fp, v, a.minVal) then v else a.minVal, hasValue := true)
    case AggMax =>
      if !v.valid then a
      else a.(maxVal := if !a.hasValue || LessThan(fp, a.maxVal, v) then v else a.maxVal, hasValue := true)
    case _ =>
      if !v.valid then a
      else a.(count := Increment(a.count), sum := fp.add(a.sum, ToFloat64(fp, v)))
  }

  function FinalValue(fp: FloatOps, a: Accumulator): Value {
    match a.fn
    case AggUnknown => NewNull
    case AggCount => NewInt64(a.count)
    case AggSum => if a.count == 0 then NewNull else NewFloat64(a.sum)
    case AggMin => if !a.hasValue then NewNull else a.minVal
    case AggMax => if !a.hasValue then NewNull else a.maxVal
    case AggAvg => if a.count == 0 then NewNull else NewFloat64(fp.div(a.sum, fp.ofInt(a.count)))
  }

  /** The value an aggregate takes from a row: None when its argument fails to evaluate. */
  function ArgValue(en: Ops, agg: AggExpr, row: RowMap): Option<Value> {
    if agg.arg.None? then Some(NewNull)
    else
      var r := Eval(en, agg.arg.value, row);
      if r.Ok? then Some(r.value) else None
  }

  function UpdateAll(fp: FloatOps, accs: seq<Accumulator>, vals: seq<Option<Value>>): (r: seq<Accumulator>)
    requires |accs| == |vals|
    ensures |r| == |accs|
  {
    seq(|accs|, i requires 0 <= i < |accs| => if vals[i].Some? then Update(fp, accs[i], vals[i].value) else accs[i])
  }

  function ArgValues(en: Ops, aggs: seq<AggExpr>, row: RowMap): (r: seq<Option<Value>>)
    ensures |r| == |aggs|
  {
    seq(|aggs|, i requires 0 <= i < |aggs| => ArgValue(en, aggs[i], row))
  }

  function Bytes(s: string): (r: Str)
    requires forall i :: 0 <= i < |s| ==> s[i] as int < 256
    ensures |r| == |s| && forall i :: 0 <= i < |r| ==> r[i] as int == s[i] as int
  {
    seq(|s|, i requires 0 <= i < |s| => s[i] as int as byte)
  }

  function KeyText(fp: FloatOps, r: Result<Value>): Str {
    if r.Ok? then fp.text(r.value) else Bytes("<error>")
  }

  function Joined(parts: seq<Str>): Str {
    if parts == [] then []
    else if |parts| == 1 then parts[0]
    else Joined(parts[..|parts| - 1]) + [0] + parts[|parts| - 1]
  }

  function GroupTexts(en: Ops, groupBy: seq<Expression>, row: RowMap): (r: seq<Str>)
    ensures |r| == |groupBy| && forall i :: 0 <= i < |r| ==> r[i] == KeyText(en.fp, Eval(en, groupBy[i], row))
  {
    seq(|groupBy|, i requires 0 <= i < |groupBy| => KeyText(en.fp, Eval(en, groupBy[i], row)))
  }

  function GroupKey(en: Ops, groupBy: seq<Expression>, row: RowMap): Str {
    Joined(GroupTexts(en, groupBy, row))
  }

  /** Accumulators and representative row of each group, and the groups in order. */
  datatype Groups = Groups(accs: map<Str, seq<Accumulator>>, rows: map<Str, RowMap>, order: seq<Str>)

  const NO_GROUPS := Groups(map[], map[], [])

  ghost predicate Wf(agg: Aggregate, g: Groups) {
    && g.accs.Keys == g.rows.Keys
    && (forall k :: k in g.accs ==> |g.accs[k]| == |agg.aggs|)
    && (forall i :: 0 <= i < |g.order| ==> g.order[i] in g.accs)
  }

  /** One row: open its group if it is new, then update the group's accumulators. */
  function AddTo(fp: FloatOps, agg: Aggregate, g: Groups, key: Str, row: RowMap, vals: seq<Option<Value>>): (r: Groups)
    requires Wf(agg, g) && |vals| == |agg.aggs|
    ensures Wf(agg, r)
  {
    var accs := if key in g.accs then g.accs[key] else NewAccumulators(agg.aggs);
    Groups(
      g.accs[key := UpdateAll(fp, accs, vals)],
      if key in g.accs then g.rows else g.rows[key := row],
      if key in g.accs then g.order else g.order + [key])
  }

  function AddRow(en: Ops, agg: Aggregate, g: Groups, row: RowMap): (r: Groups)
    requires Wf(agg, g)
    ensures Wf(agg, r)
  {
    AddTo(en.fp, agg, g, GroupKey(en, agg.groupBy, row), row, ArgValues(en, agg.aggs, row))
  }

  function AddRows(en: Ops, agg: Aggregate, rows: seq<RowMap>): (r: Groups)
    ensures Wf(agg, r)
  {
    if rows == [] then NO_GROUPS
    else AddRow(en, agg, AddRows(en, agg, rows[..|rows| - 1]), rows[|rows| - 1])
  }

  /** An aggregate over no rows still has one group, whose key is empty. */
  function Closed(agg: Aggregate, g: Groups): (r: Groups)
    requires Wf(agg, g)
    ensures Wf(agg, r)
  {
    if g.order != [] then g
    else Groups(g.accs[[] := NewAccumulators(agg.aggs)], g.rows[[] := map[]], [[]])
  }

  function RowMaps(schema: Schema, chunk: Chunk): (r: seq<RowMap>)
    requires Shaped(chunk, schema)
    ensures |r| == |chunk| && forall i :: 0 <= i < |chunk| ==> r[i] == RowValues(schema, chunk[i])
  {
    seq(|chunk|, i requires 0 <= i < |chunk| => RowValues(schema, chunk[i]))
  }

  function AllRowMaps(schema: Schema, chunks: seq<Chunk>): seq<RowMap>
    requires AllShaped(chunks, schema)
  {
    if chunks == [] then []
    else AllRowMaps(schema, chunks[..|chunks| - 1]) + RowMaps(schema, chunks[|chunks| - 1])
  }

  lemma {:induction false} AllRowMapsFlat(schema: Schema, chunks: seq<Chunk>)
    requires AllShaped(chunks, schema)
    ensures Shaped(Flatten(chunks), schema) && AllRowMaps(schema, chunks) == RowMaps(schema, Flatten(chunks))
  {
    hide RowValues;
    FlattenShaped(chunks, schema);
    if chunks != [] {
      var n := |chunks| - 1;
      AllRowMapsFlat(schema, chunks[..n]);
      FlattenSnoc(chunks[..n], chunks[n]);
      assert chunks[..n] + [chunks[n]] == chunks;
    }
  }

  /** The groups of all rows of the chunks. */
  function Grouped(en: Ops, agg: Aggregate, schema: Schema, chunks: seq<Chunk>): (r: Groups)
    requires AllShaped(chunks, schema)
    ensures Wf(agg, r)
  {
    Closed(agg, AddRows(en, agg, AllRowMaps(schema, chunks)))
  }

  lemma AddRowsSnoc(en: Ops, agg: Aggregate, rows: seq<RowMap>, row: RowMap)
    ensures AddRows(en, agg, rows + [row]) == AddRow(en, agg, AddRows(en, agg, rows), row)
  {
    assert (rows + [row])[..|rows|] == rows;
  }

  method AddChunk(en: Ops, agg: Aggregate, schema: Schema, chunk: Chunk, g0: Groups, ghost rows: seq<RowMap>) returns (g: Groups)
    requires Shaped(chunk, schema)
    requires g0 == AddRows(en, agg, rows)
    ensures g == AddRows(en, agg, rows + RowMaps(schema, chunk))
  {
    hide AddRow, AddRows, RowValues, Wf;
    ghost var maps := RowMaps(schema, chunk);
    g := g0;
    assert rows + maps[..0] == rows;
    for j := 0 to |chunk|
      invariant g == AddRows(en, agg, rows + maps[..j])
    {
      assert rows + maps[..j + 1] == rows + maps[..j] + [maps[j]];
      AddRowsSnoc(en, agg, rows + maps[..j], maps[j]);
      g := AddRow(en, agg, g, RowValues(schema, chunk[j]));
    }
    assert maps[..|chunk|] == maps;
  }

  /** The general path: evaluates every expression on every row's map. */
  method AggregateRowsSlow(en: Ops, agg: Aggregate, schema: Schema, chunks: seq<Chunk>) returns (g: Groups)
    requires AllShaped(chunks, schema)
    ensures g == Grouped(en, agg, schema, chunks)
  {
    hide AddRow, RowMaps;
    g := NO_GROUPS;
    for i := 0 to |chunks|
      invariant g == AddRows(en, agg, AllRowMaps(schema, chunks[..i]))
    {
      assert chunks[..i + 1][..i] == chunks[..i];
      g := AddChunk(en, agg, schema, chunks[i], g, AllRowMaps(schema, chunks[..i]));
    }
    assert chunks[..|chunks|] == chunks;
    g := Closed(agg, g);
  }

  // ----- the fast path -----

  datatype SimplePlan = SimplePlan(gbIdx: seq<nat>, argIdx: seq<Option<nat>>)

  predicate IsSimple(e: Expression, schema: Schema) {
    e.ResolvedColumnExpr? && ColIndex(schema, e.name).Some?
  }

  predicate IsSimpleArg(a: AggExpr, schema: Schema) {
    a.arg.None? || IsSimple(a.arg.value, schema)
  }

  ghost predicate IsColumnOf(e: Expression, schema: Schema) {
    e.ResolvedColumnExpr? && exists j :: 0 <= j < |schema| && schema[j].name == e.name
  }

  /** Every GROUP BY expression and every argument is a column of the input. */
  ghost predicate AcceptedBy(agg: Aggregate, schema: Schema) {
    && (forall i :: 0 <= i < |agg.groupBy| ==> IsColumnOf(agg.groupBy[i], schema))
    && (forall i :: 0 <= i < |agg.aggs| && agg.aggs[i].arg.Some? ==> IsColumnOf(agg.aggs[i].arg.value, schema))
  }

  ghost predicate PlanFor(agg: Aggregate, schema: Schema, plan: SimplePlan) {
    && AcceptedBy(agg, schema)
    && |plan.gbIdx| == |agg.groupBy| && |plan.argIdx| == |agg.aggs|
    && (forall i :: 0 <= i < |agg.groupBy| ==> Some(plan.gbIdx[i]) == ColIndex(schema, agg.groupBy[i].name))
    && (forall i {:trigger plan.argIdx[i]} :: 0 <= i < |agg.aggs| ==>
          plan.argIdx[i] == if agg.aggs[i].arg.None? then None else ColIndex(schema, agg.aggs[i].arg.value.name))
  }

  /** Accepts exactly the aggregates whose expressions are all columns of the schema. */
  method TrySimplePlan(agg: Aggregate, schema: Schema) returns (plan: Option<SimplePlan>)
    ensures plan.Some? <==> AcceptedBy(agg, schema)
    ensures plan.Some? ==> PlanFor(agg, schema, plan.value)
  {
    hide ColIndex;
    var gbIdx: seq<nat>, argIdx: seq<Option<nat>> := [], [];
    for i := 0 to |agg.groupBy|
      invariant |gbIdx| == i
      invariant forall j :: 0 <= j < i ==> IsSimple(agg.groupBy[j], schema)
      invariant forall j :: 0 <= j < i ==> Some(gbIdx[j]) == ColIndex(schema, agg.groupBy[j].name)
    {
      if !IsSimple(agg.groupBy[i], schema) {
        return None;
      }
      gbIdx := gbIdx + [ColIndex(schema, agg.groupBy[i].name).value];
    }
    for i := 0 to |agg.aggs|
      invariant |argIdx| == i
      invariant forall j :: 0 <= j < i ==> IsSimpleArg(agg.aggs[j], schema)
      invariant forall j {:trigger argIdx[j]} :: 0 <= j < i ==>
        argIdx[j] == if agg.aggs[j].arg.None? then None else ColIndex(schema, agg.aggs[j].arg.value.name)
    {
      if !IsSimpleArg(agg.aggs[i], schema) {
        return None;
      }
      argIdx := argIdx + [if agg.aggs[i].arg.None? then None else ColIndex(schema, agg.aggs[i].arg.value.name)];
    }
    return Some(SimplePlan(gbIdx, argIdx));
  }

  ghost predicate FitsRow(plan: SimplePlan, width: nat) {
    && (forall i :: 0 <= i < |plan.gbIdx| ==> plan.gbIdx[i] < width)
    && (forall i :: 0 <= i < |plan.argIdx| ==> (plan.argIdx[i].Some? ==> plan.argIdx[i].value < width))
  }

  function SimpleTexts(fp: FloatOps, plan: SimplePlan, cells: Cells): (r: seq<Str>)
    requires FitsRow(plan, |cells|)
    ensures |r| == |plan.gbIdx| && forall i :: 0 <= i < |r| ==> r[i] == fp.text(cells[plan.gbIdx[i]])
  {
    seq(|plan.gbIdx|, i requires 0 <= i < |plan.gbIdx| => fp.text(cells[plan.gbIdx[i]]))
  }

  function SimpleKey(fp: FloatOps, plan: SimplePlan, cells: Cells): Str
    requires FitsRow(plan, |cells|)
  {
    Joined(SimpleTexts(fp, plan, cells))
  }

  /** Only the GROUP BY columns, under their names. */
  function SimpleRow(groupBy: seq<Expression>, gbIdx: seq<nat>, cells: Cells): RowMap
    requires |gbIdx| == |groupBy| && forall i :: 0 <= i < |gbIdx| ==> gbIdx[i] < |cells| && groupBy[i].ResolvedColumnExpr?
  {
    if groupBy == [] then map[]
    else
      var n := |groupBy| - 1;
      SimpleRow(groupBy[..n], gbIdx[..n], cells)[groupBy[n].name := cells[gbIdx[n]]]
  }

  function SimpleArgs(plan: SimplePlan, cells: Cells): (r: seq<Option<Value>>)
    requires FitsRow(plan, |cells|)
    ensures |r| == |plan.argIdx|
  {
    seq(|plan.argIdx|, i requires 0 <= i < |plan.argIdx| =>
      Some(if plan.argIdx[i].None? then NewNull else cells[plan.argIdx[i].value]))
  }

  lemma PlanFits(agg: Aggregate, schema: Schema, plan: SimplePlan)
    requires PlanFor(agg, schema, plan)
    ensures FitsRow(plan, |schema|)
  {
    hide ColIndex;
    forall i | 0 <= i < |plan.gbIdx| ensures plan.gbIdx[i] < |schema| {
      assert Some(plan.gbIdx[i]) == ColIndex(schema, agg.groupBy[i].name);
    }
  }

  /** On a row, the indexed reads give the key the expressions give. */
  lemma SimpleKeyAgrees(en: Ops, agg: Aggregate, schema: Schema, plan: SimplePlan, cells: Cells)
    requires PlanFor(agg, schema, plan) && FitsRow(plan, |cells|) && |cells| == |schema|
    ensures SimpleKey(en.fp, plan, cells) == GroupKey(en, agg.groupBy, RowValues(schema, cells))
  {
    var row := RowValues(schema, cells);
    var simple, general := SimpleTexts(en.fp, plan, cells), GroupTexts(en, agg.groupBy, row);
    hide ColIndex, RowValues, Joined, SimpleTexts, GroupTexts;
    forall i | 0 <= i < |agg.groupBy| ensures simple[i] == general[i] {
      RowValuesByIndex(schema, cells, agg.groupBy[i].name);
      assert Some(plan.gbIdx[i]) == ColIndex(schema, agg.groupBy[i].name);
    }
    assert simple == general;
  }

  lemma SimpleArgAgrees(en: Ops, agg: Aggregate, schema: Schema, plan: SimplePlan, cells: Cells, i: nat)
    requires PlanFor(agg, schema, plan) && FitsRow(plan, |cells|) && |cells| == |schema| && i < |agg.aggs|
    ensures SimpleArgs(plan, cells)[i] == ArgValue(en, agg.aggs[i], RowValues(schema, cells))
  {
    hide ColIndex, RowValues;
    if agg.aggs[i].arg.Some? {
      RowValuesByIndex(schema, cells, agg.aggs[i].arg.value.name);
      assert plan.argIdx[i] == ColIndex(schema, agg.aggs[i].arg.value.name);
    }
  }

  lemma SimpleArgsAgree(en: Ops, agg: Aggregate, schema: Schema, plan: SimplePlan, cells: Cells)
    requires PlanFor(agg, schema, plan) && FitsRow(plan, |cells|) && |cells| == |schema|
    ensures SimpleArgs(plan, cells) == ArgValues(en, agg.aggs, RowValues(schema, cells))
  {
    hide ArgValue, RowValues;
    forall i | 0 <= i < |agg.aggs| ensures SimpleArgs(plan, cells)[i] == ArgValues(en, agg.aggs, RowValues(schema, cells))[i] {
      SimpleArgAgrees(en, agg, schema, plan, cells, i);
    }
  }

  lemma {:induction false} SimpleRowReads(groupBy: seq<Expression>, gbIdx: seq<nat>, schema: Schema, cells: Cells, i: nat)
    requires |gbIdx| == |groupBy| && i < |groupBy| && |cells| == |schema|
    requires forall j :: 0 <= j < |groupBy| ==> gbIdx[j] < |cells| && groupBy[j].ResolvedColumnExpr?
    requires forall j :: 0 <= j < |groupBy| ==> Some(gbIdx[j]) == ColIndex(schema, groupBy[j].name)
    ensures groupBy[i].name in SimpleRow(groupBy, gbIdx, cells)
    ensures SimpleRow(groupBy, gbIdx, cells)[groupBy[i].name] == cells[gbIdx[i]]
  {
    hide ColIndex;
    var n := |groupBy| - 1;
    if i < n {
      SimpleRowReads(groupBy[..n], gbIdx[..n], schema, cells, i);
      assert groupBy[i].name == groupBy[n].name ==> gbIdx[i] == gbIdx[n];
    }
  }

  function GroupNames(agg: Aggregate): set<Str> {
    RefsOfAll(agg.groupBy)
  }

  /** The same groups, up to columns GROUP BY does not mention. */
  ghost predicate SameGroups(agg: Aggregate, g: Groups, h: Groups) {
    && g.accs == h.accs && g.order == h.order && g.rows.Keys == h.rows.Keys
    && forall k :: k in g.rows ==> AgreeOn(GroupNames(agg), g.rows[k], h.rows[k])
  }

  lemma {:induction false} SimpleRefs(groupBy: seq<Expression>, schema: Schema, c: Str)
    requires forall i :: 0 <= i < |groupBy| ==> IsSimple(groupBy[i], schema)
    requires c in RefsOfAll(groupBy)
    ensures exists i :: 0 <= i < |groupBy| && Refs(groupBy[i]) == {c} && groupBy[i].ResolvedColumnExpr?
  {
    if c in Refs(groupBy[0]) {
      assert Refs(groupBy[0]) == {c};
    } else {
      SimpleRefs(groupBy[1..], schema, c);
      var i :| 0 <= i < |groupBy| - 1 && Refs(groupBy[1..][i]) == {c} && groupBy[1..][i].ResolvedColumnExpr?;
      assert Refs(groupBy[i + 1]) == {c};
    }
  }

  lemma SimpleRowAgrees(agg: Aggregate, schema: Schema, plan: SimplePlan, cells: Cells)
    requires PlanFor(agg, schema, plan) && FitsRow(plan, |cells|) && |cells| == |schema|
    ensures AgreeOn(GroupNames(agg), SimpleRow(agg.groupBy, plan.gbIdx, cells), RowValues(schema, cells))
  {
    var row, small := RowValues(schema, cells), SimpleRow(agg.groupBy, plan.gbIdx, cells);
    hide ColIndex, RowValues, SimpleRow;
    forall c | c in GroupNames(agg)
      ensures (if c in small then small[c] else NewNull) == (if c in row then row[c] else NewNull)
    {
      SimpleRefs(agg.groupBy, schema, c);
      var i :| 0 <= i < |agg.groupBy| && Refs(agg.groupBy[i]) == {c} && agg.groupBy[i].ResolvedColumnExpr?;
      assert agg.groupBy[i].name in Refs(agg.groupBy[i]);
      SimpleRowReads(agg.groupBy, plan.gbIdx, schema, cells, i);
      RowValuesByIndex(schema, cells, c);
    }
  }

  function FastStep(fp: FloatOps, agg: Aggregate, schema: Schema, plan: SimplePlan, g: Groups, cells: Cells): (r: Groups)
    requires PlanFor(agg, schema, plan) && FitsRow(plan, |cells|) && Wf(agg, g)
    ensures Wf(agg, r)
  {
    AddTo(fp, agg, g, SimpleKey(fp, plan, cells), SimpleRow(agg.groupBy, plan.gbIdx, cells), SimpleArgs(plan, cells))
  }

  /** One row keeps the two paths' groups the same. */
  lemma SameGroupsStep(en: Ops, agg: Aggregate, schema: Schema, plan: SimplePlan, g: Groups, h: Groups, cells: Cells)
    requires PlanFor(agg, schema, plan) && FitsRow(plan, |cells|) && |cells| == |schema|
    requires Wf(agg, g) && Wf(agg, h) && SameGroups(agg, g, h)
    ensures SameGroups(agg, FastStep(en.fp, agg, schema, plan, g, cells), AddRow(en, agg, h, RowValues(schema, cells)))
  {
    hide AgreeOn, PlanFor, FitsRow, UpdateAll, NewAccumulators, SimpleKey, SimpleArgs, ArgValues, GroupKey, SimpleRow, RowValues, GroupNames;
    SimpleKeyAgrees(en, agg, schema, plan, cells);
    SimpleArgsAgree(en, agg, schema, plan, cells);
    SimpleRowAgrees(agg, schema, plan, cells);
  }

  lemma FastStepAdds(en: Ops, agg: Aggregate, schema: Schema, plan: SimplePlan, g: Groups, rows: seq<RowMap>, cells: Cells)
    requires PlanFor(agg, schema, plan) && FitsRow(plan, |cells|) && |cells| == |schema|
    requires Wf(agg, g) && SameGroups(agg, g, AddRows(en, agg, rows))
    ensures SameGroups(agg, FastStep(en.fp, agg, schema, plan, g, cells), AddRows(en, agg, rows + [RowValues(schema, cells)]))
  {
    hide SameGroups, PlanFor, AddRow, FastStep;
    AddRowsSnoc(en, agg, rows, RowValues(schema, cells));
    SameGroupsStep(en, agg, schema, plan, g, AddRows(en, agg, rows), cells);
  }

  lemma ClosedSame(agg: Aggregate, g: Groups, h: Groups)
    requires Wf(agg, g) && Wf(agg, h) && SameGroups(agg, g, h)
    ensures SameGroups(agg, Closed(agg, g), Closed(agg, h))
  {
  }

  method AddChunkFast(en: Ops, agg: Aggregate, schema: Schema, chunk: Chunk, plan: SimplePlan, g0: Groups, ghost rows: seq<RowMap>)
    returns (g: Groups)
    requires Shaped(chunk, schema) && PlanFor(agg, schema, plan)
    requires Wf(agg, g0) && SameGroups(agg, g0, AddRows(en, agg, rows))
    ensures Wf(agg, g) && SameGroups(agg, g, AddRows(en, agg, rows + RowMaps(schema, chunk)))
  {
    hide AddRow, AddRows, FastStep, FitsRow, PlanFor, RowValues, SameGroups, Wf;
    PlanFits(agg, schema, plan);
    ghost var maps := RowMaps(schema, chunk);
    g := g0;
    assert rows + maps[..0] == rows;
    for j := 0 to |chunk|
      invariant Wf(agg, g) && SameGroups(agg, g, AddRows(en, agg, rows + maps[..j]))
    {
      assert rows + maps[..j + 1] == rows + maps[..j] + [maps[j]];
      FastStepAdds(en, agg, schema, plan, g, rows + maps[..j], chunk[j]);
      g := FastStep(en.fp, agg, schema, plan, g, chunk[j]);
    }
    assert maps[..|chunk|] == maps;
  }

  /** The fast path: reads cells by index and keeps only the GROUP BY columns of a group's first row. */
  method AggregateRowsFast(en: Ops, agg: Aggregate, schema: Schema, chunks: seq<Chunk>, plan: SimplePlan) returns (g: Groups)
    requires AllShaped(chunks, schema) && PlanFor(agg, schema, plan)
    ensures Wf(agg, g) && SameGroups(agg, g, Grouped(en, agg, schema, chunks))
  {
    hide AddRow, AgreeOn, PlanFor;
    g := NO_GROUPS;
    for i := 0 to |chunks|
      invariant Wf(agg, g) && SameGroups(agg, g, AddRows(en, agg, AllRowMaps(schema, chunks[..i])))
    {
      assert chunks[..i + 1][..i] == chunks[..i];
      g := AddChunkFast(en, agg, schema, chunks[i], plan, g, AllRowMaps(schema, chunks[..i]));
    }
    assert chunks[..|chunks|] == chunks;
    ClosedSame(agg, g, AddRows(en, agg, AllRowMaps(schema, chunks)));
    g := Closed(agg, g);
  }

  /** Groups as the executor collects them, by whichever path applies. */
  method AggregateRows(en: Ops, agg: Aggregate, schema: Schema, chunks: seq<Chunk>) returns (g: Groups)
    requires AllShaped(chunks, schema)
    ensures Wf(agg, g) && SameGroups(agg, g, Grouped(en, agg, schema, chunks))
  {
    var plan := TrySimplePlan(agg, schema);
    if plan.Some? {
      g := AggregateRowsFast(en, agg, schema, chunks, plan.value);
    } else {
      g := AggregateRowsSlow(en, agg, schema, chunks);
    }
  }

  // ----- output -----

  datatype AggError = CannotStore(column: nat)

  datatype Output = Rows(rows: Chunk) | Failed(error: AggError)

  function GroupByValue(en: Ops, e: Expression, row: RowMap): Value {
    var r := Eval(en, e, row);
    if r.Ok? then r.value else NewNull
  }

  /** A group's output values before they are stored: GROUP BY values, then results. */
  function GroupValues(en: Ops, agg: Aggregate, accs: seq<Accumulator>, row: RowMap): (r: seq<Value>)
    requires |accs| == |agg.aggs|
    ensures |r| == |agg.groupBy| + |agg.aggs|
  {
    seq(|agg.groupBy|, i requires 0 <= i < |agg.groupBy| => GroupByValue(en, agg.groupBy[i], row)) +
    seq(|accs|, i requires 0 <= i < |accs| => FinalValue(en.fp, accs[i]))
  }

  /** Stores each value in its column, converted; the first that does not fit fails the query. */
  function StoreRow(fp: FloatOps, schema: Schema, vals: seq<Value>): (r: Output)
    requires |vals| == |schema|
    ensures r.Rows? ==> |r.rows| == 1 && |r.rows[0]| == |schema|
  {
    if vals == [] then Rows([[]])
    else
      var n := |vals| - 1;
      var r := StoreRow(fp, schema[..n], vals[..n]);
      if r.Failed? then r
      else
        var v := Coerce(fp, vals[n], schema[n].typ);
        if Accepts(schema[n].typ, v) then Rows([r.rows[0] + [Kept(schema[n].typ, v)]]) else Failed(CannotStore(n))
  }

  function OutputRows(en: Ops, agg: Aggregate, schema: Schema, g: Groups, order: seq<Str>): (r: Output)
    requires Wf(agg, g) && |schema| == |agg.groupBy| + |agg.aggs|
    requires forall i :: 0 <= i < |order| ==> order[i] in g.accs
    ensures r.Rows? ==> |r.rows| == |order| && Shaped(r.rows, schema)
  {
    if order == [] then Rows([])
    else
      var n := |order| - 1;
      var r := OutputRows(en, agg, schema, g, order[..n]);
      if r.Failed? then r
      else
        var s := StoreRow(en.fp, schema, GroupValues(en, agg, g.accs[order[n]], g.rows[order[n]]));
        if s.Failed? then s else Rows(r.rows + s.rows)
  }

  lemma {:induction false} RefsCover(es: seq<Expression>, row: RowMap, row': RowMap, i: nat)
    requires i < |es| && AgreeOn(RefsOfAll(es), row, row')
    ensures AgreeOn(Refs(es[i]), row, row')
  {
    RefsMember(es, i);
  }

  lemma GroupValuesSeeNames(en: Ops, agg: Aggregate, accs: seq<Accumulator>, row: RowMap, row': RowMap)
    requires |accs| == |agg.aggs| && AgreeOn(GroupNames(agg), row, row')
    ensures GroupValues(en, agg, accs, row) == GroupValues(en, agg, accs, row')
  {
    forall i | 0 <= i < |agg.groupBy| ensures GroupByValue(en, agg.groupBy[i], row) == GroupByValue(en, agg.groupBy[i], row') {
      RefsCover(agg.groupBy, row, row', i);
      EvalSeesRefs(en, agg.groupBy[i], row, row');
    }
  }

  /** Groups that agree on the GROUP BY columns give the same output. */
  lemma {:induction false} SameGroupsSameOutput(en: Ops, agg: Aggregate, schema: Schema, g: Groups, h: Groups, order: seq<Str>)
    requires Wf(agg, g) && Wf(agg, h) && SameGroups(agg, g, h) && |schema| == |agg.groupBy| + |agg.aggs|
    requires forall i :: 0 <= i < |order| ==> order[i] in g.accs
    ensures OutputRows(en, agg, schema, g, order) == OutputRows(en, agg, schema, h, order)
  {
    hide AgreeOn, GroupValues, StoreRow;
    if order != [] {
      var n := |order| - 1;
      SameGroupsSameOutput(en, agg, schema, g, h, order[..n]);
      GroupValuesSeeNames(en, agg, g.accs[order[n]], g.rows[order[n]], h.rows[order[n]]);
    }
  }

  /** The output rows of the groups of these rows. */
  function GroupedAnswer(en: Ops, agg: Aggregate, schema: Schema, rows: seq<RowMap>): (r: Output)
    requires |schema| == |agg.groupBy| + |agg.aggs|
    ensures r.Rows? ==> Shaped(r.rows, schema)
  {
    var g := Closed(agg, AddRows(en, agg, rows));
    OutputRows(en, agg, schema, g, g.order)
  }

  /** What the aggregate node returns for the chunks of its child. */
  function Aggregated(en: Ops, agg: Aggregate, inSchema: Schema, outSchema: Schema, chunks: seq<Chunk>): (r: Output)
    requires AllShaped(chunks, inSchema) && |outSchema| == |agg.groupBy| + |agg.aggs|
    ensures r.Rows? ==> Shaped(r.rows, outSchema)
  {
    GroupedAnswer(en, agg, outSchema, AllRowMaps(inSchema, chunks))
  }

  /** Builds the output group by group, in group order. */
  method BuildOutput(en: Ops, agg: Aggregate, schema: Schema, g: Groups, ghost h: Groups) returns (out: Output)
    requires Wf(agg, g) && Wf(agg, h) && SameGroups(agg, g, h) && |schema| == |agg.groupBy| + |agg.aggs|
    ensures out == OutputRows(en, agg, schema, h, h.order)
  {
    hide GroupValues, StoreRow, AgreeOn;
    SameGroupsSameOutput(en, agg, schema, g, h, g.order);
    var rows: Chunk := [];
    for i := 0 to |g.order|
      invariant OutputRows(en, agg, schema, g, g.order[..i]) == Rows(rows)
    {
      assert g.order[..i + 1][..i] == g.order[..i];
      var s := StoreRow(en.fp, schema, GroupValues(en, agg, g.accs[g.order[i]], g.rows[g.order[i]]));
      if s.Failed? {
        FailureSticks(en, agg, schema, g, i + 1);
        return s;
      }
      rows := rows + s.rows;
    }
    assert g.order[..|g.order|] == g.order;
    return Rows(rows);
  }

  lemma FailureSticks(en: Ops, agg: Aggregate, schema: Schema, g: Groups, i: nat)
    requires Wf(agg, g) && |schema| == |agg.groupBy| + |agg.aggs| && i <= |g.order|
    requires OutputRows(en, agg, schema, g, g.order[..i]).Failed?
    ensures OutputRows(en, agg, schema, g, g.order) == OutputRows(en, agg, schema, g, g.order[..i])
    decreases |g.order| - i
  {
    hide GroupValues, StoreRow;
    if i < |g.order| {
      assert g.order[..i + 1][..i] == g.order[..i];
      FailureSticks(en, agg, schema, g, i + 1);
    } else {
      assert g.order[..i] == g.order;
    }
  }

  // ----- what the groups mean -----

  function KeyOf(en: Ops, agg: Aggregate, row: RowMap): Str {
    GroupKey(en, agg.groupBy, row)
  }

  /** The rows of one group, in order. */
  function WithKey(en: Ops, agg: Aggregate, rows: seq<RowMap>, k: Str): seq<RowMap> {
    if rows == [] then []
    else
      var n := |rows| - 1;
      WithKey(en, agg, rows[..n], k) + if KeyOf(en, agg, rows[n]) == k then [rows[n]] else []
  }

  function UpdatedBy(en: Ops, agg: Aggregate, rows: seq<RowMap>): (r: seq<Accumulator>)
    ensures |r| == |agg.aggs|
  {
    if rows == [] then NewAccumulators(agg.aggs)
    else
      var n := |rows| - 1;
      UpdateAll(en.fp, UpdatedBy(en, agg, rows[..n]), ArgValues(en, agg.aggs, rows[n]))
  }

  /** A group exists exactly when some row has its key; its accumulators have seen exactly the
      rows with that key, in order, and its representative is the first of them. */
  lemma {:induction false} GroupsMean(en: Ops, agg: Aggregate, rows: seq<RowMap>, k: Str)
    ensures var g, mine := AddRows(en, agg, rows), WithKey(en, agg, rows, k);
      && (k in g.accs <==> mine != [])
      && (k in g.accs ==> g.accs[k] == UpdatedBy(en, agg, mine) && g.rows[k] == mine[0])
  {
    hide GroupKey, UpdateAll, ArgValues, NewAccumulators;
    if rows != [] {
      var n := |rows| - 1;
      var mine := WithKey(en, agg, rows[..n], k);
      GroupsMean(en, agg, rows[..n], k);
      if KeyOf(en, agg, rows[n]) == k {
        assert (mine + [rows[n]])[..|mine|] == mine;
      } else {
        assert WithKey(en, agg, rows, k) == mine;
      }
    }
  }

  ghost predicate NoZeroByte(s: Str) {
    forall i :: 0 <= i < |s| ==> s[i] != 0
  }

  /** Zero bytes occur in these columns at most. */
  ghost predicate ZerosWithin(parts: seq<Str>, cols: set<nat>) {
    forall i :: 0 <= i < |parts| && i !in cols ==> NoZeroByte(parts[i])
  }

  lemma NoZeroAfter(a: Str, x: Str)
    requires NoZeroByte(x)
    ensures forall p :: |a| < p < |a| + 1 + |x| ==> (a + [0] + x)[p] != 0
  {
    forall p | |a| < p < |a| + 1 + |x| ensures (a + [0] + x)[p] != 0 {
      assert (a + [0] + x)[p] == x[p - |a| - 1];
    }
  }

  /** Where the last zero byte of a string stands, two splittings at a zero byte agree. */
  lemma LastCutUnique(a: Str, x: Str, b: Str, y: Str)
    requires NoZeroByte(x) && NoZeroByte(y) && a + [0] + x == b + [0] + y
    ensures a == b && x == y
  {
    var s := a + [0] + x;
    assert s == b + [0] + y;
    assert s[|a|] == 0 && s[|b|] == 0;
    NoZeroAfter(a, x);
    NoZeroAfter(b, y);
    assert a == s[..|a|] && b == s[..|b|] && x == s[|a| + 1..] && y == s[|b| + 1..];
  }

  /** And where the first one stands. */
  lemma FirstCutUnique(x: Str, a: Str, y: Str, b: Str)
    requires NoZeroByte(x) && NoZeroByte(y) && x + [0] + a == y + [0] + b
    ensures x == y && a == b
  {
    var s := x + [0] + a;
    assert s == y + [0] + b;
    assert s[|x|] == 0 && s[|y|] == 0;
    assert (forall p :: 0 <= p < |x| ==> s[p] == x[p]) && (forall p :: 0 <= p < |y| ==> s[p] == y[p]);
    assert x == s[..|x|] && y == s[..|y|] && a == s[|x| + 1..] && b == s[|y| + 1..];
  }

  lemma {:induction false} JoinedFromFirst(parts: seq<Str>)
    requires |parts| > 1
    ensures Joined(parts) == parts[0] + [0] + Joined(parts[1..])
  {
    var n := |parts| - 1;
    if n > 1 {
      JoinedFromFirst(parts[..n]);
      assert parts[..n][1..] == parts[1..][..n - 1];
    } else {
      assert parts[..1] == [parts[0]];
    }
  }

  /** With zero bytes in one column only, the separator keeps the parts of a key apart. */
  lemma {:induction false} JoinedParts(a: seq<Str>, b: seq<Str>, z: nat)
    requires |a| == |b| && ZerosWithin(a, {z}) && ZerosWithin(b, {z}) && Joined(a) == Joined(b)
    ensures a == b
    decreases |a|
  {
    var n := |a| - 1;
    if n > 0 {
      if z > 0 {
        JoinedFromFirst(a);
        JoinedFromFirst(b);
        FirstCutUnique(a[0], Joined(a[1..]), b[0], Joined(b[1..]));
        JoinedParts(a[1..], b[1..], z - 1);
        assert a == [a[0]] + a[1..] && b == [b[0]] + b[1..];
      } else {
        LastCutUnique(Joined(a[..n]), a[n], Joined(b[..n]), b[n]);
        JoinedParts(a[..n], b[..n], z);
        assert a == a[..n] + [a[n]] && b == b[..n] + [b[n]];
      }
    }
  }

  function ZeroBytes(n: nat): Str {
    seq(n, i => 0)
  }

  /** One zero byte in column `i`, nothing elsewhere. */
  function OneZero(n: nat, i: nat): (r: seq<Str>)
    ensures |r| == n && forall j :: 0 <= j < n ==> r[j] == if j == i then [0] else []
  {
    seq(n, j requires 0 <= j < n => if j == i then [0] else [])
  }

  lemma {:induction false} JoinedZeros(n: nat, i: nat)
    requires n > 0
    ensures Joined(OneZero(n, i)) == ZeroBytes(if i < n then n else n - 1)
  {
    if n > 1 {
      JoinedZeros(n - 1, i);
      assert OneZero(n, i)[..n - 1] == OneZero(n - 1, i);
    }
  }

  ghost predicate Separates(n: nat, cols: set<nat>) {
    forall a: seq<Str>, b: seq<Str> :: |a| == |b| == n && ZerosWithin(a, cols) && ZerosWithin(b, cols) && Joined(a) == Joined(b) ==> a == b
  }

  lemma OnlyOne(cols: set<nat>) returns (z: nat)
    requires |cols| <= 1
    ensures cols <= {z}
  {
    z := 0;
    if cols != {} {
      z :| z in cols;
      assert |cols - {z}| == |cols| - 1;
    }
  }

  lemma TwoOf(cols: set<nat>) returns (i: nat, j: nat)
    requires |cols| > 1
    ensures i in cols && j in cols && i != j
  {
    i :| i in cols;
    assert |cols - {i}| == |cols| - 1;
    j :| j in cols - {i};
  }

  /** The exact condition: keys of `n` texts that may hold zero bytes in these columns are kept apart
      exactly when that is one column at most. */
  lemma SeparatesIff(n: nat, cols: set<nat>)
    requires forall i :: i in cols ==> i < n
    ensures Separates(n, cols) <==> |cols| <= 1
  {
    hide Joined;
    if |cols| <= 1 {
      var z := OnlyOne(cols);
      forall a: seq<Str>, b: seq<Str> | |a| == |b| == n && ZerosWithin(a, cols) && ZerosWithin(b, cols) && Joined(a) == Joined(b) ensures a == b {
        JoinedParts(a, b, z);
      }
    } else {
      var i, j := TwoOf(cols);
      JoinedZeros(n, i);
      JoinedZeros(n, j);
      var a, b := OneZero(n, i), OneZero(n, j);
      assert a[i] != b[i];
      assert ZerosWithin(a, cols) && ZerosWithin(b, cols);
    }
  }

  /** When at most one GROUP BY column may hold zero bytes, two rows share a group exactly when their
      texts agree, column by column. */
  lemma SameGroupIff(en: Ops, agg: Aggregate, row: RowMap, row': RowMap, cols: set<nat>)
    requires |cols| <= 1 && forall i :: i in cols ==> i < |agg.groupBy|
    requires ZerosWithin(GroupTexts(en, agg.groupBy, row), cols) && ZerosWithin(GroupTexts(en, agg.groupBy, row'), cols)
    ensures KeyOf(en, agg, row) == KeyOf(en, agg, row') <==>
      forall i :: 0 <= i < |agg.groupBy| ==>
        KeyText(en.fp, Eval(en, agg.groupBy[i], row)) == KeyText(en.fp, Eval(en, agg.groupBy[i], row'))
  {
    hide Joined, KeyText, Eval, ZerosWithin;
    var a, b := GroupTexts(en, agg.groupBy, row), GroupTexts(en, agg.groupBy, row');
    SeparatesIff(|agg.groupBy|, cols);
    if forall i :: 0 <= i < |agg.groupBy| ==> a[i] == b[i] {
      assert a == b;
    }
  }

  /** A string column prints its strings as they are. */
  ghost predicate PrintsStrings(fp: FloatOps) {
    forall s: Str :: fp.text(NewString(s)) == s
  }

  /** On a string column NULL shares a group with a stored string exactly when that is what NULL prints as. */
  lemma NullGroupIff(en: Ops, c: Str, s: Str, aggs: seq<AggExpr>)
    requires PrintsStrings(en.fp)
    ensures var agg := Aggregate([ColumnExpr(c)], aggs);
      KeyOf(en, agg, map[c := NewNull]) == KeyOf(en, agg, map[c := NewString(s)]) <==> s == en.fp.text(NewNull)
  {
    var cols := [ColumnExpr(c)];
    var missing: RowMap, str: RowMap := map[c := NewNull], map[c := NewString(s)];
    assert GroupTexts(en, cols, missing) == [en.fp.text(NewNull)] && GroupTexts(en, cols, str) == [s];
  }

  lemma JoinedPair(a: Str, b: Str)
    ensures Joined([a, b]) == a + [0] + b
  {
    assert [a, b][..1] == [a];
  }

  /** A zero byte in a string moves between columns: ("", 0-byte) and (0-byte, "") share a group. */
  lemma ZeroByteMergesGroups(en: Ops, c: Str, d: Str, aggs: seq<AggExpr>)
    requires c != d && en.fp.text(NewString([])) == [] && en.fp.text(NewString([0])) == [0]
    ensures var agg := Aggregate([ColumnExpr(c), ColumnExpr(d)], aggs);
      KeyOf(en, agg, map[c := NewString([]), d := NewString([0])]) == KeyOf(en, agg, map[c := NewString([0]), d := NewString([])])
  {
    var cols := [ColumnExpr(c), ColumnExpr(d)];
    var a: RowMap, b: RowMap := map[c := NewString([]), d := NewString([0])], map[c := NewString([0]), d := NewString([])];
    assert GroupTexts(en, cols, a) == [[], [0]] && GroupTexts(en, cols, b) == [[0], []];
    var none: Str, zero: Str := [], [0];
    JoinedPair(none, zero);
    JoinedPair(zero, none);
  }

  /** The first row with the key, |rows| if there is none. */
  function FirstAt(en: Ops, agg: Aggregate, rows: seq<RowMap>, k: Str): (r: nat)
    ensures r <= |rows|
  {
    if rows == [] then 0
    else if KeyOf(en, agg, rows[0]) == k then 0
    else 1 + FirstAt(en, agg, rows[1..], k)
  }

  lemma {:induction false} FirstAtMeans(en: Ops, agg: Aggregate, rows: seq<RowMap>, k: Str)
    ensures FirstAt(en, agg, rows, k) < |rows| ==> KeyOf(en, agg, rows[FirstAt(en, agg, rows, k)]) == k
    ensures forall i :: 0 <= i < FirstAt(en, agg, rows, k) ==> KeyOf(en, agg, rows[i]) != k
  {
    hide KeyOf;
    if rows != [] { FirstAtMeans(en, agg, rows[1..], k); }
  }

  ghost predicate InFirstAppearanceOrder(en: Ops, agg: Aggregate, rows: seq<RowMap>, order: seq<Str>) {
    && (forall i :: 0 <= i < |order| ==> FirstAt(en, agg, rows, order[i]) < |rows|)
    && (forall i, j :: 0 <= i < j < |order| ==> FirstAt(en, agg, rows, order[i]) < FirstAt(en, agg, rows, order[j]))
    && (forall i :: 0 <= i < |rows| ==> KeyOf(en, agg, rows[i]) in order)
  }

  lemma {:induction false} FirstAtSnoc(en: Ops, agg: Aggregate, rows: seq<RowMap>, row: RowMap, k: Str)
    ensures FirstAt(en, agg, rows, k) < |rows| ==> FirstAt(en, agg, rows + [row], k) == FirstAt(en, agg, rows, k)
    ensures FirstAt(en, agg, rows, k) == |rows| && KeyOf(en, agg, row) == k ==> FirstAt(en, agg, rows + [row], k) == |rows|
  {
    hide KeyOf;
    if rows != [] {
      assert (rows + [row])[1..] == rows[1..] + [row];
      FirstAtSnoc(en, agg, rows[1..], row, k);
    }
  }

  lemma OrderStep(en: Ops, agg: Aggregate, rows: seq<RowMap>, row: RowMap, order: seq<Str>)
    requires InFirstAppearanceOrder(en, agg, rows, order)
    ensures var key := KeyOf(en, agg, row);
      InFirstAppearanceOrder(en, agg, rows + [row], if key in order then order else order + [key])
  {
    hide FirstAt, KeyOf;
    var key, all := KeyOf(en, agg, row), rows + [row];
    var next := if key in order then order else order + [key];
    FirstAtMeans(en, agg, rows, key);
    forall i | 0 <= i < |next|
      ensures FirstAt(en, agg, all, next[i]) == if i < |order| then FirstAt(en, agg, rows, order[i]) else |rows|
    {
      FirstAtSnoc(en, agg, rows, row, next[i]);
    }
    forall i | 0 <= i < |all| ensures KeyOf(en, agg, all[i]) in next {
      assert all[i] == if i < |rows| then rows[i] else row;
    }
  }

  /** The groups come out in the order their first rows come in, each once. */
  lemma {:induction false} OrderMeans(en: Ops, agg: Aggregate, rows: seq<RowMap>)
    ensures InFirstAppearanceOrder(en, agg, rows, AddRows(en, agg, rows).order)
    ensures forall k :: k in AddRows(en, agg, rows).order <==> k in AddRows(en, agg, rows).accs
  {
    hide UpdateAll, ArgValues, NewAccumulators, GroupKey, InFirstAppearanceOrder;
    if rows == [] {
      NoRowsInOrder(en, agg);
    } else {
      var n := |rows| - 1;
      OrderMeans(en, agg, rows[..n]);
      OrderStep(en, agg, rows[..n], rows[n], AddRows(en, agg, rows[..n]).order);
      assert rows == rows[..n] + [rows[n]];
    }
  }

  lemma NoRowsInOrder(en: Ops, agg: Aggregate)
    ensures InFirstAppearanceOrder(en, agg, [], [])
  {
  }

  function Folded(fp: FloatOps, fn: AggFunc, vals: seq<Value>): (r: Accumulator)
    ensures r.fn == fn
  {
    if vals == [] then Accumulator(fn, 0, 0, NewNull, NewNull, false)
    else Update(fp, Folded(fp, fn, vals[..|vals| - 1]), vals[|vals| - 1])
  }

  /** `LessThan` orders the values, ties allowed. */
  ghost predicate WeakOrder(fp: FloatOps, vals: seq<Value>) {
    && (forall i, j :: 0 <= i < |vals| && 0 <= j < |vals| && LessThan(fp, vals[i], vals[j]) ==> !LessThan(fp, vals[j], vals[i]))
    && (forall i, j, k :: 0 <= i < |vals| && 0 <= j < |vals| && 0 <= k < |vals|
         && vals[i].valid && vals[j].valid && vals[k].valid && LessThan(fp, vals[i], vals[j])
         ==> LessThan(fp, vals[i], vals[k]) || LessThan(fp, vals[k], vals[j]))
  }

  predicate Beats(fp: FloatOps, fn: AggFunc, v: Value, w: Value) {
    if fn.AggMin? then LessThan(fp, v, w) else LessThan(fp, w, v)
  }

  ghost predicate IsExtreme(fp: FloatOps, fn: AggFunc, vals: seq<Value>, i: nat) {
    && i < |vals| && vals[i].valid
    && forall j :: 0 <= j < |vals| && vals[j].valid ==> !Beats(fp, fn, vals[j], vals[i])
  }

  lemma ExtremeStep(fp: FloatOps, fn: AggFunc, vals: seq<Value>, i: nat)
    requires vals != [] && vals[|vals| - 1].valid && WeakOrder(fp, vals) && i < |vals| - 1
    requires IsExtreme(fp, fn, vals[..|vals| - 1], i)
    ensures IsExtreme(fp, fn, vals, if Beats(fp, fn, vals[|vals| - 1], vals[i]) then |vals| - 1 else i)
  {
    hide LessThan;
    var n := |vals| - 1;
    var w := if Beats(fp, fn, vals[n], vals[i]) then n else i;
    forall j | 0 <= j < |vals| && vals[j].valid ensures !Beats(fp, fn, vals[j], vals[w]) {
      if j < n { assert vals[..n][j] == vals[j] && vals[..n][i] == vals[i]; }
    }
  }

  /** One more value: it becomes the result when it is the first or beats the one so far. */
  lemma FoldedStep(fp: FloatOps, fn: AggFunc, vals: seq<Value>)
    requires vals != [] && (fn.AggMin? || fn.AggMax?)
    ensures var v, was, acc := vals[|vals| - 1], Folded(fp, fn, vals[..|vals| - 1]), Folded(fp, fn, vals);
      && (acc.hasValue <==> was.hasValue || v.valid)
      && FinalValue(fp, acc) ==
           if v.valid && (!was.hasValue || Beats(fp, fn, v, FinalValue(fp, was))) then v else FinalValue(fp, was)
  {
    hide LessThan;
  }

  lemma FoldedNone(fp: FloatOps, fn: AggFunc)
    requires fn.AggMin? || fn.AggMax?
    ensures !Folded(fp, fn, []).hasValue && FinalValue(fp, Folded(fp, fn, [])) == NewNull
  {
  }

  /** MIN and MAX return one of the values, one that no other beats, and NULL exactly when all
      are NULL. */
  lemma {:induction false} ExtremeMeans(fp: FloatOps, fn: AggFunc, vals: seq<Value>) returns (i: nat)
    requires fn.AggMin? || fn.AggMax?
    requires WeakOrder(fp, vals)
    ensures Folded(fp, fn, vals).hasValue ==>
      IsExtreme(fp, fn, vals, i) && FinalValue(fp, Folded(fp, fn, vals)) == vals[i]
    ensures !Folded(fp, fn, vals).hasValue ==>
      FinalValue(fp, Folded(fp, fn, vals)) == NewNull && forall j :: 0 <= j < |vals| ==> !vals[j].valid
  {
    hide LessThan, WeakOrder, Beats, Folded, FinalValue;
    i := 0;
    if vals == [] {
      FoldedNone(fp, fn);
    } else {
      var n := |vals| - 1;
      WeakOrderPrefix(fp, vals);
      FoldedStep(fp, fn, vals);
      i := ExtremeMeans(fp, fn, vals[..n]);
      hide IsExtreme;
      if vals[n].valid {
        if Folded(fp, fn, vals[..n]).hasValue {
          ExtremeStep(fp, fn, vals, i);
          i := if Beats(fp, fn, vals[n], vals[i]) then n else i;
        } else {
          assert vals == vals[..n] + [vals[n]];
          ExtremeFirst(fp, fn, vals[..n], vals[n]);
          i := n;
        }
      } else if Folded(fp, fn, vals[..n]).hasValue {
        ExtremeSkips(fp, fn, vals, i);
      }
    }
  }

  lemma WeakOrderPrefix(fp: FloatOps, vals: seq<Value>)
    requires vals != [] && WeakOrder(fp, vals)
    ensures WeakOrder(fp, vals[..|vals| - 1])
  {
    hide LessThan;
  }

  lemma ExtremeFirst(fp: FloatOps, fn: AggFunc, nulls: seq<Value>, v: Value)
    requires v.valid && WeakOrder(fp, nulls + [v])
    requires forall j :: 0 <= j < |nulls| ==> !nulls[j].valid
    ensures IsExtreme(fp, fn, nulls + [v], |nulls|)
  {
    hide LessThan;
    var vals := nulls + [v];
    forall j | 0 <= j < |vals| && vals[j].valid ensures !Beats(fp, fn, vals[j], v) {
      assert vals[j] == vals[|nulls|];
    }
  }

  lemma ExtremeSkips(fp: FloatOps, fn: AggFunc, vals: seq<Value>, i: nat)
    requires vals != [] && !vals[|vals| - 1].valid && IsExtreme(fp, fn, vals[..|vals| - 1], i)
    ensures IsExtreme(fp, fn, vals, i)
  {
    hide Beats;
    var n := |vals| - 1;
    forall j | 0 <= j < |vals| && vals[j].valid ensures !Beats(fp, fn, vals[j], vals[i]) {
      assert vals[..n][j] == vals[j];
    }
  }

  /** The values of one non-float column are ordered. */
  lemma ColumnIsOrdered(fp: FloatOps, vals: seq<Value>, typ: DataType)
    requires !typ.TypeFloat64?
    requires forall i :: 0 <= i < |vals| ==> !vals[i].valid || vals[i].typ == typ
    ensures WeakOrder(fp, vals)
  {
    OrderLaws();
    hide Less;
  }

  /** What each accumulator of a group has folded: the argument's value on every row of the
      group where it evaluates. */
  function ArgsOf(en: Ops, agg: AggExpr, rows: seq<RowMap>): seq<Value> {
    if rows == [] then []
    else
      var n := |rows| - 1;
      var v := ArgValue(en, agg, rows[n]);
      ArgsOf(en, agg, rows[..n]) + if v.Some? then [v.value] else []
  }

  lemma {:induction false} AccumulatorMeans(en: Ops, agg: Aggregate, rows: seq<RowMap>, i: nat)
    requires i < |agg.aggs|
    ensures UpdatedBy(en, agg, rows)[i] == Folded(en.fp, agg.aggs[i].fn, ArgsOf(en, agg.aggs[i], rows))
  {
    hide Update, ArgValue;
    if rows != [] {
      var n := |rows| - 1;
      AccumulatorMeans(en, agg, rows[..n], i);
      var v := ArgValue(en, agg.aggs[i], rows[n]);
      var args := ArgsOf(en, agg.aggs[i], rows[..n]);
      if v.Some? {
        assert (args + [v.value])[..|args|] == args;
      } else {
        assert args + [] == args;
      }
    }
  }

  // ----- the answer -----

  /** The values that are not NULL, in order. */
  function ValidOnes(vals: seq<Value>): (r: seq<Value>) {
    if vals == [] then []
    else
      var n := |vals| - 1;
      ValidOnes(vals[..n]) + if vals[n].valid then [vals[n]] else []
  }

  lemma {:induction false} ValidOnesMean(vals: seq<Value>) returns (idx: seq<nat>)
    ensures PicksAt(vals, idx, ValidOnes(vals))
    ensures forall q: nat :: q in idx <==> q < |vals| && vals[q].valid
  {
    idx := [];
    if vals != [] {
      var n := |vals| - 1;
      var before := ValidOnesMean(vals[..n]);
      idx := PickLast(vals, before, ValidOnes(vals[..n]), vals[n].valid);
    }
  }

  /** The sum of the values as floats, from zero and from the left. */
  function FloatSum(fp: FloatOps, vals: seq<Value>): Float64 {
    if vals == [] then 0
    else fp.add(FloatSum(fp, vals[..|vals| - 1]), ToFloat64(fp, vals[|vals| - 1]))
  }

  /** What an aggregate function returns for the values of its argument. COUNT counts NULLs too. */
  ghost predicate AggIs(fp: FloatOps, fn: AggFunc, args: seq<Value>, v: Value) {
    var valid := ValidOnes(args);
    match fn
    case AggUnknown => v == NewNull
    case AggCount => |args| <= INT64_MAX ==> v == NewInt64(|args|)
    case AggSum => |args| <= INT64_MAX ==> v == if valid == [] then NewNull else NewFloat64(FloatSum(fp, valid))
    case AggAvg => |args| <= INT64_MAX && |valid| <= INT64_MAX ==>
      v == if valid == [] then NewNull else NewFloat64(fp.div(FloatSum(fp, valid), fp.ofInt(|valid|)))
    case _ =>
      if valid == [] then v == NewNull
      else v in valid && (WeakOrder(fp, args) ==> forall w :: w in valid ==> !Beats(fp, fn, w, v))
  }

  lemma {:induction false} CountsAll(fp: FloatOps, args: seq<Value>)
    requires |args| <= INT64_MAX
    ensures Folded(fp, AggCount, args).count == |args|
  {
    if args != [] { CountsAll(fp, args[..|args| - 1]); }
  }

  lemma {:induction false} SumsValid(fp: FloatOps, fn: AggFunc, args: seq<Value>)
    requires (fn.AggSum? || fn.AggAvg?) && |args| <= INT64_MAX
    ensures |ValidOnes(args)| <= |args|
    ensures Folded(fp, fn, args).count == |ValidOnes(args)| && Folded(fp, fn, args).sum == FloatSum(fp, ValidOnes(args))
  {
    hide ToFloat64;
    if args != [] {
      var n := |args| - 1;
      SumsValid(fp, fn, args[..n]);
      var before := ValidOnes(args[..n]);
      if args[n].valid {
        assert (before + [args[n]])[..|before|] == before;
      } else {
        assert before + [] == before;
      }
    }
  }

  lemma {:induction false} ExtremeIsOne(fp: FloatOps, fn: AggFunc, args: seq<Value>)
    requires fn.AggMin? || fn.AggMax?
    ensures var acc, valid := Folded(fp, fn, args), ValidOnes(args);
      (acc.hasValue <==> valid != []) && if valid == [] then FinalValue(fp, acc) == NewNull else FinalValue(fp, acc) in valid
  {
    hide LessThan, Folded, FinalValue, Beats;
    if args == [] {
      FoldedNone(fp, fn);
    } else {
      ExtremeIsOne(fp, fn, args[..|args| - 1]);
      FoldedStep(fp, fn, args);
    }
  }

  lemma ExtremeUnbeaten(fp: FloatOps, fn: AggFunc, args: seq<Value>)
    requires (fn.AggMin? || fn.AggMax?) && WeakOrder(fp, args) && ValidOnes(args) != []
    ensures forall w :: w in ValidOnes(args) ==> !Beats(fp, fn, w, FinalValue(fp, Folded(fp, fn, args)))
  {
    hide WeakOrder, Beats, Folded, FinalValue, ValidOnes;
    ExtremeIsOne(fp, fn, args);
    var i := ExtremeMeans(fp, fn, args);
    var idx := ValidOnesMean(args);
    forall w | w in ValidOnes(args) ensures !Beats(fp, fn, w, args[i]) {
      var k :| 0 <= k < |ValidOnes(args)| && ValidOnes(args)[k] == w;
      assert idx[k] in idx;
    }
  }

  /** The value an accumulator ends with is the aggregate of what it has seen. */
  lemma AggregateMeans(fp: FloatOps, fn: AggFunc, args: seq<Value>)
    ensures AggIs(fp, fn, args, FinalValue(fp, Folded(fp, fn, args)))
  {
    hide WeakOrder, Beats, Folded, ValidOnes;
    match fn {
      case AggUnknown =>
      case AggCount => if |args| <= INT64_MAX { CountsAll(fp, args); }
      case AggMin =>
        ExtremeIsOne(fp, fn, args);
        if WeakOrder(fp, args) && ValidOnes(args) != [] { ExtremeUnbeaten(fp, fn, args); }
      case AggMax =>
        ExtremeIsOne(fp, fn, args);
        if WeakOrder(fp, args) && ValidOnes(args) != [] { ExtremeUnbeaten(fp, fn, args); }
      case _ => if |args| <= INT64_MAX { SumsValid(fp, fn, args); }
    }
  }

  /** COUNT(*) takes one value a row; any other aggregate the value of its argument on exactly the rows where
      that evaluates. */
  ghost predicate ArgsFrom(en: Ops, agg: AggExpr, rows: seq<RowMap>, args: seq<Value>) {
    if agg.arg.None? then |args| == |rows| && forall q :: 0 <= q < |args| ==> args[q] == NewNull
    else exists idx :: ArgsAt(en, agg.arg.value, rows, idx, args)
  }

  ghost predicate ArgsAt(en: Ops, arg: Expression, rows: seq<RowMap>, idx: seq<nat>, args: seq<Value>) {
    && Places(idx, |rows|) && |args| == |idx|
    && (forall q: nat :: q in idx <==> q < |rows| && Eval(en, arg, rows[q]).Ok?)
    && forall k :: 0 <= k < |idx| ==> Eval(en, arg, rows[idx[k]]) == Ok(args[k])
  }

  lemma {:induction false} ArgsIndexes(en: Ops, agg: AggExpr, rows: seq<RowMap>) returns (idx: seq<nat>)
    requires agg.arg.Some?
    ensures ArgsAt(en, agg.arg.value, rows, idx, ArgsOf(en, agg, rows))
  {
    hide Eval;
    idx := [];
    if rows != [] {
      var n := |rows| - 1;
      idx := ArgsIndexes(en, agg, rows[..n]);
      if Eval(en, agg.arg.value, rows[n]).Ok? { idx := idx + [n]; }
      forall q: nat ensures q in idx <==> q < |rows| && Eval(en, agg.arg.value, rows[q]).Ok? {
        assert q < n ==> rows[..n][q] == rows[q];
      }
    }
  }

  lemma {:induction false} StarCounts(en: Ops, agg: AggExpr, rows: seq<RowMap>)
    requires agg.arg.None?
    ensures |ArgsOf(en, agg, rows)| == |rows| && forall q :: 0 <= q < |rows| ==> ArgsOf(en, agg, rows)[q] == NewNull
  {
    if rows != [] { StarCounts(en, agg, rows[..|rows| - 1]); }
  }

  lemma ArgsMean(en: Ops, agg: AggExpr, rows: seq<RowMap>)
    ensures ArgsFrom(en, agg, rows, ArgsOf(en, agg, rows))
  {
    hide ArgsAt, ArgsOf;
    if agg.arg.None? {
      StarCounts(en, agg, rows);
    } else {
      var idx := ArgsIndexes(en, agg, rows);
    }
  }

  lemma ArgsUnique(en: Ops, agg: AggExpr, rows: seq<RowMap>, args: seq<Value>, args': seq<Value>)
    requires ArgsFrom(en, agg, rows, args) && ArgsFrom(en, agg, rows, args')
    ensures args == args'
  {
    hide Eval;
    if agg.arg.Some? {
      var e := agg.arg.value;
      var idx :| ArgsAt(en, e, rows, idx, args);
      var idx' :| ArgsAt(en, e, rows, idx', args');
      PlacesUnique(idx, idx', |rows|);
      forall k | 0 <= k < |args| ensures args[k] == args'[k] {
        assert Ok(args[k]) == Eval(en, e, rows[idx[k]]) == Ok(args'[k]);
      }
    }
  }

  /** The value of a group in one output column, before it is stored: of a GROUP BY expression on the group's first
      row, NULL if that fails; or of an aggregate over the group. A group without rows has no columns. */
  ghost predicate GroupHas(en: Ops, agg: Aggregate, rows: seq<RowMap>, i: nat, v: Value)
    requires i < |agg.groupBy| + |agg.aggs|
  {
    if i < |agg.groupBy| then
      var r := Eval(en, agg.groupBy[i], if rows == [] then map[] else rows[0]);
      v == if r.Ok? then r.value else NewNull
    else
      var a := agg.aggs[i - |agg.groupBy|];
      exists args :: ArgsFrom(en, a, rows, args) && AggIs(en.fp, a.fn, args, v)
  }

  ghost predicate GroupCell(en: Ops, agg: Aggregate, schema: Schema, rows: seq<RowMap>, i: nat, cell: Value)
    requires i < |schema| == |agg.groupBy| + |agg.aggs|
  {
    exists v :: GroupHas(en, agg, rows, i, v) && Stores(en.fp, schema[i].typ, v, cell)
  }

  ghost predicate GroupShows(en: Ops, agg: Aggregate, schema: Schema, rows: seq<RowMap>, cells: Cells)
    requires |schema| == |agg.groupBy| + |agg.aggs|
  {
    |cells| == |schema| && forall i :: 0 <= i < |schema| ==> GroupCell(en, agg, schema, rows, i, cells[i])
  }

  ghost predicate GroupFits(en: Ops, agg: Aggregate, schema: Schema, rows: seq<RowMap>, i: nat)
    requires i < |schema| == |agg.groupBy| + |agg.aggs|
  {
    exists v :: GroupHas(en, agg, rows, i, v) && Storable(schema[i].typ, v)
  }

  /** Column i is the first of the group that cannot be made to hold the group's value. */
  ghost predicate GroupFails(en: Ops, agg: Aggregate, schema: Schema, rows: seq<RowMap>, i: nat)
    requires |schema| == |agg.groupBy| + |agg.aggs|
  {
    && i < |schema|
    && (forall k :: 0 <= k < i ==> GroupFits(en, agg, schema, rows, k))
    && exists v :: GroupHas(en, agg, rows, i, v) && !Storable(schema[i].typ, v)
  }

  /** The keys of the groups in the order they come in; without rows there is still one group. */
  ghost predicate GroupKeys(en: Ops, agg: Aggregate, rows: seq<RowMap>, keys: seq<Str>) {
    if rows == [] then keys == [[]] else InFirstAppearanceOrder(en, agg, rows, keys)
  }

  /** The rows of the group with that key: exactly those, in order. */
  ghost predicate GroupOf(en: Ops, agg: Aggregate, rows: seq<RowMap>, k: Str, mine: seq<RowMap>) {
    exists idx :: PicksAt(rows, idx, mine) && GroupAt(en, agg, rows, k, idx)
  }

  ghost predicate GroupAt(en: Ops, agg: Aggregate, rows: seq<RowMap>, k: Str, idx: seq<nat>) {
    forall q: nat :: q in idx <==> q < |rows| && KeyOf(en, agg, rows[q]) == k
  }

  lemma {:induction false} WithKeyIndexes(en: Ops, agg: Aggregate, rows: seq<RowMap>, k: Str) returns (idx: seq<nat>)
    ensures PicksAt(rows, idx, WithKey(en, agg, rows, k)) && GroupAt(en, agg, rows, k, idx)
  {
    hide KeyOf;
    idx := [];
    if rows != [] {
      var n := |rows| - 1;
      var before := WithKeyIndexes(en, agg, rows[..n], k);
      idx := PickLast(rows, before, WithKey(en, agg, rows[..n], k), KeyOf(en, agg, rows[n]) == k);
      forall q: nat ensures q in idx <==> q < |rows| && KeyOf(en, agg, rows[q]) == k {
        assert q < n ==> rows[..n][q] == rows[q];
      }
    }
  }

  /** The groups, the first row of each, and one output row for each group. */
  ghost predicate Answers(en: Ops, agg: Aggregate, schema: Schema, rows: seq<RowMap>, out: Chunk)
    requires |schema| == |agg.groupBy| + |agg.aggs|
  {
    exists keys, groups :: GroupsInto(en, agg, rows, keys, groups) && GroupsShow(en, agg, schema, groups, out)
  }

  ghost predicate GroupsInto(en: Ops, agg: Aggregate, rows: seq<RowMap>, keys: seq<Str>, groups: seq<seq<RowMap>>) {
    && GroupKeys(en, agg, rows, keys)
    && |groups| == |keys| && forall g :: 0 <= g < |groups| ==> GroupOf(en, agg, rows, keys[g], groups[g])
  }

  ghost predicate GroupsShow(en: Ops, agg: Aggregate, schema: Schema, groups: seq<seq<RowMap>>, out: Chunk)
    requires |schema| == |agg.groupBy| + |agg.aggs|
  {
    |out| == |groups| && forall g :: 0 <= g < |groups| ==> GroupShows(en, agg, schema, groups[g], out[g])
  }

  /** Group g is the first with a value that its column cannot be made to hold, and i is the first such column. */
  ghost predicate GroupsFail(en: Ops, agg: Aggregate, schema: Schema, groups: seq<seq<RowMap>>, g: nat, i: nat)
    requires |schema| == |agg.groupBy| + |agg.aggs|
  {
    && g < |groups|
    && (forall h, k :: 0 <= h < g && 0 <= k < |schema| ==> GroupFits(en, agg, schema, groups[h], k))
    && GroupFails(en, agg, schema, groups[g], i)
  }

  ghost predicate AnswerFails(en: Ops, agg: Aggregate, schema: Schema, rows: seq<RowMap>, error: AggError)
    requires |schema| == |agg.groupBy| + |agg.aggs|
  {
    exists keys, groups, g: nat :: GroupsInto(en, agg, rows, keys, groups) && GroupsFail(en, agg, schema, groups, g, error.column)
  }

  lemma {:induction false} StoreRowMeans(fp: FloatOps, schema: Schema, vals: seq<Value>)
    requires |vals| == |schema|
    ensures var r := StoreRow(fp, schema, vals);
      && (r.Rows? ==> forall i :: 0 <= i < |vals| ==> Stores(fp, schema[i].typ, vals[i], r.rows[0][i]))
      && (r.Failed? ==>
           && r.error.column < |vals| && !Storable(schema[r.error.column].typ, vals[r.error.column])
           && forall k :: 0 <= k < r.error.column ==> Storable(schema[k].typ, vals[k]))
  {
    hide Coerce, Accepts, Kept, Shows, Storable;
    if vals != [] {
      var n := |vals| - 1;
      StoreRowMeans(fp, schema[..n], vals[..n]);
      CoerceStores(fp, schema[n].typ, vals[n]);
      var r := StoreRow(fp, schema[..n], vals[..n]);
      forall k | 0 <= k < n && (r.Failed? ==> k < r.error.column) ensures Storable(schema[k].typ, vals[k]) {
        assert schema[..n][k] == schema[k] && vals[..n][k] == vals[k];
      }
    }
  }

  /** The values of a group are those its rows give it. */
  lemma GroupValuesMean(en: Ops, agg: Aggregate, rows: seq<RowMap>, i: nat)
    requires i < |agg.groupBy| + |agg.aggs|
    ensures GroupHas(en, agg, rows, i, GroupValues(en, agg, UpdatedBy(en, agg, rows), if rows == [] then map[] else rows[0])[i])
  {
    hide Eval, ArgsFrom, AggIs, UpdatedBy, FinalValue;
    if i >= |agg.groupBy| {
      var j := i - |agg.groupBy|;
      AccumulatorMeans(en, agg, rows, j);
      ArgsMean(en, agg.aggs[j], rows);
      AggregateMeans(en.fp, agg.aggs[j].fn, ArgsOf(en, agg.aggs[j], rows));
    }
  }

  lemma GroupRowMeans(en: Ops, agg: Aggregate, schema: Schema, rows: seq<RowMap>)
    requires |schema| == |agg.groupBy| + |agg.aggs|
    ensures var r := StoreRow(en.fp, schema, GroupValues(en, agg, UpdatedBy(en, agg, rows), if rows == [] then map[] else rows[0]));
      && (r.Rows? ==> GroupShows(en, agg, schema, rows, r.rows[0]))
      && (r.Failed? ==> GroupFails(en, agg, schema, rows, r.error.column))
  {
    hide GroupValues, GroupHas, UpdatedBy, StoreRow, Stores, Storable;
    var vals := GroupValues(en, agg, UpdatedBy(en, agg, rows), if rows == [] then map[] else rows[0]);
    StoreRowMeans(en.fp, schema, vals);
    forall i | 0 <= i < |schema| ensures GroupHas(en, agg, rows, i, vals[i]) { GroupValuesMean(en, agg, rows, i); }
    forall k | 0 <= k < |schema| && Storable(schema[k].typ, vals[k]) ensures GroupFits(en, agg, schema, rows, k) {
      assert GroupHas(en, agg, rows, k, vals[k]);
    }
  }

  /** A group that is shown fits in every column. */
  lemma ShownFits(en: Ops, agg: Aggregate, schema: Schema, rows: seq<RowMap>, cells: Cells, i: nat)
    requires i < |schema| == |agg.groupBy| + |agg.aggs| && GroupShows(en, agg, schema, rows, cells)
    ensures GroupFits(en, agg, schema, rows, i)
  {
    hide GroupHas, Shows;
    assert GroupCell(en, agg, schema, rows, i, cells[i]);
    var v :| GroupHas(en, agg, rows, i, v) && Stores(en.fp, schema[i].typ, v, cells[i]);
  }

  /** The group a key has in the end, whether it has rows or not. */
  lemma ClosedMeans(en: Ops, agg: Aggregate, rows: seq<RowMap>)
    ensures var g := Closed(agg, AddRows(en, agg, rows));
      && GroupKeys(en, agg, rows, g.order)
      && forall k :: k in g.order ==>
           var mine := WithKey(en, agg, rows, k);
           k in g.accs && g.accs[k] == UpdatedBy(en, agg, mine) && g.rows[k] == if mine == [] then map[] else mine[0]
  {
    hide AddRow, KeyOf, UpdateAll, ArgValues, NewAccumulators, FirstAt;
    OrderMeans(en, agg, rows);
    var g := AddRows(en, agg, rows);
    forall k | k in g.order
      ensures var mine := WithKey(en, agg, rows, k);
        mine != [] && k in g.accs && g.accs[k] == UpdatedBy(en, agg, mine) && g.rows[k] == mine[0]
    {
      GroupsMean(en, agg, rows, k);
    }
    if rows != [] {
      assert KeyOf(en, agg, rows[0]) in g.order;
    }
  }

  function Parts(en: Ops, agg: Aggregate, rows: seq<RowMap>, keys: seq<Str>): (r: seq<seq<RowMap>>)
    ensures |r| == |keys| && forall i :: 0 <= i < |keys| ==> r[i] == WithKey(en, agg, rows, keys[i])
  {
    seq(|keys|, i requires 0 <= i < |keys| => WithKey(en, agg, rows, keys[i]))
  }

  ghost predicate Collected(en: Ops, agg: Aggregate, rows: seq<RowMap>, g: Groups, order: seq<Str>) {
    forall i {:trigger order[i]} :: 0 <= i < |order| ==>
      var mine := WithKey(en, agg, rows, order[i]);
      order[i] in g.accs && order[i] in g.rows && g.accs[order[i]] == UpdatedBy(en, agg, mine)
        && g.rows[order[i]] == if mine == [] then map[] else mine[0]
  }

  lemma {:induction false} OutputMeans(en: Ops, agg: Aggregate, schema: Schema, rows: seq<RowMap>, g: Groups, order: seq<Str>) returns (at: nat)
    requires Wf(agg, g) && |schema| == |agg.groupBy| + |agg.aggs| && Collected(en, agg, rows, g, order)
    ensures var r, groups := OutputRows(en, agg, schema, g, order), Parts(en, agg, rows, order);
      && (r.Rows? ==> GroupsShow(en, agg, schema, groups, r.rows))
      && (r.Failed? ==> GroupsFail(en, agg, schema, groups, at, r.error.column))
  {
    hide GroupShows, GroupFails, GroupFits, StoreRow, GroupValues, WithKey, UpdatedBy, Wf;
    at := 0;
    if order != [] {
      var n := |order| - 1;
      var groups, before := Parts(en, agg, rows, order), Parts(en, agg, rows, order[..n]);
      assert forall h :: 0 <= h < n ==> groups[h] == before[h];
      assert forall h :: 0 <= h < n ==> order[..n][h] == order[h];
      at := OutputMeans(en, agg, schema, rows, g, order[..n]);
      var r := OutputRows(en, agg, schema, g, order[..n]);
      if r.Rows? {
        assert order[n] in g.accs && g.accs[order[n]] == UpdatedBy(en, agg, groups[n]);
        GroupRowMeans(en, agg, schema, groups[n]);
        at := n;
        forall h, k | 0 <= h < n && 0 <= k < |schema| ensures GroupFits(en, agg, schema, groups[h], k) {
          ShownFits(en, agg, schema, before[h], r.rows[h], k);
        }
      }
    }
  }

  /** What aggregation returns: the groups of the rows, in the order their first rows come in, each with its
      GROUP BY values and its aggregates; or the first group and column that cannot be stored. */
  lemma GroupedAnswerMeans(en: Ops, agg: Aggregate, schema: Schema, rows: seq<RowMap>)
    requires |schema| == |agg.groupBy| + |agg.aggs|
    ensures var r := GroupedAnswer(en, agg, schema, rows);
      && (r.Rows? ==> Answers(en, agg, schema, rows, r.rows))
      && (r.Failed? ==> AnswerFails(en, agg, schema, rows, r.error))
  {
    hide GroupsShow, GroupsFail, GroupKeys, AddRows, Closed, OutputRows, WithKey, UpdatedBy, GroupOf;
    var g := Closed(agg, AddRows(en, agg, rows));
    ClosedMeans(en, agg, rows);
    var at := OutputMeans(en, agg, schema, rows, g, g.order);
    var groups := Parts(en, agg, rows, g.order);
    forall i | 0 <= i < |groups| ensures GroupOf(en, agg, rows, g.order[i], groups[i]) { WithKeyMeans(en, agg, rows, g.order[i]); }
    assert GroupsInto(en, agg, rows, g.order, groups);
  }

  lemma NoneOfNone(en: Ops, agg: Aggregate, k: Str, mine: seq<RowMap>)
    requires GroupOf(en, agg, [], k, mine)
    ensures mine == []
  {
    var none: seq<RowMap> := [];
    var idx :| PicksAt(none, idx, mine) && GroupAt(en, agg, none, k, idx);
    PlacesBound(idx, 0);
  }

  lemma NoArgs(en: Ops, agg: AggExpr, args: seq<Value>)
    requires ArgsFrom(en, agg, [], args)
    ensures args == []
  {
    var none: seq<RowMap> := [];
    if agg.arg.Some? {
      var idx :| ArgsAt(en, agg.arg.value, none, idx, args);
      PlacesBound(idx, 0);
    }
  }

  /** Over no rows the answer is one row, with GROUP BY or without: COUNT is 0, every other aggregate NULL, and so
      is every GROUP BY column. */
  lemma NoRowsOneGroup(en: Ops, agg: Aggregate, schema: Schema, out: Chunk, i: nat)
    requires |schema| == |agg.groupBy| + |agg.aggs| && Answers(en, agg, schema, [], out) && i < |schema|
    ensures |out| == 1 && |out[0]| == |schema|
    ensures i < |agg.groupBy| && (agg.groupBy[i].ColumnExpr? || agg.groupBy[i].ResolvedColumnExpr?) ==> out[0][i] == NewNull
    ensures i >= |agg.groupBy| ==>
      if agg.aggs[i - |agg.groupBy|].fn.AggCount? then Stores(en.fp, schema[i].typ, NewInt64(0), out[0][i])
      else out[0][i] == NewNull
  {
    hide WeakOrder, Beats, GroupOf, ArgsFrom;
    var keys, groups :| GroupsInto(en, agg, [], keys, groups) && GroupsShow(en, agg, schema, groups, out);
    var none: seq<RowMap> := [];
    assert GroupOf(en, agg, [], keys[0], groups[0]);
    NoneOfNone(en, agg, keys[0], groups[0]);
    assert GroupShows(en, agg, schema, none, out[0]) && GroupCell(en, agg, schema, none, i, out[0][i]);
    var v :| GroupHas(en, agg, none, i, v) && Stores(en.fp, schema[i].typ, v, out[0][i]);
    if i >= |agg.groupBy| {
      var a := agg.aggs[i - |agg.groupBy|];
      var args :| ArgsFrom(en, a, none, args) && AggIs(en.fp, a.fn, args, v);
      NoArgs(en, a, args);
    }
  }

  lemma WithKeyMeans(en: Ops, agg: Aggregate, rows: seq<RowMap>, k: Str)
    ensures GroupOf(en, agg, rows, k, WithKey(en, agg, rows, k))
  {
    hide PicksAt, GroupAt, WithKey;
    var idx := WithKeyIndexes(en, agg, rows, k);
  }

  method ExecuteAggregate(en: Ops, agg: Aggregate, inSchema: Schema, outSchema: Schema, chunks: seq<Chunk>) returns (out: Output)
    requires AllShaped(chunks, inSchema) && |outSchema| == |agg.groupBy| + |agg.aggs|
    ensures out == Aggregated(en, agg, inSchema, outSchema, chunks)
    ensures out.Rows? ==> Answers(en, agg, outSchema, AllRowMaps(inSchema, chunks), out.rows)
    ensures out.Failed? ==> AnswerFails(en, agg, outSchema, AllRowMaps(inSchema, chunks), out.error)
  {
    hide OutputRows, SameGroups, Answers, AnswerFails, AllRowMaps, AddRows, Closed;
    GroupedAnswerMeans(en, agg, outSchema, AllRowMaps(inSchema, chunks));
    var g := AggregateRows(en, agg, inSchema, chunks);
    out := BuildOutput(en, agg, outSchema, g, Grouped(en, agg, inSchema, chunks));
  }

  // ----- which columns matter -----

  function AggRefs(agg: Aggregate): set<Str> {
    RefsOfAll(agg.groupBy) + ArgRefs(agg.aggs)
  }

  function ArgRefs(aggs: seq<AggExpr>): set<Str> {
    if aggs == [] then {}
    else ArgRefs(aggs[..|aggs| - 1]) + if aggs[|aggs| - 1].arg.None? then {} else Refs(aggs[|aggs| - 1].arg.value)
  }

  lemma {:induction false} ArgRefsMember(aggs: seq<AggExpr>, i: nat)
    requires i < |aggs| && aggs[i].arg.Some?
    ensures Refs(aggs[i].arg.value) <= ArgRefs(aggs)
  {
    if i < |aggs| - 1 { ArgRefsMember(aggs[..|aggs| - 1], i); }
  }

  lemma GroupNamesAreRefs(agg: Aggregate)
    ensures GroupNames(agg) <= AggRefs(agg)
  {
  }

  lemma RowSeesRefs(en: Ops, agg: Aggregate, row: RowMap, row': RowMap)
    requires AgreeOn(AggRefs(agg), row, row')
    ensures GroupKey(en, agg.groupBy, row) == GroupKey(en, agg.groupBy, row')
    ensures ArgValues(en, agg.aggs, row) == ArgValues(en, agg.aggs, row')
  {
    hide Eval, KeyText, Joined;
    forall i | 0 <= i < |agg.groupBy| ensures GroupTexts(en, agg.groupBy, row)[i] == GroupTexts(en, agg.groupBy, row')[i] {
      RefsCover(agg.groupBy, row, row', i);
      EvalSeesRefs(en, agg.groupBy[i], row, row');
    }
    assert GroupTexts(en, agg.groupBy, row) == GroupTexts(en, agg.groupBy, row');
    forall i | 0 <= i < |agg.aggs| ensures ArgValues(en, agg.aggs, row)[i] == ArgValues(en, agg.aggs, row')[i] {
      if agg.aggs[i].arg.Some? {
        ArgRefsMember(agg.aggs, i);
        EvalSeesRefs(en, agg.aggs[i].arg.value, row, row');
      }
    }
  }

  /** Rows that agree on the referenced columns form the same groups. */
  lemma {:induction false} GroupsSeeRefs(en: Ops, agg: Aggregate, rows: seq<RowMap>, rows': seq<RowMap>)
    requires |rows| == |rows'|
    requires forall i :: 0 <= i < |rows| ==> AgreeOn(AggRefs(agg), rows[i], rows'[i])
    ensures SameGroups(agg, AddRows(en, agg, rows), AddRows(en, agg, rows'))
  {
    hide AgreeOn, GroupKey, ArgValues, UpdateAll, NewAccumulators, AggRefs, GroupNames;
    if rows != [] {
      var n := |rows| - 1;
      GroupsSeeRefs(en, agg, rows[..n], rows'[..n]);
      RowSeesRefs(en, agg, rows[n], rows'[n]);
      GroupNamesAreRefs(agg);
      AgreeOnFewer(AggRefs(agg), GroupNames(agg), rows[n], rows'[n]);
    }
  }

  lemma AgreeOnFewer(more: set<Str>, fewer: set<Str>, row: RowMap, row': RowMap)
    requires AgreeOn(more, row, row') && fewer <= more
    ensures AgreeOn(fewer, row, row')
  {
  }

  /** Chunks of the same shape whose rows agree on the columns. */
  ghost predicate ChunksAgree(cols: set<Str>, s: Schema, chunks: seq<Chunk>, s': Schema, chunks': seq<Chunk>) {
    && AllShaped(chunks, s) && AllShaped(chunks', s') && |chunks| == |chunks'|
    && forall i :: 0 <= i < |chunks| ==> RowsAgree(cols, s, chunks[i], s', chunks'[i])
  }

  ghost predicate RowsAgree(cols: set<Str>, s: Schema, chunk: Chunk, s': Schema, chunk': Chunk) {
    && Shaped(chunk, s) && Shaped(chunk', s') && |chunk| == |chunk'|
    && forall j :: 0 <= j < |chunk| ==> AgreeOn(cols, RowValues(s, chunk[j]), RowValues(s', chunk'[j]))
  }

  lemma {:induction false} RowMapsAgree(cols: set<Str>, s: Schema, chunks: seq<Chunk>, s': Schema, chunks': seq<Chunk>)
    requires ChunksAgree(cols, s, chunks, s', chunks')
    ensures |AllRowMaps(s, chunks)| == |AllRowMaps(s', chunks')|
    ensures forall i :: 0 <= i < |AllRowMaps(s, chunks)| ==> AgreeOn(cols, AllRowMaps(s, chunks)[i], AllRowMaps(s', chunks')[i])
  {
    hide AgreeOn, RowValues;
    if chunks != [] {
      var n := |chunks| - 1;
      RowMapsAgree(cols, s, chunks[..n], s', chunks'[..n]);
      assert RowsAgree(cols, s, chunks[n], s', chunks'[n]);
    }
  }

  /** What aggregation returns depends only on the columns its expressions reference. */
  lemma GroupedAnswerSeesRefs(en: Ops, agg: Aggregate, schema: Schema, rows: seq<RowMap>, rows': seq<RowMap>)
    requires |schema| == |agg.groupBy| + |agg.aggs| && |rows| == |rows'|
    requires forall i :: 0 <= i < |rows| ==> AgreeOn(AggRefs(agg), rows[i], rows'[i])
    ensures GroupedAnswer(en, agg, schema, rows) == GroupedAnswer(en, agg, schema, rows')
  {
    hide AgreeOn, AddRows, SameGroups, OutputRows, Closed;
    GroupsSeeRefs(en, agg, rows, rows');
    ClosedSame(agg, AddRows(en, agg, rows), AddRows(en, agg, rows'));
    var g, h := Closed(agg, AddRows(en, agg, rows)), Closed(agg, AddRows(en, agg, rows'));
    SameOrder(agg, g, h);
    SameGroupsSameOutput(en, agg, schema, g, h, g.order);
  }

  lemma AggregatedSeesRefs(en: Ops, agg: Aggregate, out: Schema, s: Schema, chunks: seq<Chunk>, s': Schema, chunks': seq<Chunk>)
    requires |out| == |agg.groupBy| + |agg.aggs|
    requires ChunksAgree(AggRefs(agg), s, chunks, s', chunks')
    ensures Aggregated(en, agg, s, out, chunks) == Aggregated(en, agg, s', out, chunks')
  {
    hide AgreeOn, AllRowMaps, GroupedAnswer;
    RowMapsAgree(AggRefs(agg), s, chunks, s', chunks');
    GroupedAnswerSeesRefs(en, agg, out, AllRowMaps(s, chunks), AllRowMaps(s', chunks'));
  }

  lemma SameOrder(agg: Aggregate, g: Groups, h: Groups)
    requires SameGroups(agg, g, h)
    ensures g.order == h.order
  {
  }
}
