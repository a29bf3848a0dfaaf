/** Predicate pushdown and constant folding on plans. */
module PlanRules {
  import opened Keys
  import opened SortedEntries
  import opened Values
  import opened Expressions
  import opened Folding
  import opened Chunks
  import opened Aggregation
  import opened Limits
  import opened Plans
  import opened StoredValues

  // ----- predicate pushdown -----

  function NonFilters(p: Plan): nat {
    match p
    case Filter(c, _) => NonFilters(c)
    case Project(c, _, _) => 1 + NonFilters(c)
    case Aggregating(c, _, _) => 1 + NonFilters(c)
    case Limit(c, _, _) => 1 + NonFilters(c)
    case _ => 1
  }

  function LeadingFilters(p: Plan): nat {
    if p.Filter? then 1 + LeadingFilters(p.child) else 0
  }

  predicate HasColumn(schema: Schema, c: Str) {
    exists i :: 0 <= i < |schema| && schema[i].name == c
  }

  predicate CanPush(cond: Expression, schema: Schema) {
    forall c :: c in Refs(cond) ==> HasColumn(schema, c)
  }

  /** The conjuncts none of whose columns is an output column of the aggregate. */
  function Below(conjuncts: seq<Expression>, aggCols: set<Str>): seq<Expression> {
    if conjuncts == [] then []
    else
      var n := |conjuncts| - 1;
      Below(conjuncts[..n], aggCols) + if Refs(conjuncts[n]) !! aggCols then [conjuncts[n]] else []
  }

  function Above(conjuncts: seq<Expression>, aggCols: set<Str>): seq<Expression> {
    if conjuncts == [] then []
    else
      var n := |conjuncts| - 1;
      Above(conjuncts[..n], aggCols) + if Refs(conjuncts[n]) !! aggCols then [] else [conjuncts[n]]
  }

  /** The column-by-column search over the schema. */
  method CanPushThroughProject(cond: Expression, schema: Schema) returns (canPush: bool)
    ensures canPush == CanPush(cond, schema)
  {
    var cols := Refs(cond);
    while cols != {}
      invariant cols <= Refs(cond)
      invariant forall c :: c in Refs(cond) - cols ==> HasColumn(schema, c)
      decreases |cols|
    {
      var c :| c in cols;
      var found := false;
      for i := 0 to |schema|
        invariant forall j :: 0 <= j < i ==> schema[j].name != c
      {
        if schema[i].name == c {
          found := true;
          break;
        }
      }
      if !found {
        return false;
      }
      cols := cols - {c};
    }
    return true;
  }

  method SplitPredicateByAggregate(cond: Expression, aggCols: set<Str>) returns (pushable: Option<Expression>, remaining: Option<Expression>)
    ensures pushable == Merge(Below(SplitConjuncts(cond), aggCols))
    ensures remaining == Merge(Above(SplitConjuncts(cond), aggCols))
  {
    var conjuncts := SplitConjuncts(cond);
    var push: seq<Expression>, remain: seq<Expression> := [], [];
    for i := 0 to |conjuncts|
      invariant push == Below(conjuncts[..i], aggCols) && remain == Above(conjuncts[..i], aggCols)
    {
      assert conjuncts[..i + 1][..i] == conjuncts[..i];
      if Refs(conjuncts[i]) !! aggCols {
        push := push + [conjuncts[i]];
      } else {
        remain := remain + [conjuncts[i]];
      }
    }
    assert conjuncts[..|conjuncts|] == conjuncts;
    pushable := MergeConjuncts(push);
    remaining := MergeConjuncts(remain);
  }

  type AggColumns = Aggregate -> set<Str>

  function PushDown(ac: AggColumns, p: Plan): (r: Plan)
    ensures NonFilters(r) == NonFilters(p) && LeadingFilters(r) <= LeadingFilters(p)
    decreases NonFilters(p), LeadingFilters(p), 1
  {
    match p
    case Filter(c, cond) => PushFilterDown(ac, c, cond)
    case Project(c, exprs, schema) => Project(PushDown(ac, c), exprs, schema)
    case Aggregating(c, agg, schema) => Aggregating(PushDown(ac, c), agg, schema)
    case Limit(c, offset, count) => Limit(PushDown(ac, c), offset, count)
    case _ => p
  }

  function PushFilterDown(ac: AggColumns, child: Plan, cond: Expression): (r: Plan)
    ensures NonFilters(r) == NonFilters(child) && LeadingFilters(r) <= LeadingFilters(child) + 1
    decreases NonFilters(child), LeadingFilters(child) + 1, 0
  {
    var c := PushDown(ac, child);
    match c
    case Scan(table, columns, pred, schema) =>
      Scan(table, columns, Some(if pred.None? then cond else BinaryExpr(OpAnd, pred.value, cond)), schema)
    case Filter(inner, cond') => PushFilterDown(ac, inner, BinaryExpr(OpAnd, cond, cond'))
    case Project(inner, exprs, schema) =>
      if CanPush(cond, SchemaOf(inner)) then Project(Filter(PushDown(ac, inner), cond), exprs, schema)
      else Filter(c, cond)
    case Aggregating(inner, agg, schema) =>
      var pushable := Merge(Below(SplitConjuncts(cond), ac(agg)));
      var remaining := Merge(Above(SplitConjuncts(cond), ac(agg)));
      var c' := if pushable.Some? then Aggregating(Filter(PushDown(ac, inner), pushable.value), agg, schema) else c;
      assert NonFilters(c') == NonFilters(c);
      if remaining.Some? then Filter(c', remaining.value) else c'
    case _ => Filter(c, cond)
  }

  /** Plans whose filters stand on a scan that already has the same predicate and delivers its
      columns: the only filters the analyzer builds. */
  ghost predicate FiltersOnScans(p: Plan) {
    match p
    case NoPlan => true
    case Scan(_, _, _, _) => true
    case Filter(c, cond) => c.Scan? && c.pred == Some(cond) && CanPush(cond, c.schema)
    case Project(c, _, _) => FiltersOnScans(c)
    case Aggregating(c, _, _) => FiltersOnScans(c)
    case Limit(c, _, _) => FiltersOnScans(c)
  }

  ghost predicate NoFilters(p: Plan) {
    match p
    case NoPlan => true
    case Scan(_, _, _, _) => true
    case Filter(_, _) => false
    case _ => NoFilters(p.child)
  }

  /** The stored values the condition looks at survive the scan; if it reads their text, LIKE depends on
      text only. */
  ghost predicate ReadsAlike(db: Database, table: Str, schema: Schema, cond: Expression) {
    && (HasLike(cond) ==> LikeReadsText(db.en))
    && forall i, q :: 0 <= i < |schema| && schema[i].name in Refs(cond) && 0 <= q < |Entries(db, table)| ==>
         Survives(db.en.fp, schema[i], Entries(db, table)[q], HasLike(cond))
  }

  /** The values the filters of a plan look at survive its scans. */
  ghost predicate FiltersReadAlike(db: Database, p: Plan) {
    match p
    case NoPlan => true
    case Scan(_, _, _, _) => true
    case Filter(c, cond) => c.Scan? ==> ReadsAlike(db, c.table, c.schema, cond)
    case _ => FiltersReadAlike(db, p.child)
  }

  ghost predicate RowReadsAlike(fp: FloatOps, schema: Schema, cols: set<Str>, row: RowMap, text: bool) {
    forall i :: 0 <= i < |schema| && schema[i].name in cols ==> Survives(fp, schema[i], row, text)
  }

  /** A filled row reads like the stored row on the scanned columns. */
  lemma FilledRowReads(fp: FloatOps, schema: Schema, row: RowMap, cols: set<Str>, text: bool)
    requires RowReadsAlike(fp, schema, cols, row, text) && forall c :: c in cols ==> HasColumn(schema, c)
    ensures SameOn(cols, row, RowValues(schema, FillRow(fp, schema, row)), text)
  {
    var cells := FillRow(fp, schema, row);
    hide RowValues, ColIndex, FillCell, SameValue;
    forall c | c in cols ensures SameValue(ValueIn(row, c), ValueIn(RowValues(schema, cells), c), text) {
      RowValuesByIndex(schema, cells, c);
      assert HasColumn(schema, c);
      var i := ColIndex(schema, c).value;
      assert schema[i].name == c && Survives(fp, schema[i], row, text);
    }
  }

  lemma PassesSeesRefs(en: Ops, cond: Expression, row: RowMap, row': RowMap)
    requires AgreeOn(Refs(cond), row, row')
    ensures Passes(en, cond, row) == Passes(en, cond, row')
  {
    EvalSeesRefs(en, cond, row, row');
  }

  lemma {:induction false} SelectedPass(en: Ops, cond: Expression, rows: seq<RowMap>)
    ensures forall i :: 0 <= i < |Selected(en, cond, rows)| ==>
      Selected(en, cond, rows)[i] in rows && Passes(en, cond, Selected(en, cond, rows)[i])
  {
    hide Passes;
    if rows != [] { SelectedPass(en, cond, rows[1..]); }
  }

  /** The predicate a scan gets back from its own filter selects the same rows. */
  lemma {:induction false} SelectedTwice(en: Ops, cond: Expression, rows: seq<RowMap>)
    ensures Selected(en, BinaryExpr(OpAnd, cond, cond), rows) == Selected(en, cond, rows)
  {
    if rows != [] {
      SelectedTwice(en, cond, rows[1..]);
      AndPasses(en, cond, cond, rows[0]);
    }
  }

  lemma AndPasses(en: Ops, a: Expression, b: Expression, row: RowMap)
    ensures Passes(en, BinaryExpr(OpAnd, a, b), row) <==> Passes(en, a, row) && Passes(en, b, row)
  {
    hide CompareValues, EvalArithmetic;
  }

  lemma {:induction false} FilterKeepsAll(en: Ops, cond: Expression, schema: Schema, chunk: Chunk)
    requires Shaped(chunk, schema)
    requires forall i :: 0 <= i < |chunk| ==> Passes(en, cond, RowValues(schema, chunk[i]))
    ensures FilterRows(en, cond, schema, chunk) == chunk
  {
    hide Passes, RowValues;
    if chunk != [] { FilterKeepsAll(en, cond, schema, chunk[1..]); }
  }

  lemma {:induction false} FilterKeepsChunks(en: Ops, cond: Expression, schema: Schema, rows: seq<RowMap>)
    requires CanPush(cond, schema) && (HasLike(cond) ==> LikeReadsText(en))
    requires forall i :: 0 <= i < |rows| ==> RowReadsAlike(en.fp, schema, Refs(cond), rows[i], HasLike(cond)) && Passes(en, cond, rows[i])
    ensures FilterChunks(en, cond, schema, BuildChunks(en.fp, schema, rows)) == BuildChunks(en.fp, schema, rows)
    decreases |rows|
  {
    hide Passes, RowReadsAlike, RowValues, FillRow, LikeReadsText, SameOn, HasLike;
    if rows != [] && schema != [] {
      var n := Min(|rows|, CHUNK_SIZE);
      var first := FillRows(en.fp, schema, rows[..n]);
      forall i | 0 <= i < n ensures Passes(en, cond, RowValues(schema, first[i])) {
        FilledRowReads(en.fp, schema, rows[i], Refs(cond), HasLike(cond));
        PassesSame(en, cond, rows[i], RowValues(schema, first[i]), HasLike(cond));
      }
      FilterKeepsAll(en, cond, schema, first);
      FilterKeepsChunks(en, cond, schema, rows[n..]);
      assert BuildChunks(en.fp, schema, rows)[1..] == BuildChunks(en.fp, schema, rows[n..]);
    }
  }

  /** Pushing the filter into its scan changes nothing. */
  lemma ScanAbsorbsFilter(db: Database, scan: Plan, cond: Expression)
    requires scan.Scan? && scan.pred == Some(cond) && CanPush(cond, scan.schema)
    requires ReadsAlike(db, scan.table, scan.schema, cond)
    ensures Exec(db, Filter(scan, cond)) == Exec(db, scan.(pred := Some(BinaryExpr(OpAnd, cond, cond))))
  {
    hide Passes, Survives, RowValues, CanPush, BuildChunks, FilterChunks, Entries, LikeReadsText, Refs, HasLike;
    var all := Entries(db, scan.table);
    forall row | row in all ensures RowReadsAlike(db.en.fp, scan.schema, Refs(cond), row, HasLike(cond)) { }
    SelectedPass(db.en, cond, all);
    SelectedTwice(db.en, cond, all);
    FilterKeepsChunks(db.en, cond, scan.schema, Selected(db.en, cond, all));
  }

  // ----- exactly when -----

  /** The filter over its scan and the scan that took it in return the same. */
  ghost predicate Absorbs(db: Database, table: Str, columns: seq<Str>, schema: Schema, cond: Expression) {
    var scan := Scan(table, columns, Some(cond), schema);
    Exec(db, Filter(scan, cond)) == Exec(db, scan.(pred := Some(BinaryExpr(OpAnd, cond, cond))))
  }

  function CountRows(chunks: seq<Chunk>): nat {
    if chunks == [] then 0 else |chunks[0]| + CountRows(chunks[1..])
  }

  lemma {:induction false} FilterDropsRow(en: Ops, cond: Expression, schema: Schema, chunk: Chunk, i: nat)
    requires Shaped(chunk, schema) && i < |chunk| && !Passes(en, cond, RowValues(schema, chunk[i]))
    ensures |FilterRows(en, cond, schema, chunk)| < |chunk|
  {
    hide Passes, RowValues;
    if i > 0 { FilterDropsRow(en, cond, schema, chunk[1..], i - 1); } else { FilterNoMore(en, cond, schema, chunk[1..]); }
  }

  lemma {:induction false} FilterNoMore(en: Ops, cond: Expression, schema: Schema, chunk: Chunk)
    requires Shaped(chunk, schema)
    ensures |FilterRows(en, cond, schema, chunk)| <= |chunk|
  {
    hide Passes, RowValues;
    if chunk != [] { FilterNoMore(en, cond, schema, chunk[1..]); }
  }

  lemma {:induction false} FilterChunksNoMore(en: Ops, cond: Expression, schema: Schema, chunks: seq<Chunk>)
    requires AllShaped(chunks, schema)
    ensures CountRows(FilterChunks(en, cond, schema, chunks)) <= CountRows(chunks)
  {
    hide FilterRows;
    if chunks != [] {
      FilterNoMore(en, cond, schema, chunks[0]);
      FilterChunksNoMore(en, cond, schema, chunks[1..]);
      FirstKept(en, cond, schema, chunks);
    }
  }

  lemma FirstKept(en: Ops, cond: Expression, schema: Schema, chunks: seq<Chunk>)
    requires AllShaped(chunks, schema) && chunks != []
    ensures CountRows(FilterChunks(en, cond, schema, chunks)) ==
      |FilterRows(en, cond, schema, chunks[0])| + CountRows(FilterChunks(en, cond, schema, chunks[1..]))
  {
    hide FilterRows;
    var kept, rest := FilterRows(en, cond, schema, chunks[0]), FilterChunks(en, cond, schema, chunks[1..]);
    if kept != [] {
      assert ([kept] + rest)[1..] == rest;
    } else {
      assert [] + rest == rest;
    }
  }

  /** A stored row that the filter drops once scanned makes the chunks shorter. */
  lemma {:induction false} FilterDropsChunks(en: Ops, cond: Expression, schema: Schema, rows: seq<RowMap>, i: nat)
    requires schema != [] && i < |rows| && !Passes(en, cond, RowValues(schema, FillRow(en.fp, schema, rows[i])))
    ensures var chunks := BuildChunks(en.fp, schema, rows); CountRows(FilterChunks(en, cond, schema, chunks)) < CountRows(chunks)
    decreases |rows|
  {
    hide Passes, RowValues, FillRow, FilterRows, FilterChunks;
    var n := Min(|rows|, CHUNK_SIZE);
    var first, rest := FillRows(en.fp, schema, rows[..n]), BuildChunks(en.fp, schema, rows[n..]);
    var chunks := BuildChunks(en.fp, schema, rows);
    assert chunks[0] == first && chunks[1..] == rest;
    FirstKept(en, cond, schema, chunks);
    if i < n {
      FilterDropsRow(en, cond, schema, first, i);
      FilterChunksNoMore(en, cond, schema, rest);
    } else {
      FilterDropsChunks(en, cond, schema, rows[n..], i - n);
      FilterNoMore(en, cond, schema, first);
    }
  }

  lemma {:induction false} SelectedHas(en: Ops, cond: Expression, rows: seq<RowMap>, q: nat) returns (s: nat)
    requires q < |rows| && Passes(en, cond, rows[q])
    ensures s < |Selected(en, cond, rows)| && Selected(en, cond, rows)[s] == rows[q]
  {
    hide Passes;
    if q == 0 {
      s := 0;
    } else {
      s := SelectedHas(en, cond, rows[1..], q - 1);
      if Passes(en, cond, rows[0]) { s := s + 1; }
    }
  }

  lemma AcceptedInRow(en: Ops, cond: Expression, name: Str, row: RowMap)
    requires Refs(cond) == {name}
    ensures Passes(en, cond, row) == Accepted(en, cond, name, ValueIn(row, name))
  {
    PassesSeesRefs(en, cond, row, map[name := ValueIn(row, name)]);
  }

  lemma FillSeesColumn(fp: FloatOps, col: ColumnDef, row: RowMap)
    requires col.name in row
    ensures FillCell(fp, col, row) == FillCell(fp, col, map[col.name := row[col.name]])
  {
  }

  lemma FilledValue(fp: FloatOps, schema: Schema, row: RowMap, i: nat)
    requires i < |schema| && forall j, k :: 0 <= j < k < |schema| ==> schema[j].name != schema[k].name
    ensures ValueIn(RowValues(schema, FillRow(fp, schema, row)), schema[i].name) == FillCell(fp, schema[i], row)
  {
    hide FillCell, RowValues;
    RowValuesByIndex(schema, FillRow(fp, schema, row), schema[i].name);
  }

  /** A value that does not survive its scan: some predicate on its column accepts the stored row
      and rejects the scanned one. */
  lemma LostValueTells(en: Ops, schema: Schema, row: RowMap, i: nat, text: bool) returns (cond: Expression)
    requires OrdinaryOps(en) && i < |schema| && !Survives(en.fp, schema[i], row, text)
    requires forall j, k :: 0 <= j < k < |schema| ==> schema[j].name != schema[k].name
    ensures CanPush(cond, schema) && (HasLike(cond) ==> text)
    ensures Passes(en, cond, row) && !Passes(en, cond, RowValues(schema, FillRow(en.fp, schema, row)))
  {
    var name := schema[i].name;
    assert name in row;
    var v, w := row[name], FillCell(en.fp, schema[i], row);
    FillSeesColumn(en.fp, schema[i], row);
    assert !Survives(en.fp, schema[i], map[name := v], text);
    cond := Telling(ColumnExpr(name), v, w);
    TellingTells(en, schema[i], v, text);
    TellingRefs(name, v, w);
    assert CanPush(cond, schema);
    AcceptedInRow(en, cond, name, row);
    FilledValue(en.fp, schema, row, i);
    AcceptedInRow(en, cond, name, RowValues(schema, FillRow(en.fp, schema, row)));
    hide Survives, FillCell, OrdinaryOps, Passes, Telling, SameValue, RowValues, FillRow, Refs;
  }

  lemma DroppedRowShows(db: Database, table: Str, columns: seq<Str>, schema: Schema, cond: Expression, q: nat)
    requires schema != [] && q < |Entries(db, table)| && Passes(db.en, cond, Entries(db, table)[q])
    requires !Passes(db.en, cond, RowValues(schema, FillRow(db.en.fp, schema, Entries(db, table)[q])))
    ensures !Absorbs(db, table, columns, schema, cond)
  {
    hide Passes, RowValues, FillRow, Entries, Selected, FilterChunks, BuildChunks;
    SelectedTwice(db.en, cond, Entries(db, table));
    var s := SelectedHas(db.en, cond, Entries(db, table), q);
    FilterDropsChunks(db.en, cond, schema, Selected(db.en, cond, Entries(db, table)), s);
    var chunks := BuildChunks(db.en.fp, schema, Selected(db.en, cond, Entries(db, table)));
    var scan := Scan(table, columns, Some(cond), schema);
    assert Exec(db, scan) == Relation(schema, chunks);
    assert Exec(db, Filter(scan, cond)) == Relation(schema, FilterChunks(db.en, cond, schema, chunks));
    assert Exec(db, scan.(pred := Some(BinaryExpr(OpAnd, cond, cond)))) == Relation(schema, chunks);
  }

  lemma LostValueShows(db: Database, table: Str, columns: seq<Str>, schema: Schema, i: nat, q: nat, text: bool) returns (cond: Expression)
    requires OrdinaryOps(db.en) && i < |schema| && q < |Entries(db, table)|
    requires forall j, k :: 0 <= j < k < |schema| ==> schema[j].name != schema[k].name
    requires !Survives(db.en.fp, schema[i], Entries(db, table)[q], text)
    ensures CanPush(cond, schema) && (HasLike(cond) ==> text) && !Absorbs(db, table, columns, schema, cond)
  {
    hide Survives, Passes, RowValues, FillRow, Absorbs, OrdinaryOps, Entries, CanPush, HasLike;
    cond := LostValueTells(db.en, schema, Entries(db, table)[q], i, text);
    DroppedRowShows(db, table, columns, schema, cond, q);
  }

  /** The exact condition on the stored values: scans absorb every predicate over their columns, LIKE
      included or not, exactly when every stored value of those columns survives, its text included or not. */
  lemma AbsorbsIff(db: Database, table: Str, columns: seq<Str>, schema: Schema, text: bool)
    requires OrdinaryOps(db.en) && forall j, k :: 0 <= j < k < |schema| ==> schema[j].name != schema[k].name
    ensures (forall cond :: CanPush(cond, schema) && (HasLike(cond) ==> text) ==> Absorbs(db, table, columns, schema, cond))
      <==> (forall i, q :: 0 <= i < |schema| && 0 <= q < |Entries(db, table)| ==>
             Survives(db.en.fp, schema[i], Entries(db, table)[q], text))
  {
    assert LikeReadsText(db.en);
    hide CanPush, Absorbs, Survives, OrdinaryOps, Entries, LikeReadsText, HasLike;
    if i, q :| 0 <= i < |schema| && 0 <= q < |Entries(db, table)| && !Survives(db.en.fp, schema[i], Entries(db, table)[q], text) {
      var cond := LostValueShows(db, table, columns, schema, i, q, text);
    } else {
      forall cond | CanPush(cond, schema) && (HasLike(cond) ==> text) ensures Absorbs(db, table, columns, schema, cond) {
        forall i, q | 0 <= i < |schema| && 0 <= q < |Entries(db, table)|
          ensures Survives(db.en.fp, schema[i], Entries(db, table)[q], HasLike(cond))
        {
          TextSurvives(db.en.fp, schema[i], Entries(db, table)[q], text);
        }
        AbsorbedScan(db, table, columns, schema, cond);
      }
    }
  }

  lemma TextSurvives(fp: FloatOps, col: ColumnDef, row: RowMap, text: bool)
    requires Survives(fp, col, row, text)
    ensures Survives(fp, col, row, false)
  {
    hide FillCell;
  }

  lemma AbsorbedScan(db: Database, table: Str, columns: seq<Str>, schema: Schema, cond: Expression)
    requires CanPush(cond, schema) && ReadsAlike(db, table, schema, cond)
    ensures Absorbs(db, table, columns, schema, cond)
  {
    hide CanPush, ReadsAlike, Exec;
    ScanAbsorbsFilter(db, Scan(table, columns, Some(cond), schema), cond);
  }

  /** The string '2' stored in a TIMESTAMP column: WHERE t = '2' finds nothing with the filter in
      place and one row once the scan has taken it in. */
  lemma StoredStringIsFound(en: Ops, t: Str, table: Str)
    ensures var text := NewString([50]);
      var db := Database(map[table := [map[t := text]]], en);
      var schema := [ColumnDef(t, TypeTimestamp)];
      var cond := Compared(OpEq, ColumnExpr(t), text);
      var scan := Scan(table, [t], Some(cond), schema);
      && Exec(db, Filter(scan, cond)) == Relation(schema, [])
      && Exec(db, scan.(pred := Some(BinaryExpr(OpAnd, cond, cond)))) == Relation(schema, [[[NewNull]]])
  {
    var text := NewString([50]);
    var row: RowMap := map[t := text];
    var rows := [row];
    var schema := [ColumnDef(t, TypeTimestamp)];
    var cond := Compared(OpEq, ColumnExpr(t), text);
    var empty: RowMap := map[t := NewNull];
    assert Eval(en, ColumnExpr(t), row) == Ok(text) && Eval(en, LiteralExpr(text), row) == Ok(text);
    assert Eval(en, cond, row) == Ok(NewBool(true));
    assert Eval(en, cond, empty) == Ok(NewNull);
    SelectedTwice(en, cond, rows);
    assert rows[1..] == [];
    assert Selected(en, cond, rows) == rows;
    assert FillRow(en.fp, schema, row) == [NewNull];
    assert FillRows(en.fp, schema, rows[..1]) == [[NewNull]];
    assert BuildChunks(en.fp, schema, rows) == [[[NewNull]]];
    assert schema[..0] == [] && [NewNull][..0] == [];
    assert RowValues(schema, [NewNull]) == empty;
    assert FilterRows(en, cond, schema, [[NewNull]]) == [];
    assert FilterChunks(en, cond, schema, [[[NewNull]]]) == [];
  }

  lemma FilterPreserves(db: Database, ac: AggColumns, scan: Plan, cond: Expression)
    requires FiltersOnScans(Filter(scan, cond)) && FiltersReadAlike(db, Filter(scan, cond))
    ensures var r := PushDown(ac, Filter(scan, cond));
      r.Scan? && r.schema == scan.schema && Exec(db, r) == Exec(db, Filter(scan, cond))
  {
    ScanAbsorbsFilter(db, scan, cond);
    hide Exec, CanPush, FiltersReadAlike;
    assert PushDown(ac, Filter(scan, cond)) == PushFilterDown(ac, scan, cond);
    assert PushDown(ac, scan) == scan;
    assert PushFilterDown(ac, scan, cond) == scan.(pred := Some(BinaryExpr(OpAnd, cond, cond)));
  }

  /** Pushdown keeps rows, chunk boundaries, schema and errors, and leaves no filter behind. */
  lemma {:induction false} PushDownPreserves(db: Database, ac: AggColumns, p: Plan)
    requires WellFormed(p) && FiltersOnScans(p) && FiltersReadAlike(db, p)
    ensures WellFormed(PushDown(ac, p)) && SchemaOf(PushDown(ac, p)) == SchemaOf(p)
    ensures NoFilters(PushDown(ac, p))
    ensures Exec(db, PushDown(ac, p)) == Exec(db, p)
  {
    hide FiltersReadAlike, CanPush, ScanEntries, BuildChunks, FilterChunks, ProjectChunks, Aggregated, LimitChunks;
    match p {
      case Filter(c, cond) => FilterPreserves(db, ac, c, cond);
      case Project(c, _, _) =>
        ReadBelow(db, p);
        PushDownPreserves(db, ac, c);
      case Aggregating(c, _, _) =>
        ReadBelow(db, p);
        PushDownPreserves(db, ac, c);
      case Limit(c, _, _) =>
        ReadBelow(db, p);
        PushDownPreserves(db, ac, c);
      case _ =>
    }
  }

  lemma ReadBelow(db: Database, p: Plan)
    requires FiltersReadAlike(db, p) && !p.NoPlan? && !p.Scan? && !p.Filter?
    ensures FiltersReadAlike(db, p.child)
  {
  }

  // ----- constant folding -----

  function FoldNode(fp: FloatOps, p: Plan): Plan {
    match p
    case Scan(table, columns, pred, schema) =>
      Scan(table, columns, if pred.None? then None else Some(FoldExpr(fp, pred.value)), schema)
    case Filter(c, cond) => Filter(FoldNode(fp, c), FoldExpr(fp, cond))
    case Project(c, exprs, schema) => Project(FoldNode(fp, c), FoldAll(fp, exprs), schema)
    case Aggregating(c, agg, schema) => Aggregating(FoldNode(fp, c), agg, schema)
    case Limit(c, offset, count) => Limit(FoldNode(fp, c), offset, count)
    case NoPlan => NoPlan
  }

  /** No expression the rule visits has anything left to fold; aggregates are not visited. */
  ghost predicate PlanFolded(p: Plan) {
    match p
    case NoPlan => true
    case Scan(_, _, pred, _) => pred.Some? ==> NothingToFold(pred.value)
    case Filter(c, cond) => NothingToFold(cond) && PlanFolded(c)
    case Project(c, exprs, _) => NothingToFoldIn(exprs) && PlanFolded(c)
    case Aggregating(c, _, _) => PlanFolded(c)
    case Limit(c, _, _) => PlanFolded(c)
  }

  lemma {:induction false} FoldNodeFolds(fp: FloatOps, p: Plan)
    ensures PlanFolded(FoldNode(fp, p))
  {
    hide FoldExpr, FoldAll, NothingToFold, NothingToFoldIn;
    match p {
      case NoPlan =>
      case Scan(_, _, pred, _) => if pred.Some? { FoldsEverything(fp, pred.value); }
      case Filter(c, cond) =>
        FoldsEverything(fp, cond);
        FoldNodeFolds(fp, c);
      case Project(c, exprs, _) =>
        FoldsEverywhere(fp, exprs);
        FoldNodeFolds(fp, c);
      case Aggregating(c, _, _) => FoldNodeFolds(fp, c);
      case Limit(c, _, _) => FoldNodeFolds(fp, c);
    }
  }

  lemma {:induction false} SelectedFolded(en: Ops, cond: Expression, rows: seq<RowMap>)
    ensures Selected(en, FoldExpr(en.fp, cond), rows) == Selected(en, cond, rows)
  {
    hide Eval, FoldExpr;
    if rows != [] {
      FoldPreservesEval(en, cond, rows[0]);
      SelectedFolded(en, cond, rows[1..]);
    }
  }

  lemma {:induction false} FilterRowsFolded(en: Ops, cond: Expression, schema: Schema, chunk: Chunk)
    requires Shaped(chunk, schema)
    ensures FilterRows(en, FoldExpr(en.fp, cond), schema, chunk) == FilterRows(en, cond, schema, chunk)
  {
    hide Eval, FoldExpr, RowValues;
    if chunk != [] {
      FoldPreservesEval(en, cond, RowValues(schema, chunk[0]));
      FilterRowsFolded(en, cond, schema, chunk[1..]);
    }
  }

  lemma {:induction false} FilterChunksFolded(en: Ops, cond: Expression, schema: Schema, chunks: seq<Chunk>)
    requires AllShaped(chunks, schema)
    ensures FilterChunks(en, FoldExpr(en.fp, cond), schema, chunks) == FilterChunks(en, cond, schema, chunks)
  {
    hide FoldExpr, FilterRows;
    if chunks != [] {
      FilterRowsFolded(en, cond, schema, chunks[0]);
      FilterChunksFolded(en, cond, schema, chunks[1..]);
    }
  }

  lemma {:induction false} ProjectRowFolded(en: Ops, exprs: seq<Expression>, schema: Schema, row: RowMap)
    requires |exprs| == |schema|
    ensures ProjectRow(en, FoldAll(en.fp, exprs), schema, row) == ProjectRow(en, exprs, schema, row)
  {
    hide Eval, FoldExpr, FoldAll, AppendCell;
    if exprs != [] {
      var n := |exprs| - 1;
      FoldPreservesEval(en, exprs[n], row);
      ProjectRowFolded(en, exprs[..n], schema[..n], row);
      FoldAllPrefix(en.fp, exprs, n);
    }
  }

  lemma FoldAllPrefix(fp: FloatOps, exprs: seq<Expression>, n: nat)
    requires n <= |exprs|
    ensures FoldAll(fp, exprs)[..n] == FoldAll(fp, exprs[..n])
  {
    hide FoldAll, FoldExpr;
  }

  lemma {:induction false} ProjectRowsFolded(en: Ops, exprs: seq<Expression>, s: Schema, out: Schema, chunk: Chunk)
    requires |exprs| == |out| && Shaped(chunk, s)
    ensures ProjectRows(en, FoldAll(en.fp, exprs), s, out, chunk) == ProjectRows(en, exprs, s, out, chunk)
  {
    hide FoldAll, ProjectRow, RowValues;
    if chunk != [] {
      var n := |chunk| - 1;
      ProjectRowFolded(en, exprs, out, RowValues(s, chunk[n]));
      ProjectRowsFolded(en, exprs, s, out, chunk[..n]);
    }
  }

  lemma {:induction false} ProjectChunksFolded(en: Ops, exprs: seq<Expression>, s: Schema, out: Schema, chunks: seq<Chunk>)
    requires |exprs| == |out| && AllShaped(chunks, s)
    ensures ProjectChunks(en, FoldAll(en.fp, exprs), s, out, chunks) == ProjectChunks(en, exprs, s, out, chunks)
  {
    hide FoldAll, ProjectRows;
    if chunks != [] {
      var n := |chunks| - 1;
      ProjectRowsFolded(en, exprs, s, out, chunks[n]);
      ProjectChunksFolded(en, exprs, s, out, chunks[..n]);
    }
  }

  /** Folding changes nothing about any plan. */
  lemma {:induction false} FoldNodePreserves(db: Database, p: Plan)
    requires WellFormed(p)
    ensures WellFormed(FoldNode(db.en.fp, p)) && SchemaOf(FoldNode(db.en.fp, p)) == SchemaOf(p)
    ensures Exec(db, FoldNode(db.en.fp, p)) == Exec(db, p)
  {
    hide FoldExpr, FoldAll, Entries, BuildChunks, FilterChunks, ProjectChunks, Aggregated, LimitChunks;
    match p {
      case NoPlan =>
      case Scan(table, _, pred, _) =>
        if pred.Some? { SelectedFolded(db.en, pred.value, Entries(db, table)); }
      case Filter(c, cond) =>
        FoldNodePreserves(db, c);
        var r := Exec(db, c);
        if r.Relation? { FilterChunksFolded(db.en, cond, r.schema, r.chunks); }
      case Project(c, exprs, schema) =>
        FoldNodePreserves(db, c);
        var r := Exec(db, c);
        if r.Relation? { ProjectChunksFolded(db.en, exprs, r.schema, schema, r.chunks); }
      case Aggregating(c, _, _) => FoldNodePreserves(db, c);
      case Limit(c, _, _) => FoldNodePreserves(db, c);
    }
  }
}
