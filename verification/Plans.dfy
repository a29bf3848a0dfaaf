/** Query plans and what executing one returns. */
module Plans {
  import opened Keys
  import opened SortedEntries
  import opened Values
  import opened Expressions
  import opened Chunks
  import opened Aggregation
  import opened Limits

  datatype Plan =
    | NoPlan
    | Scan(table: Str, columns: seq<Str>, pred: Option<Expression>, schema: Schema)
    | Filter(child: Plan, condition: Expression)
    | Project(child: Plan, exprs: seq<Expression>, schema: Schema)
    | Aggregating(child: Plan, agg: Aggregate, schema: Schema)
    | Limit(child: Plan, offset: Uint64, count: Uint64)

  function SchemaOf(p: Plan): Schema {
    match p
    case NoPlan => []
    case Filter(c, _) => SchemaOf(c)
    case Limit(c, _, _) => SchemaOf(c)
    case _ => p.schema
  }

  const CHUNK_SIZE: nat := 1024

  datatype ExecError = Unsupported | ProjectFailed(cause: EvalError) | CannotAppend(column: nat) | AggregateFailed(reason: AggError)

  datatype ExecResult = Relation(schema: Schema, chunks: seq<Chunk>) | Failure(error: ExecError)

  /** Table contents in key order, and the operations expressions need. */
  datatype Database = Database(tables: map<Str, seq<RowMap>>, en: Ops)

  function Entries(db: Database, table: Str): seq<RowMap> {
    if table in db.tables then db.tables[table] else []
  }

  // ----- scan -----

  /** The cell a scan puts under a column: missing, mistyped or NULL values become NULL. */
  function FillCell(fp: FloatOps, col: ColumnDef, row: RowMap): Value {
    if col.name !in row then NewNull
    else
      var v := row[col.name];
      if v.typ != col.typ && v.valid then
        var c := Coerce(fp, v, col.typ);
        if c.typ != col.typ then NewNull else Kept(col.typ, c)
      else Kept(col.typ, v)
  }

  /** Said of the parts: `cell` shows the stored value where the column can hold it, and NULL elsewhere. */
  ghost predicate Scanned(fp: FloatOps, col: ColumnDef, row: RowMap, cell: Value) {
    if col.name in row && Storable(col.typ, row[col.name]) then Stores(fp, col.typ, row[col.name], cell) else cell == NewNull
  }

  lemma FillCellMeans(fp: FloatOps, col: ColumnDef, row: RowMap)
    ensures Scanned(fp, col, row, FillCell(fp, col, row))
  {
    if col.name in row {
      CoerceStores(fp, col.typ, row[col.name]);
      KeptShows(col.typ, row[col.name]);
    }
  }

  function FillRow(fp: FloatOps, schema: Schema, row: RowMap): (r: Cells)
    ensures |r| == |schema|
  {
    seq(|schema|, i requires 0 <= i < |schema| => FillCell(fp, schema[i], row))
  }

  function FillRows(fp: FloatOps, schema: Schema, rows: seq<RowMap>): (r: Chunk)
    ensures |r| == |rows| && Shaped(r, schema)
    ensures forall i :: 0 <= i < |rows| ==> r[i] == FillRow(fp, schema, rows[i])
  {
    seq(|rows|, i requires 0 <= i < |rows| => FillRow(fp, schema, rows[i]))
  }

  /** Chunks of 1024 rows; no column, no chunk. */
  function BuildChunks(fp: FloatOps, schema: Schema, rows: seq<RowMap>): (r: seq<Chunk>)
    ensures AllShaped(r, schema)
    decreases |rows|
  {
    if rows == [] || schema == [] then []
    else
      var n := Min(|rows|, CHUNK_SIZE);
      [FillRows(fp, schema, rows[..n])] + BuildChunks(fp, schema, rows[n..])
  }

  ghost predicate RowScans(fp: FloatOps, schema: Schema, row: RowMap, cells: Cells) {
    |cells| == |schema| && forall i :: 0 <= i < |schema| ==> Scanned(fp, schema[i], row, cells[i])
  }

  /** Every stored row, in order, under the columns of the schema. */
  ghost predicate ScansTo(fp: FloatOps, schema: Schema, rows: seq<RowMap>, out: Chunk) {
    |out| == |rows| && forall j :: 0 <= j < |rows| ==> RowScans(fp, schema, rows[j], out[j])
  }

  /** Full chunks, and one that may hold fewer rows at the end. */
  ghost predicate Batches(chunks: seq<Chunk>) {
    && (forall i :: 0 <= i < |chunks| ==> 0 < |chunks[i]| <= CHUNK_SIZE)
    && forall i :: 0 <= i < |chunks| - 1 ==> |chunks[i]| == CHUNK_SIZE
  }

  lemma {:induction false} BuiltRows(fp: FloatOps, schema: Schema, rows: seq<RowMap>)
    requires schema != []
    ensures Flatten(BuildChunks(fp, schema, rows)) == FillRows(fp, schema, rows) && Batches(BuildChunks(fp, schema, rows))
    decreases |rows|
  {
    hide FillRow;
    if rows != [] {
      var n := Min(|rows|, CHUNK_SIZE);
      BuiltRows(fp, schema, rows[n..]);
      assert FillRows(fp, schema, rows) == FillRows(fp, schema, rows[..n]) + FillRows(fp, schema, rows[n..]);
    }
  }

  lemma FilledScans(fp: FloatOps, schema: Schema, rows: seq<RowMap>)
    ensures ScansTo(fp, schema, rows, FillRows(fp, schema, rows))
  {
    hide FillCell, Scanned;
    var out := FillRows(fp, schema, rows);
    forall j | 0 <= j < |rows| ensures RowScans(fp, schema, rows[j], out[j]) {
      forall i | 0 <= i < |schema| ensures Scanned(fp, schema[i], rows[j], out[j][i]) { FillCellMeans(fp, schema[i], rows[j]); }
    }
  }

  lemma BuiltMeans(fp: FloatOps, schema: Schema, rows: seq<RowMap>)
    ensures var chunks := BuildChunks(fp, schema, rows);
      && (schema != [] ==> ScansTo(fp, schema, rows, Flatten(chunks)) && Batches(chunks))
      && (schema == [] ==> chunks == [])
  {
    hide ScansTo, Batches, FillRows, Flatten;
    if schema != [] {
      BuiltRows(fp, schema, rows);
      FilledScans(fp, schema, rows);
    }
  }

  method BuildChunksFromEntries(fp: FloatOps, schema: Schema, rows: seq<RowMap>) returns (chunks: seq<Chunk>)
    ensures chunks == BuildChunks(fp, schema, rows)
    ensures schema != [] ==> ScansTo(fp, schema, rows, Flatten(chunks)) && Batches(chunks)
    ensures schema == [] ==> chunks == []
  {
    hide ScansTo, Batches, FillRows, Flatten;
    BuiltMeans(fp, schema, rows);
    chunks := [];
    if |rows| == 0 || |schema| == 0 {
      return;
    }
    var start := 0;
    assert rows[0..] == rows;
    while start < |rows|
      invariant start <= |rows|
      invariant chunks + BuildChunks(fp, schema, rows[start..]) == BuildChunks(fp, schema, rows)
    {
      var end := Min(start + CHUNK_SIZE, |rows|);
      assert rows[start..][..end - start] == rows[start..end] && rows[start..][end - start..] == rows[end..];
      Reassociate(chunks, FillRows(fp, schema, rows[start..end]), BuildChunks(fp, schema, rows[end..]));
      chunks := chunks + [FillRows(fp, schema, rows[start..end])];
      start := end;
    }
    assert rows[start..] == [];
  }

  function Selected(en: Ops, cond: Expression, rows: seq<RowMap>): seq<RowMap> {
    if rows == [] then []
    else (if Passes(en, cond, rows[0]) then [rows[0]] else []) + Selected(en, cond, rows[1..])
  }

  /** Rows the scan's predicate lets through, on the stored row and not only its columns. */
  function ScanEntries(db: Database, table: Str, pred: Option<Expression>): seq<RowMap> {
    if pred.None? then Entries(db, table) else Selected(db.en, pred.value, Entries(db, table))
  }

  /** The row's condition evaluates, without error, to something true. */
  ghost predicate HoldsOn(en: Ops, cond: Expression, row: RowMap) {
    var r := Eval(en, cond, row);
    r.Ok? && IsTruthy(en.fp, r.value)
  }

  /** Selection keeps exactly the rows whose condition holds, in their order. */
  lemma {:induction false} SelectedMeans(en: Ops, cond: Expression, rows: seq<RowMap>) returns (idx: seq<nat>)
    ensures PicksAt(rows, idx, Selected(en, cond, rows))
    ensures forall q: nat :: q in idx <==> q < |rows| && HoldsOn(en, cond, rows[q])
  {
    hide Eval, IsTruthy;
    idx := [];
    if rows != [] {
      var rest := SelectedMeans(en, cond, rows[1..]);
      idx := PickFirst(rows, rest, Selected(en, cond, rows[1..]), HoldsOn(en, cond, rows[0]));
      forall q: nat ensures q in idx <==> q < |rows| && HoldsOn(en, cond, rows[q]) {
        if q > 0 { assert q - 1 < |rows| - 1 ==> rows[1..][q - 1] == rows[q]; }
      }
    }
  }

  // ----- filter -----

  function FilterRows(en: Ops, cond: Expression, schema: Schema, chunk: Chunk): (r: Chunk)
    requires Shaped(chunk, schema)
    ensures Shaped(r, schema)
  {
    if chunk == [] then []
    else (if Passes(en, cond, RowValues(schema, chunk[0])) then [chunk[0]] else []) + FilterRows(en, cond, schema, chunk[1..])
  }

  function FilterChunks(en: Ops, cond: Expression, schema: Schema, chunks: seq<Chunk>): (r: seq<Chunk>)
    requires AllShaped(chunks, schema)
    ensures AllShaped(r, schema)
  {
    if chunks == [] then []
    else
      var kept := FilterRows(en, cond, schema, chunks[0]);
      (if kept == [] then [] else [kept]) + FilterChunks(en, cond, schema, chunks[1..])
  }

  /** `kept` are exactly the rows on which the condition holds, in their order. */
  ghost predicate FiltersTo(en: Ops, cond: Expression, schema: Schema, rows: Chunk, kept: Chunk)
    requires Shaped(rows, schema)
  {
    exists idx :: PicksAt(rows, idx, kept) && FilteredBy(en, cond, schema, rows, idx)
  }

  ghost predicate FilteredBy(en: Ops, cond: Expression, schema: Schema, rows: Chunk, idx: seq<nat>)
    requires Shaped(rows, schema)
  {
    forall q: nat :: q in idx <==> q < |rows| && HoldsOn(en, cond, RowValues(schema, rows[q]))
  }

  lemma {:induction false} FilteredIndexes(en: Ops, cond: Expression, schema: Schema, rows: Chunk) returns (idx: seq<nat>)
    requires Shaped(rows, schema)
    ensures PicksAt(rows, idx, FilterRows(en, cond, schema, rows)) && FilteredBy(en, cond, schema, rows, idx)
  {
    hide Eval, IsTruthy, RowValues;
    idx := [];
    if rows != [] {
      var rest := FilteredIndexes(en, cond, schema, rows[1..]);
      idx := PickFirst(rows, rest, FilterRows(en, cond, schema, rows[1..]), HoldsOn(en, cond, RowValues(schema, rows[0])));
      forall q: nat ensures q in idx <==> q < |rows| && HoldsOn(en, cond, RowValues(schema, rows[q])) {
        if q > 0 { assert q - 1 < |rows| - 1 ==> rows[1..][q - 1] == rows[q]; }
      }
    }
  }

  lemma FilterMeans(en: Ops, cond: Expression, schema: Schema, rows: Chunk)
    requires Shaped(rows, schema)
    ensures FiltersTo(en, cond, schema, rows, FilterRows(en, cond, schema, rows))
  {
    hide FilterRows, PicksAt, FilteredBy;
    var idx := FilteredIndexes(en, cond, schema, rows);
  }

  lemma {:induction false} FilterSplits(en: Ops, cond: Expression, schema: Schema, a: Chunk, b: Chunk)
    requires Shaped(a, schema) && Shaped(b, schema)
    ensures FilterRows(en, cond, schema, a + b) == FilterRows(en, cond, schema, a) + FilterRows(en, cond, schema, b)
  {
    hide Passes, RowValues;
    if a == [] {
      assert a + b == b;
    } else {
      assert (a + b)[1..] == a[1..] + b;
      FilterSplits(en, cond, schema, a[1..], b);
    }
  }

  /** Filtering chunk by chunk is filtering the rows; no empty chunk is passed on. */
  lemma {:induction false} FilterFlat(en: Ops, cond: Expression, schema: Schema, chunks: seq<Chunk>)
    requires AllShaped(chunks, schema)
    ensures Shaped(Flatten(chunks), schema)
    ensures Flatten(FilterChunks(en, cond, schema, chunks)) == FilterRows(en, cond, schema, Flatten(chunks))
    ensures [] !in FilterChunks(en, cond, schema, chunks)
  {
    hide FilterRows;
    FlattenShaped(chunks, schema);
    if chunks == [] {
      NothingFiltered(en, cond, schema);
    } else {
      var kept, rest := FilterRows(en, cond, schema, chunks[0]), FilterChunks(en, cond, schema, chunks[1..]);
      FlattenShaped(chunks[1..], schema);
      FilterFlat(en, cond, schema, chunks[1..]);
      FilterSplits(en, cond, schema, chunks[0], Flatten(chunks[1..]));
      if kept == [] {
        assert [] + rest == rest;
      } else {
        FlattenCons(kept, rest);
      }
    }
  }

  lemma NothingFiltered(en: Ops, cond: Expression, schema: Schema)
    ensures FilterRows(en, cond, schema, []) == []
  {
  }

  // ----- project -----

  datatype Projected = Cells(cells: Cells) | Chunk(rows: Chunk) | Chunks(chunks: seq<Chunk>) | Stop(error: ExecError)

  /** Appends a value to a column, converting it when the column does not accept it. */
  function AppendCell(fp: FloatOps, typ: DataType, v: Value): Option<Value> {
    if Accepts(typ, v) then Some(Kept(typ, v))
    else
      var c := Coerce(fp, v, typ);
      if Accepts(typ, c) then Some(Kept(typ, c)) else None
  }

  /** Appending stores the value, and fails exactly when the column cannot be made to hold it. */
  lemma AppendStores(fp: FloatOps, typ: DataType, v: Value)
    ensures AppendCell(fp, typ, v).Some? <==> Storable(typ, v)
    ensures Storable(typ, v) ==> Stores(fp, typ, v, AppendCell(fp, typ, v).value)
  {
    hide Coerce;
    CoerceStores(fp, typ, v);
    KeptShows(typ, v);
  }

  /** The row's output cells; the first expression that fails ends the query. */
  function ProjectRow(en: Ops, exprs: seq<Expression>, schema: Schema, row: RowMap): (r: Projected)
    requires |exprs| == |schema|
    ensures (r.Cells? && |r.cells| == |schema|) || r.Stop?
  {
    if exprs == [] then Cells([])
    else
      var n := |exprs| - 1;
      var r := ProjectRow(en, exprs[..n], schema[..n], row);
      if r.Stop? then r
      else
        var v := Eval(en, exprs[n], row);
        if v.Err? then Stop(ProjectFailed(v.error))
        else
          var c := AppendCell(en.fp, schema[n].typ, v.value);
          if c.None? then Stop(CannotAppend(n)) else Cells(r.cells + [c.value])
  }

  /** The expression has a value on the row, and the column can hold it. */
  ghost predicate Computes(en: Ops, e: Expression, typ: DataType, row: RowMap) {
    var v := Eval(en, e, row);
    v.Ok? && Storable(typ, v.value)
  }

  /** Cell i is the value of expression i on the row, as the output column holds it. */
  ghost predicate RowProjects(en: Ops, exprs: seq<Expression>, schema: Schema, row: RowMap, cells: Cells)
    requires |exprs| == |schema|
  {
    && |cells| == |exprs|
    && forall i :: 0 <= i < |exprs| ==>
         Eval(en, exprs[i], row).Ok? && Stores(en.fp, schema[i].typ, Eval(en, exprs[i], row).value, cells[i])
  }

  /** Expression i is the first that has no value on the row, or none its column can hold, and this is what the
      query reports. */
  ghost predicate RowStops(en: Ops, exprs: seq<Expression>, schema: Schema, row: RowMap, i: nat, error: ExecError)
    requires |exprs| == |schema|
  {
    && i < |exprs|
    && (forall k :: 0 <= k < i ==> Computes(en, exprs[k], schema[k].typ, row))
    && match Eval(en, exprs[i], row)
       case Err(cause) => error == ProjectFailed(cause)
       case Ok(v) => !Storable(schema[i].typ, v) && error == CannotAppend(i)
  }

  lemma {:induction false} ProjectRowMeans(en: Ops, exprs: seq<Expression>, schema: Schema, row: RowMap) returns (i: nat)
    requires |exprs| == |schema|
    ensures var r := ProjectRow(en, exprs, schema, row);
      && (r.Cells? ==> RowProjects(en, exprs, schema, row, r.cells))
      && (r.Stop? ==> RowStops(en, exprs, schema, row, i, r.error))
  {
    hide Eval, Storable, Stores, AppendCell;
    i := 0;
    if exprs != [] {
      var n := |exprs| - 1;
      i := ProjectRowMeans(en, exprs[..n], schema[..n], row);
      var r := ProjectRow(en, exprs[..n], schema[..n], row);
      if r.Cells? {
        i := n;
        var v := Eval(en, exprs[n], row);
        if v.Ok? { AppendStores(en.fp, schema[n].typ, v.value); }
        forall k | 0 <= k < n ensures Computes(en, exprs[k], schema[k].typ, row) {
          assert exprs[..n][k] == exprs[k] && schema[..n][k] == schema[k];
          StoredIsStorable(en.fp, schema[k].typ, Eval(en, exprs[k], row).value, r.cells[k]);
        }
      } else {
        forall k | 0 <= k < i ensures Computes(en, exprs[k], schema[k].typ, row) {
          assert exprs[..n][k] == exprs[k] && schema[..n][k] == schema[k];
        }
      }
    }
  }

  lemma StoredIsStorable(fp: FloatOps, typ: DataType, v: Value, cell: Value)
    requires Stores(fp, typ, v, cell)
    ensures Storable(typ, v)
  {
  }

  /** Row by row. */
  ghost predicate RowsProject(en: Ops, exprs: seq<Expression>, schema: Schema, rows: seq<RowMap>, out: Chunk)
    requires |exprs| == |schema|
  {
    |out| == |rows| && forall j :: 0 <= j < |rows| ==> RowProjects(en, exprs, schema, rows[j], out[j])
  }

  /** Row j is the first on which some expression fails, and i is that expression. */
  ghost predicate RowsStop(en: Ops, exprs: seq<Expression>, schema: Schema, rows: seq<RowMap>, j: nat, i: nat, error: ExecError)
    requires |exprs| == |schema|
  {
    && j < |rows|
    && (forall q, k :: 0 <= q < j && 0 <= k < |exprs| ==> Computes(en, exprs[k], schema[k].typ, rows[q]))
    && RowStops(en, exprs, schema, rows[j], i, error)
  }

  function ProjectRows(en: Ops, exprs: seq<Expression>, input: Schema, output: Schema, chunk: Chunk): (r: Projected)
    requires |exprs| == |output| && Shaped(chunk, input)
    ensures (r.Chunk? && |r.rows| == |chunk| && Shaped(r.rows, output)) || r.Stop?
  {
    if chunk == [] then Chunk([])
    else
      var n := |chunk| - 1;
      var r := ProjectRows(en, exprs, input, output, chunk[..n]);
      if r.Stop? then r
      else
        var last := ProjectRow(en, exprs, output, RowValues(input, chunk[n]));
        if last.Stop? then last else Chunk(r.rows + [last.cells])
  }

  function ProjectChunks(en: Ops, exprs: seq<Expression>, input: Schema, output: Schema, chunks: seq<Chunk>): (r: Projected)
    requires |exprs| == |output| && AllShaped(chunks, input)
    ensures (r.Chunks? && AllShaped(r.chunks, output)) || r.Stop?
  {
    if chunks == [] then Chunks([])
    else
      var n := |chunks| - 1;
      var r := ProjectChunks(en, exprs, input, output, chunks[..n]);
      if r.Stop? then r
      else
        var last := ProjectRows(en, exprs, input, output, chunks[n]);
        if last.Stop? then last
        else Chunks(if last.rows == [] then r.chunks else r.chunks + [last.rows])
  }

  lemma AllCompute(en: Ops, exprs: seq<Expression>, schema: Schema, rows: seq<RowMap>, out: Chunk)
    requires |exprs| == |schema| && RowsProject(en, exprs, schema, rows, out)
    ensures forall q, k :: 0 <= q < |rows| && 0 <= k < |exprs| ==> Computes(en, exprs[k], schema[k].typ, rows[q])
  {
    hide Eval, Storable, Stores;
    forall q, k | 0 <= q < |rows| && 0 <= k < |exprs| ensures Computes(en, exprs[k], schema[k].typ, rows[q]) {
      assert RowProjects(en, exprs, schema, rows[q], out[q]);
      StoredIsStorable(en.fp, schema[k].typ, Eval(en, exprs[k], rows[q]).value, out[q][k]);
    }
  }

  lemma {:induction false} ProjectRowsMean(en: Ops, exprs: seq<Expression>, input: Schema, output: Schema, chunk: Chunk) returns (j: nat, i: nat)
    requires |exprs| == |output| && Shaped(chunk, input)
    ensures var r, rows := ProjectRows(en, exprs, input, output, chunk), RowMaps(input, chunk);
      && (r.Chunk? ==> RowsProject(en, exprs, output, rows, r.rows))
      && (r.Stop? ==> RowsStop(en, exprs, output, rows, j, i, r.error))
  {
    hide RowValues, RowProjects, RowStops, Computes, ProjectRow;
    j, i := 0, 0;
    if chunk != [] {
      var n := |chunk| - 1;
      j, i := ProjectRowsMean(en, exprs, input, output, chunk[..n]);
      var r := ProjectRows(en, exprs, input, output, chunk[..n]);
      if r.Chunk? {
        AllCompute(en, exprs, output, RowMaps(input, chunk[..n]), r.rows);
        j := n;
        i := ProjectRowMeans(en, exprs, output, RowValues(input, chunk[n]));
        forall q, k | 0 <= q < n && 0 <= k < |exprs| ensures Computes(en, exprs[k], output[k].typ, RowMaps(input, chunk)[q]) {
          assert RowMaps(input, chunk)[q] == RowMaps(input, chunk[..n])[q];
        }
      } else {
        forall q, k | 0 <= q < j && 0 <= k < |exprs| ensures Computes(en, exprs[k], output[k].typ, RowMaps(input, chunk)[q]) {
          assert RowMaps(input, chunk)[q] == RowMaps(input, chunk[..n])[q];
        }
      }
    }
  }

  lemma ProjectedTogether(en: Ops, exprs: seq<Expression>, schema: Schema, a: seq<RowMap>, x: Chunk, b: seq<RowMap>, y: Chunk)
    requires |exprs| == |schema| && RowsProject(en, exprs, schema, a, x) && RowsProject(en, exprs, schema, b, y)
    ensures RowsProject(en, exprs, schema, a + b, x + y)
  {
    hide RowProjects;
  }

  lemma StopsLater(en: Ops, exprs: seq<Expression>, schema: Schema, a: seq<RowMap>, x: Chunk, b: seq<RowMap>, j: nat, i: nat, error: ExecError)
    requires |exprs| == |schema| && RowsProject(en, exprs, schema, a, x) && RowsStop(en, exprs, schema, b, j, i, error)
    ensures RowsStop(en, exprs, schema, a + b, |a| + j, i, error)
  {
    hide RowProjects, RowStops, Computes;
    AllCompute(en, exprs, schema, a, x);
    forall q, k | 0 <= q < |a| + j && 0 <= k < |exprs| ensures Computes(en, exprs[k], schema[k].typ, (a + b)[q]) {
      if q >= |a| { assert (a + b)[q] == b[q - |a|]; }
    }
  }

  lemma StopsBefore(en: Ops, exprs: seq<Expression>, schema: Schema, a: seq<RowMap>, b: seq<RowMap>, j: nat, i: nat, error: ExecError)
    requires |exprs| == |schema| && RowsStop(en, exprs, schema, a, j, i, error)
    ensures RowsStop(en, exprs, schema, a + b, j, i, error)
  {
    hide RowProjects, RowStops, Computes;
  }

  lemma MapsTogether(schema: Schema, a: Chunk, b: Chunk)
    requires Shaped(a, schema) && Shaped(b, schema)
    ensures RowMaps(schema, a + b) == RowMaps(schema, a) + RowMaps(schema, b)
  {
    hide RowValues;
  }

  /** Projecting chunk by chunk is projecting the rows; the first failure in the order of the rows is reported. */
  lemma {:induction false} ProjectFlat(en: Ops, exprs: seq<Expression>, input: Schema, output: Schema, chunks: seq<Chunk>)
      returns (j: nat, i: nat)
    requires |exprs| == |output| && AllShaped(chunks, input)
    ensures Shaped(Flatten(chunks), input)
    ensures var r, rows := ProjectChunks(en, exprs, input, output, chunks), RowMaps(input, Flatten(chunks));
      && (r.Chunks? ==> RowsProject(en, exprs, output, rows, Flatten(r.chunks)))
      && (r.Stop? ==> RowsStop(en, exprs, output, rows, j, i, r.error))
  {
    hide RowsProject, RowsStop, ProjectRows, RowMaps;
    FlattenShaped(chunks, input);
    j, i := 0, 0;
    if chunks == [] {
      NothingProjects(en, exprs, input, output);
    } else {
      var n := |chunks| - 1;
      FlattenShaped(chunks[..n], input);
      FlattenSnoc(chunks[..n], chunks[n]);
      assert chunks[..n] + [chunks[n]] == chunks;
      MapsTogether(input, Flatten(chunks[..n]), chunks[n]);
      j, i := ProjectFlat(en, exprs, input, output, chunks[..n]);
      var before, rows := ProjectChunks(en, exprs, input, output, chunks[..n]), RowMaps(input, Flatten(chunks[..n]));
      if before.Stop? {
        StopsBefore(en, exprs, output, rows, RowMaps(input, chunks[n]), j, i, before.error);
      } else {
        var q, k := ProjectRowsMean(en, exprs, input, output, chunks[n]);
        var last := ProjectRows(en, exprs, input, output, chunks[n]);
        if last.Stop? {
          StopsLater(en, exprs, output, rows, Flatten(before.chunks), RowMaps(input, chunks[n]), q, k, last.error);
          j, i := |rows| + q, k;
        } else {
          ProjectedTogether(en, exprs, output, rows, Flatten(before.chunks), RowMaps(input, chunks[n]), last.rows);
          FlattenSnoc(before.chunks, last.rows);
          assert Flatten(before.chunks) + [] == Flatten(before.chunks);
        }
      }
    }
  }

  lemma NothingProjects(en: Ops, exprs: seq<Expression>, input: Schema, output: Schema)
    requires |exprs| == |output|
    ensures RowsProject(en, exprs, output, RowMaps(input, []), [])
  {
  }

  // ----- whole plans -----

  /** Output columns match the node's expressions. */
  ghost predicate WellFormed(p: Plan) {
    match p
    case NoPlan => true
    case Scan(_, _, _, _) => true
    case Filter(c, _) => WellFormed(c)
    case Limit(c, _, _) => WellFormed(c)
    case Project(c, exprs, schema) => WellFormed(c) && |exprs| == |schema|
    case Aggregating(c, agg, schema) => WellFormed(c) && |schema| == |agg.groupBy| + |agg.aggs|
  }

  lemma {:induction false} SlicesShaped(chunks: seq<Chunk>, schema: Schema, skipped: Uint64, returned: Uint64, offset: Uint64, count: Uint64)
    requires AllShaped(chunks, schema) && skipped <= offset && returned <= count
    ensures AllShaped(LimitFrom(chunks, skipped, returned, offset, count), schema)
    decreases chunks
  {
    hide LimitFrom, Add64;
    if chunks == [] {
      NothingLeft<Cells>(skipped, returned, offset, count);
    } else if Add64(skipped, |chunks[0]|) <= offset {
      Skip(chunks, skipped, returned, offset, count);
      SlicesShaped(chunks[1..], schema, Add64(skipped, |chunks[0]|), returned, offset, count);
    } else {
      Take(chunks, skipped, returned, offset, count);
      var start, end := offset - skipped, SliceEnd(|chunks[0]|, offset - skipped, count - returned);
      if start < end && returned + (end - start) < count {
        SlicesShaped(chunks[1..], schema, offset, returned + (end - start), offset, count);
      }
    }
  }

  function Exec(db: Database, p: Plan): (r: ExecResult)
    requires WellFormed(p)
    ensures r.Relation? ==> AllShaped(r.chunks, r.schema)
    ensures r.Relation? ==> r.schema == SchemaOf(p)
  {
    match p
    case NoPlan => Failure(Unsupported)
    case Scan(table, _, pred, schema) => Relation(schema, BuildChunks(db.en.fp, schema, ScanEntries(db, table, pred)))
    case Filter(c, cond) =>
      var r := Exec(db, c);
      if r.Failure? then r else Relation(r.schema, FilterChunks(db.en, cond, r.schema, r.chunks))
    case Project(c, exprs, schema) =>
      var r := Exec(db, c);
      if r.Failure? then r
      else
        var out := ProjectChunks(db.en, exprs, r.schema, schema, r.chunks);
        if out.Stop? then Failure(out.error) else Relation(schema, out.chunks)
    case Aggregating(c, agg, schema) =>
      var r := Exec(db, c);
      if r.Failure? then r
      else
        var out := Aggregated(db.en, agg, r.schema, schema, r.chunks);
        if out.Failed? then Failure(AggregateFailed(out.error)) else Relation(schema, [out.rows])
    case Limit(c, offset, count) =>
      var r := Exec(db, c);
      if r.Failure? then r
      else
        SlicesShaped(r.chunks, r.schema, 0, 0, offset, count);
        Relation(r.schema, LimitChunks(r.chunks, offset, count))
  }

  /** The executor, node by node. */
  method ExecuteNode(db: Database, p: Plan) returns (r: ExecResult)
    requires WellFormed(p)
    ensures r == Exec(db, p)
    decreases p
  {
    match p {
      case NoPlan => r := Failure(Unsupported);
      case Scan(table, _, pred, schema) =>
        var chunks := BuildChunksFromEntries(db.en.fp, schema, ScanEntries(db, table, pred));
        r := Relation(schema, chunks);
      case Filter(c, cond) =>
        r := ExecuteNode(db, c);
        if r.Relation? {
          var chunks := ExecuteFilter(db.en, cond, r.schema, r.chunks);
          r := Relation(r.schema, chunks);
        }
      case Project(c, exprs, schema) =>
        r := ExecuteNode(db, c);
        if r.Relation? {
          var out := ExecuteProject(db.en, exprs, r.schema, schema, r.chunks);
          r := if out.Stop? then Failure(out.error) else Relation(schema, out.chunks);
        }
      case Aggregating(c, agg, schema) =>
        r := ExecuteNode(db, c);
        if r.Relation? {
          var out := ExecuteAggregate(db.en, agg, r.schema, schema, r.chunks);
          r := if out.Failed? then Failure(AggregateFailed(out.error)) else Relation(schema, [out.rows]);
        }
      case Limit(c, offset, count) =>
        r := ExecuteNode(db, c);
        if r.Relation? {
          var chunks := ExecuteLimit(r.chunks, offset, count);
          r := Relation(r.schema, chunks);
        }
    }
  }

  lemma NothingLeftOver(en: Ops, cond: Expression, schema: Schema)
    ensures FilterChunks(en, cond, schema, []) == []
  {
  }

  lemma FilterNext(en: Ops, cond: Expression, schema: Schema, input: seq<Chunk>, i: nat, done: seq<Chunk>)
    requires AllShaped(input, schema) && i < |input|
    ensures var kept := FilterRows(en, cond, schema, input[i]);
      done + FilterChunks(en, cond, schema, input[i..]) ==
        (if kept == [] then done else done + [kept]) + FilterChunks(en, cond, schema, input[i + 1..])
  {
    hide FilterRows;
    assert input[i..][0] == input[i] && input[i..][1..] == input[i + 1..];
    Reassociate(done, FilterRows(en, cond, schema, input[i]), FilterChunks(en, cond, schema, input[i + 1..]));
  }

  method ExecuteFilter(en: Ops, cond: Expression, schema: Schema, input: seq<Chunk>) returns (chunks: seq<Chunk>)
    requires AllShaped(input, schema)
    ensures chunks == FilterChunks(en, cond, schema, input)
    ensures Shaped(Flatten(input), schema) && FiltersTo(en, cond, schema, Flatten(input), Flatten(chunks)) && [] !in chunks
  {
    hide FiltersTo, FilterRows, FilterChunks, Flatten;
    chunks := [];
    assert input[0..] == input;
    for i := 0 to |input|
      invariant chunks + FilterChunks(en, cond, schema, input[i..]) == FilterChunks(en, cond, schema, input)
    {
      var kept := FilterChunk(en, cond, schema, input[i]);
      FilterNext(en, cond, schema, input, i, chunks);
      if |kept| > 0 {
        chunks := chunks + [kept];
      }
    }
    NothingLeftOver(en, cond, schema);
    assert input[|input|..] == [];
    FilteredChunksMean(en, cond, schema, input);
  }

  lemma FilteredChunksMean(en: Ops, cond: Expression, schema: Schema, chunks: seq<Chunk>)
    requires AllShaped(chunks, schema)
    ensures Shaped(Flatten(chunks), schema)
    ensures FiltersTo(en, cond, schema, Flatten(chunks), Flatten(FilterChunks(en, cond, schema, chunks)))
    ensures [] !in FilterChunks(en, cond, schema, chunks)
  {
    hide FiltersTo, FilterRows, FilterChunks, Flatten;
    FilterFlat(en, cond, schema, chunks);
    FilterMeans(en, cond, schema, Flatten(chunks));
  }

  /** The row loop: a row whose condition fails to evaluate is left out. */
  method FilterChunk(en: Ops, cond: Expression, schema: Schema, chunk: Chunk) returns (kept: Chunk)
    requires Shaped(chunk, schema)
    ensures kept == FilterRows(en, cond, schema, chunk)
    ensures FiltersTo(en, cond, schema, chunk, kept)
  {
    hide RowValues, Eval, FiltersTo;
    FilterMeans(en, cond, schema, chunk);
    kept := [];
    assert chunk[0..] == chunk;
    for i := 0 to |chunk|
      invariant kept + FilterRows(en, cond, schema, chunk[i..]) == FilterRows(en, cond, schema, chunk)
    {
      assert chunk[i..][0] == chunk[i] && chunk[i..][1..] == chunk[i + 1..];
      var v := Eval(en, cond, RowValues(schema, chunk[i]));
      if v.Ok? && IsTruthy(en.fp, v.value) {
        Reassociate(kept, chunk[i], FilterRows(en, cond, schema, chunk[i + 1..]));
        kept := kept + [chunk[i]];
      }
    }
  }

  method ExecuteProject(en: Ops, exprs: seq<Expression>, input: Schema, output: Schema, chunks: seq<Chunk>) returns (out: Projected)
    requires |exprs| == |output| && AllShaped(chunks, input)
    ensures out == ProjectChunks(en, exprs, input, output, chunks)
    ensures Shaped(Flatten(chunks), input)
    ensures out.Chunks? ==> RowsProject(en, exprs, output, RowMaps(input, Flatten(chunks)), Flatten(out.chunks))
    ensures out.Stop? ==> exists j: nat, i: nat :: RowsStop(en, exprs, output, RowMaps(input, Flatten(chunks)), j, i, out.error)
  {
    hide RowsProject, RowsStop, ProjectRows;
    ghost var j, k := ProjectFlat(en, exprs, input, output, chunks);
    var done: seq<Chunk> := [];
    for i := 0 to |chunks|
      invariant ProjectChunks(en, exprs, input, output, chunks[..i]) == Chunks(done)
    {
      assert chunks[..i + 1][..i] == chunks[..i];
      var rows := ProjectChunk(en, exprs, input, output, chunks[i]);
      if rows.Stop? {
        StopEndsChunks(en, exprs, input, output, chunks, i + 1);
        return rows;
      }
      if |rows.rows| > 0 {
        done := done + [rows.rows];
      }
    }
    assert chunks[..|chunks|] == chunks;
    return Chunks(done);
  }

  lemma StopEndsChunks(en: Ops, exprs: seq<Expression>, input: Schema, output: Schema, chunks: seq<Chunk>, i: nat)
    requires |exprs| == |output| && AllShaped(chunks, input) && i <= |chunks|
    requires ProjectChunks(en, exprs, input, output, chunks[..i]).Stop?
    ensures ProjectChunks(en, exprs, input, output, chunks) == ProjectChunks(en, exprs, input, output, chunks[..i])
    decreases |chunks| - i
  {
    if i == |chunks| {
      assert chunks[..i] == chunks;
    } else {
      assert chunks[..i + 1][..i] == chunks[..i];
      StopEndsChunks(en, exprs, input, output, chunks, i + 1);
    }
  }

  method ProjectChunk(en: Ops, exprs: seq<Expression>, input: Schema, output: Schema, chunk: Chunk) returns (out: Projected)
    requires |exprs| == |output| && Shaped(chunk, input)
    ensures out == ProjectRows(en, exprs, input, output, chunk)
    ensures out.Chunk? ==> RowsProject(en, exprs, output, RowMaps(input, chunk), out.rows)
    ensures out.Stop? ==> exists j: nat, i: nat :: RowsStop(en, exprs, output, RowMaps(input, chunk), j, i, out.error)
  {
    hide RowValues, ProjectRow, RowsProject, RowsStop;
    ghost var j, k := ProjectRowsMean(en, exprs, input, output, chunk);
    var rows: Chunk := [];
    for i := 0 to |chunk|
      invariant ProjectRows(en, exprs, input, output, chunk[..i]) == Chunk(rows)
    {
      assert chunk[..i + 1][..i] == chunk[..i];
      var r := ProjectRow(en, exprs, output, RowValues(input, chunk[i]));
      if r.Stop? {
        StopEndsRows(en, exprs, input, output, chunk, i + 1);
        return r;
      }
      rows := rows + [r.cells];
    }
    assert chunk[..|chunk|] == chunk;
    return Chunk(rows);
  }

  lemma StopEndsRows(en: Ops, exprs: seq<Expression>, input: Schema, output: Schema, chunk: Chunk, i: nat)
    requires |exprs| == |output| && Shaped(chunk, input) && i <= |chunk|
    requires ProjectRows(en, exprs, input, output, chunk[..i]).Stop?
    ensures ProjectRows(en, exprs, input, output, chunk) == ProjectRows(en, exprs, input, output, chunk[..i])
    decreases |chunk| - i
  {
    hide RowValues, ProjectRow;
    if i == |chunk| {
      assert chunk[..i] == chunk;
    } else {
      assert chunk[..i + 1][..i] == chunk[..i];
      StopEndsRows(en, exprs, input, output, chunk, i + 1);
    }
  }
}
