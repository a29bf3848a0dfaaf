/** Column pruning: a scan keeps the columns its consumers reference. */
module ColumnPruning {
  import opened Keys
  import opened SortedEntries
  import opened Values
  import opened Expressions
  import opened Chunks
  import opened Aggregation
  import opened Limits
  import opened Plans
  import opened PlanRules

  function Names(schema: Schema): (r: seq<Str>)
    ensures |r| == |schema| && forall i :: 0 <= i < |r| ==> r[i] == schema[i].name
  {
    seq(|schema|, i requires 0 <= i < |schema| => schema[i].name)
  }

  /** Every column name the plan's expressions mention, the scan's predicate aside. */
  function GatherNeeded(p: Plan): set<Str> {
    match p
    case Project(c, exprs, _) => RefsOfAll(exprs) + GatherNeeded(c)
    case Filter(c, cond) => Refs(cond) + GatherNeeded(c)
    case Aggregating(c, agg, _) => AggRefs(agg) + GatherNeeded(c)
    case Limit(c, _, _) => GatherNeeded(c)
    case _ => {}
  }

  function KeepNeeded(columns: seq<Str>, needed: set<Str>): (r: seq<Str>)
    ensures |r| <= |columns|
  {
    if columns == [] then []
    else
      var n := |columns| - 1;
      KeepNeeded(columns[..n], needed) + if columns[n] in needed then [columns[n]] else []
  }

  /** The first column of that name. */
  function Named(schema: Schema, name: Str): Schema {
    if schema == [] then []
    else if schema[0].name == name then [schema[0]]
    else Named(schema[1..], name)
  }

  function PrunedSchema(schema: Schema, columns: seq<Str>): Schema {
    if columns == [] then []
    else PrunedSchema(schema, columns[..|columns| - 1]) + Named(schema, columns[|columns| - 1])
  }

  method BuildPrunedSchema(schema: Schema, columns: seq<Str>) returns (result: Schema)
    ensures result == PrunedSchema(schema, columns)
  {
    result := [];
    for i := 0 to |columns|
      invariant result == PrunedSchema(schema, columns[..i])
    {
      assert columns[..i + 1][..i] == columns[..i];
      assert schema[0..] == schema;
      for j := 0 to |schema|
        invariant result == PrunedSchema(schema, columns[..i])
        invariant Named(schema, columns[i]) == Named(schema[j..], columns[i])
      {
        assert schema[j..][0] == schema[j] && schema[j..][1..] == schema[j + 1..];
        if schema[j].name == columns[i] {
          result := result + [schema[j]];
          break;
        }
      }
    }
    assert columns[..|columns|] == columns;
  }

  function PruneScan(scan: Plan, needed: set<Str>): (r: Plan)
    requires scan.Scan?
    ensures r.Scan?
  {
    if needed == {} then scan
    else
      var pruned := KeepNeeded(scan.columns, needed);
      if |pruned| < |scan.columns| then scan.(columns := pruned, schema := PrunedSchema(scan.schema, pruned)) else scan
  }

  function PruneNode(p: Plan, needed: set<Str>): Plan {
    match p
    case Scan(_, _, _, _) => PruneScan(p, needed)
    case Filter(c, cond) => Filter(PruneNode(c, needed + Refs(cond)), cond)
    case Project(c, exprs, schema) => Project(PruneNode(c, RefsOfAll(exprs)), exprs, schema)
    case Aggregating(c, agg, schema) => Aggregating(PruneNode(c, AggRefs(agg)), agg, schema)
    case Limit(c, offset, count) => Limit(PruneNode(c, needed), offset, count)
    case NoPlan => p
  }

  function Prune(p: Plan): Plan {
    PruneNode(p, GatherNeeded(p))
  }

  /** Every node's references, and `needed` above them, are columns of the scan below. */
  ghost predicate Supplied(p: Plan, needed: set<Str>) {
    match p
    case NoPlan => true
    case Scan(_, columns, _, schema) => ScanDescribes(columns, schema) && forall c :: c in needed ==> c in columns
    case Filter(c, cond) => Supplied(c, needed + Refs(cond))
    case Project(c, exprs, _) => Supplied(c, RefsOfAll(exprs))
    case Aggregating(c, agg, _) => Supplied(c, AggRefs(agg))
    case Limit(c, _, _) => Supplied(c, needed)
  }

  /** The scan's column list is its schema's names, without repetition. */
  ghost predicate ScanDescribes(columns: seq<Str>, schema: Schema) {
    columns == Names(schema) && forall i, j :: 0 <= i < j < |schema| ==> schema[i].name != schema[j].name
  }

  lemma {:induction false} KeptColumns(columns: seq<Str>, needed: set<Str>, c: Str)
    ensures c in KeepNeeded(columns, needed) <==> c in columns && c in needed
  {
    if columns != [] {
      var n := |columns| - 1;
      KeptColumns(columns[..n], needed, c);
      assert columns == columns[..n] + [columns[n]];
    }
  }

  /** The kept columns are exactly the needed ones, in the order of the scan. */
  lemma {:induction false} KeptInOrder(columns: seq<Str>, needed: set<Str>) returns (idx: seq<nat>)
    ensures PicksAt(columns, idx, KeepNeeded(columns, needed))
    ensures forall q: nat :: q in idx <==> q < |columns| && columns[q] in needed
  {
    idx := [];
    if columns != [] {
      var n := |columns| - 1;
      var before := KeptInOrder(columns[..n], needed);
      idx := PickLast(columns, before, KeepNeeded(columns[..n], needed), columns[n] in needed);
      forall q: nat ensures q in idx <==> q < |columns| && columns[q] in needed {
        assert q < n ==> columns[..n][q] == columns[q];
      }
    }
  }

  lemma {:induction false} NamedFinds(schema: Schema, name: Str, i: nat)
    requires i < |schema| && schema[i].name == name
    requires forall j :: 0 <= j < |schema| && schema[j].name == name ==> j == i
    ensures Named(schema, name) == [schema[i]]
  {
    if i > 0 { NamedFinds(schema[1..], name, i - 1); }
  }

  /** The pruned schema holds exactly the kept columns, each as the scan had it. */
  lemma {:induction false} PrunedSchemaMeans(schema: Schema, columns: seq<Str>)
    requires forall i, j :: 0 <= i < j < |schema| ==> schema[i].name != schema[j].name
    requires forall c :: c in columns ==> HasColumn(schema, c)
    ensures forall d :: d in PrunedSchema(schema, columns) <==> d in schema && d.name in columns
  {
    if columns != [] {
      var n := |columns| - 1;
      assert forall c :: c in columns[..n] ==> c in columns;
      PrunedSchemaMeans(schema, columns[..n]);
      assert columns == columns[..n] + [columns[n]];
      assert HasColumn(schema, columns[n]);
      var i :| 0 <= i < |schema| && schema[i].name == columns[n];
      NamedFinds(schema, columns[n], i);
      assert forall d :: d in schema && d.name == columns[n] ==> d == schema[i];
    }
  }

  /** Two schemas with the same definition for every needed column. */
  ghost predicate SameColumns(cols: set<Str>, s: Schema, s': Schema) {
    && (forall c :: c in cols ==> HasColumn(s, c) && HasColumn(s', c))
    && (forall i, j :: 0 <= i < |s| && 0 <= j < |s'| && s[i].name in cols && s'[j].name == s[i].name ==> s[i] == s'[j])
  }

  lemma FilledRowsAgree(fp: FloatOps, cols: set<Str>, s: Schema, s': Schema, row: RowMap)
    requires SameColumns(cols, s, s')
    ensures AgreeOn(cols, RowValues(s, FillRow(fp, s, row)), RowValues(s', FillRow(fp, s', row)))
  {
    var a, b := FillRow(fp, s, row), FillRow(fp, s', row);
    var m, m' := RowValues(s, a), RowValues(s', b);
    hide RowValues, ColIndex, FillCell;
    forall c | c in cols ensures (if c in m then m[c] else NewNull) == (if c in m' then m'[c] else NewNull) {
      RowValuesByIndex(s, a, c);
      RowValuesByIndex(s', b, c);
      assert HasColumn(s, c) && HasColumn(s', c);
      assert s[ColIndex(s, c).value] == s'[ColIndex(s', c).value];
    }
  }

  lemma FilledChunksAgree(fp: FloatOps, cols: set<Str>, s: Schema, s': Schema, rows: seq<RowMap>)
    requires SameColumns(cols, s, s')
    ensures RowsAgree(cols, s, FillRows(fp, s, rows), s', FillRows(fp, s', rows))
  {
    hide AgreeOn, RowValues, SameColumns, FillRow;
    var a, b := FillRows(fp, s, rows), FillRows(fp, s', rows);
    forall j | 0 <= j < |a| ensures AgreeOn(cols, RowValues(s, a[j]), RowValues(s', b[j])) {
      FilledRowsAgree(fp, cols, s, s', rows[j]);
    }
  }

  lemma {:induction false} BuiltChunksAgree(fp: FloatOps, cols: set<Str>, s: Schema, s': Schema, rows: seq<RowMap>)
    requires SameColumns(cols, s, s') && (s == [] <==> s' == [])
    ensures ChunksAgree(cols, s, BuildChunks(fp, s, rows), s', BuildChunks(fp, s', rows))
    decreases |rows|
  {
    hide RowsAgree, SameColumns, FillRows;
    if rows != [] && s != [] {
      var n := Min(|rows|, CHUNK_SIZE);
      FilledChunksAgree(fp, cols, s, s', rows[..n]);
      BuiltChunksAgree(fp, cols, s, s', rows[n..]);
    }
  }

  /** A pruned scan delivers the same rows in the same chunks, with the needed columns. */
  lemma PruneScanAgrees(db: Database, p: Plan, needed: set<Str>)
    requires p.Scan? && Supplied(p, needed)
    ensures var r, r' := Exec(db, p), Exec(db, PruneScan(p, needed));
      ChunksAgree(needed, r.schema, r.chunks, r'.schema, r'.chunks)
  {
    var p' := PruneScan(p, needed);
    PrunedColumnsSame(p, needed);
    BuiltChunksAgree(db.en.fp, needed, p.schema, p'.schema, ScanEntries(db, p.table, p.pred));
  }

  lemma PrunedColumnsSame(p: Plan, needed: set<Str>)
    requires p.Scan? && Supplied(p, needed)
    ensures var p' := PruneScan(p, needed);
      SameColumns(needed, p.schema, p'.schema) && (p.schema == [] <==> p'.schema == [])
  {
    var pruned := KeepNeeded(p.columns, needed);
    forall c ensures c in pruned <==> c in p.columns && c in needed { KeptColumns(p.columns, needed, c); }
    forall c | c in p.columns ensures HasColumn(p.schema, c) {}
    hide KeepNeeded, PrunedSchema, Names, HasColumn, SameColumns;
    SubsetSame(p.schema, p.schema, needed);
    if needed != {} && |pruned| < |p.columns| {
      PrunedSchemaMeans(p.schema, pruned);
      SubsetSame(p.schema, PrunedSchema(p.schema, pruned), needed);
      var c :| c in needed;
      SomeColumn(p.schema, PrunedSchema(p.schema, pruned), needed, c);
    }
  }

  /** Keeping some columns of a schema, the needed ones among them, keeps their definitions. */
  lemma SubsetSame(s: Schema, s': Schema, needed: set<Str>)
    requires forall i, j :: 0 <= i < j < |s| ==> s[i].name != s[j].name
    requires forall c :: c in needed ==> HasColumn(s, c)
    requires forall d :: d in s' ==> d in s
    requires forall d :: d in s && d.name in needed ==> d in s'
    ensures SameColumns(needed, s, s')
  {
    forall c | c in needed ensures HasColumn(s', c) {
      var i :| 0 <= i < |s| && s[i].name == c;
      assert s[i] in s';
    }
    forall i, j | 0 <= i < |s| && 0 <= j < |s'| && s'[j].name == s[i].name ensures s[i] == s'[j] {
      assert s'[j] in s;
    }
  }

  lemma SomeColumn(s: Schema, s': Schema, needed: set<Str>, c: Str)
    requires SameColumns(needed, s, s') && c in needed
    ensures s != [] && s' != []
  {
    assert HasColumn(s, c) && HasColumn(s', c);
  }

  // ----- the nodes above the scan -----

  lemma {:induction false} FilteredRowsAgree(en: Ops, cond: Expression, cols: set<Str>, s: Schema, chunk: Chunk, s': Schema, chunk': Chunk)
    requires RowsAgree(cols, s, chunk, s', chunk') && Refs(cond) <= cols
    ensures RowsAgree(cols, s, FilterRows(en, cond, s, chunk), s', FilterRows(en, cond, s', chunk'))
  {
    hide AgreeOn, RowValues, Passes;
    if chunk != [] {
      FilteredRowsAgree(en, cond, cols, s, chunk[1..], s', chunk'[1..]);
      assert AgreeOn(cols, RowValues(s, chunk[0]), RowValues(s', chunk'[0]));
      AgreeOnFewer(cols, Refs(cond), RowValues(s, chunk[0]), RowValues(s', chunk'[0]));
      PassesSeesRefs(en, cond, RowValues(s, chunk[0]), RowValues(s', chunk'[0]));
    }
  }

  lemma {:induction false} FilteredChunksAgree(en: Ops, cond: Expression, cols: set<Str>, s: Schema, chunks: seq<Chunk>, s': Schema, chunks': seq<Chunk>)
    requires ChunksAgree(cols, s, chunks, s', chunks') && Refs(cond) <= cols
    ensures ChunksAgree(cols, s, FilterChunks(en, cond, s, chunks), s', FilterChunks(en, cond, s', chunks'))
  {
    hide RowsAgree, FilterRows;
    if chunks != [] {
      FilteredRowsAgree(en, cond, cols, s, chunks[0], s', chunks'[0]);
      SameLength(cols, s, FilterRows(en, cond, s, chunks[0]), s', FilterRows(en, cond, s', chunks'[0]));
      FilteredChunksAgree(en, cond, cols, s, chunks[1..], s', chunks'[1..]);
    }
  }

  lemma SameLength(cols: set<Str>, s: Schema, chunk: Chunk, s': Schema, chunk': Chunk)
    requires RowsAgree(cols, s, chunk, s', chunk')
    ensures |chunk| == |chunk'|
  {
  }

  lemma ConsAgree(cols: set<Str>, s: Schema, head: Chunk, tail: seq<Chunk>, s': Schema, head': Chunk, tail': seq<Chunk>)
    requires RowsAgree(cols, s, head, s', head') && ChunksAgree(cols, s, tail, s', tail')
    ensures ChunksAgree(cols, s, [head] + tail, s', [head'] + tail')
  {
    hide AgreeOn, RowValues;
  }

  lemma {:induction false} LimitedChunksAgree(cols: set<Str>, s: Schema, chunks: seq<Chunk>, s': Schema, chunks': seq<Chunk>,
      skipped: Uint64, returned: Uint64, offset: Uint64, count: Uint64)
    requires ChunksAgree(cols, s, chunks, s', chunks') && skipped <= offset && returned <= count
    ensures ChunksAgree(cols, s, LimitFrom(chunks, skipped, returned, offset, count), s', LimitFrom(chunks', skipped, returned, offset, count))
    decreases chunks
  {
    hide LimitFrom, Add64, RowsAgree;
    if chunks == [] {
      NothingLeft<Cells>(skipped, returned, offset, count);
    } else {
      var n := |chunks[0]|;
      SameLength(cols, s, chunks[0], s', chunks'[0]);
      if Add64(skipped, n) <= offset {
        Skip(chunks, skipped, returned, offset, count);
        Skip(chunks', skipped, returned, offset, count);
        LimitedChunksAgree(cols, s, chunks[1..], s', chunks'[1..], Add64(skipped, n), returned, offset, count);
      } else {
        Take(chunks, skipped, returned, offset, count);
        Take(chunks', skipped, returned, offset, count);
        var start, end := offset - skipped, SliceEnd(n, offset - skipped, count - returned);
        if start < end {
          var a, a' := chunks[0][start..end], chunks'[0][start..end];
          SliceAgrees(cols, s, chunks[0], s', chunks'[0], start, end);
          if returned + (end - start) < count {
            LimitedChunksAgree(cols, s, chunks[1..], s', chunks'[1..], offset, returned + (end - start), offset, count);
            ConsAgree(cols, s, a, LimitFrom(chunks[1..], offset, returned + (end - start), offset, count),
              s', a', LimitFrom(chunks'[1..], offset, returned + (end - start), offset, count));
          } else {
            ConsAgree(cols, s, a, [], s', a', []);
            assert [a] + [] == [a] && [a'] + [] == [a'];
          }
        }
      }
    }
  }

  lemma SliceAgrees(cols: set<Str>, s: Schema, chunk: Chunk, s': Schema, chunk': Chunk, start: nat, end: nat)
    requires RowsAgree(cols, s, chunk, s', chunk') && start <= end <= |chunk|
    ensures RowsAgree(cols, s, chunk[start..end], s', chunk'[start..end])
  {
    hide AgreeOn, RowValues;
  }

  lemma {:induction false} ProjectedRowSame(en: Ops, exprs: seq<Expression>, out: Schema, row: RowMap, row': RowMap)
    requires |exprs| == |out| && forall i :: 0 <= i < |exprs| ==> Eval(en, exprs[i], row) == Eval(en, exprs[i], row')
    ensures ProjectRow(en, exprs, out, row) == ProjectRow(en, exprs, out, row')
  {
    hide Eval, AppendCell;
    if exprs != [] {
      var n := |exprs| - 1;
      ProjectedRowSame(en, exprs[..n], out[..n], row, row');
    }
  }

  lemma {:induction false} ProjectedRowsSame(en: Ops, exprs: seq<Expression>, out: Schema, s: Schema, chunk: Chunk, s': Schema, chunk': Chunk)
    requires |exprs| == |out| && RowsAgree(RefsOfAll(exprs), s, chunk, s', chunk')
    ensures ProjectRows(en, exprs, s, out, chunk) == ProjectRows(en, exprs, s', out, chunk')
  {
    hide AgreeOn, RowValues, ProjectRow;
    if chunk != [] {
      var n := |chunk| - 1;
      var row, row' := RowValues(s, chunk[n]), RowValues(s', chunk'[n]);
      ProjectedRowsSame(en, exprs, out, s, chunk[..n], s', chunk'[..n]);
      forall i | 0 <= i < |exprs| ensures Eval(en, exprs[i], row) == Eval(en, exprs[i], row') {
        RefsCover(exprs, row, row', i);
        EvalSeesRefs(en, exprs[i], row, row');
      }
      ProjectedRowSame(en, exprs, out, row, row');
    }
  }

  /** A projection sees only the columns its expressions reference. */
  lemma {:induction false} ProjectedChunksSame(en: Ops, exprs: seq<Expression>, out: Schema, s: Schema, chunks: seq<Chunk>, s': Schema, chunks': seq<Chunk>)
    requires |exprs| == |out| && ChunksAgree(RefsOfAll(exprs), s, chunks, s', chunks')
    ensures ProjectChunks(en, exprs, s, out, chunks) == ProjectChunks(en, exprs, s', out, chunks')
  {
    hide RowsAgree, ProjectRows;
    if chunks != [] {
      var n := |chunks| - 1;
      ProjectedRowsSame(en, exprs, out, s, chunks[n], s', chunks'[n]);
      ProjectedChunksSame(en, exprs, out, s, chunks[..n], s', chunks'[..n]);
    }
  }

  // ----- whole plans -----

  /** The pruned node fails alike, or delivers the same rows as far as `needed` can see. */
  ghost predicate Delivers(needed: set<Str>, r: ExecResult, r': ExecResult)
    requires r.Relation? ==> AllShaped(r.chunks, r.schema)
    requires r'.Relation? ==> AllShaped(r'.chunks, r'.schema)
  {
    if r.Failure? then r' == r
    else r'.Relation? && ChunksAgree(needed, r.schema, r.chunks, r'.schema, r'.chunks)
  }

  lemma SelfAgrees(needed: set<Str>, s: Schema, chunks: seq<Chunk>)
    requires AllShaped(chunks, s)
    ensures ChunksAgree(needed, s, chunks, s, chunks)
  {
  }

  lemma FewerAgree(more: set<Str>, fewer: set<Str>, s: Schema, chunks: seq<Chunk>, s': Schema, chunks': seq<Chunk>)
    requires ChunksAgree(more, s, chunks, s', chunks') && fewer <= more
    ensures ChunksAgree(fewer, s, chunks, s', chunks')
  {
    hide RowValues;
    forall i | 0 <= i < |chunks| ensures RowsAgree(fewer, s, chunks[i], s', chunks'[i]) {
      assert RowsAgree(more, s, chunks[i], s', chunks'[i]);
    }
  }

  lemma {:induction false} PruneAgrees(db: Database, p: Plan, needed: set<Str>)
    requires WellFormed(p) && Supplied(p, needed)
    ensures WellFormed(PruneNode(p, needed))
    ensures Delivers(needed, Exec(db, p), Exec(db, PruneNode(p, needed)))
    ensures p.Project? || p.Aggregating? ==> Exec(db, PruneNode(p, needed)) == Exec(db, p)
  {
    hide ChunksAgree, ScanDescribes, PruneScan, BuildChunks, FilterChunks, ProjectChunks, Aggregated, LimitFrom, RefsOfAll, AggRefs;
    match p {
      case NoPlan =>
      case Scan(_, _, _, _) => PruneScanAgrees(db, p, needed);
      case Filter(c, cond) =>
        PruneAgrees(db, c, needed + Refs(cond));
        var r, r' := Exec(db, c), Exec(db, PruneNode(c, needed + Refs(cond)));
        if r.Relation? {
          FilteredChunksAgree(db.en, cond, needed + Refs(cond), r.schema, r.chunks, r'.schema, r'.chunks);
          FewerAgree(needed + Refs(cond), needed, r.schema, FilterChunks(db.en, cond, r.schema, r.chunks),
            r'.schema, FilterChunks(db.en, cond, r'.schema, r'.chunks));
        }
      case Project(c, exprs, schema) =>
        PruneAgrees(db, c, RefsOfAll(exprs));
        var r, r' := Exec(db, c), Exec(db, PruneNode(c, RefsOfAll(exprs)));
        if r.Relation? {
          ProjectedChunksSame(db.en, exprs, schema, r.schema, r.chunks, r'.schema, r'.chunks);
        }
        Reflexive(needed, Exec(db, p));
      case Aggregating(c, agg, schema) =>
        PruneAgrees(db, c, AggRefs(agg));
        var r, r' := Exec(db, c), Exec(db, PruneNode(c, AggRefs(agg)));
        if r.Relation? {
          AggregatedSeesRefs(db.en, agg, schema, r.schema, r.chunks, r'.schema, r'.chunks);
        }
        Reflexive(needed, Exec(db, p));
      case Limit(c, offset, count) =>
        PruneAgrees(db, c, needed);
        var r, r' := Exec(db, c), Exec(db, PruneNode(c, needed));
        if r.Relation? {
          LimitedChunksAgree(needed, r.schema, r.chunks, r'.schema, r'.chunks, 0, 0, offset, count);
        }
    }
  }

  lemma Reflexive(needed: set<Str>, r: ExecResult)
    requires r.Relation? ==> AllShaped(r.chunks, r.schema)
    ensures Delivers(needed, r, r)
  {
    if r.Relation? { SelfAgrees(needed, r.schema, r.chunks); }
  }

  /** What stands under the limits at the top. */
  function Body(p: Plan): Plan {
    if p.Limit? then Body(p.child) else p
  }

  lemma {:induction false} PruneExact(db: Database, p: Plan, needed: set<Str>)
    requires WellFormed(p) && Supplied(p, needed) && !Body(p).Filter?
    requires Body(p).Scan? ==> needed == {}
    ensures WellFormed(PruneNode(p, needed)) && Exec(db, PruneNode(p, needed)) == Exec(db, p)
    decreases p, 1
  {
    hide Supplied, Exec;
    if p.Limit? {
      PruneExactLimit(db, p, needed);
    } else if p.Scan? || p.NoPlan? {
      assert PruneNode(p, needed) == p;
    } else {
      PruneAgrees(db, p, needed);
    }
  }

  lemma {:induction false} PruneExactLimit(db: Database, p: Plan, needed: set<Str>)
    requires p.Limit? && WellFormed(p) && Supplied(p, needed) && !Body(p).Filter?
    requires Body(p).Scan? ==> needed == {}
    ensures WellFormed(PruneNode(p, needed)) && Exec(db, PruneNode(p, needed)) == Exec(db, p)
    decreases p, 0
  {
    hide LimitChunks;
    PruneExact(db, p.child, needed);
  }

  /** Nothing is needed of a scan that no expression stands above. */
  lemma {:induction false} NothingNeeded(p: Plan)
    requires Body(p).Scan?
    ensures GatherNeeded(p) == {}
  {
    if p.Limit? { NothingNeeded(p.child); }
  }

  lemma {:induction false} NeededAbove(p: Plan, needed: set<Str>, needed': set<Str>)
    requires Supplied(p, needed) && (Body(p).Project? || Body(p).Aggregating? || Body(p).NoPlan?)
    ensures Supplied(p, needed')
  {
    if p.Limit? { NeededAbove(p.child, needed, needed'); }
  }

  /** Pruning changes neither rows, chunk boundaries, schema nor errors of a plan whose top, under
      its limits, is a projection, an aggregation or a bare scan. */
  lemma PrunePreserves(db: Database, p: Plan)
    requires WellFormed(p) && Supplied(p, {}) && !Body(p).Filter?
    ensures WellFormed(Prune(p)) && Exec(db, Prune(p)) == Exec(db, p)
  {
    hide Supplied, Exec, GatherNeeded;
    BodyIsNoLimit(p);
    if Body(p).Scan? {
      NothingNeeded(p);
    } else {
      NeededAbove(p, {}, GatherNeeded(p));
    }
    PruneExact(db, p, GatherNeeded(p));
  }

  lemma {:induction false} BodyIsNoLimit(p: Plan)
    ensures !Body(p).Limit?
  {
    if p.Limit? { BodyIsNoLimit(p.child); }
  }

  lemma {:induction false} DroppedColumnShortens(columns: seq<Str>, needed: set<Str>, i: nat)
    requires i < |columns| && columns[i] !in needed
    ensures |KeepNeeded(columns, needed)| < |columns|
  {
    var n := |columns| - 1;
    if i < n { DroppedColumnShortens(columns[..n], needed, i); }
  }

  lemma PrunedScanDrops(scan: Plan, needed: set<Str>, i: nat)
    requires scan.Scan? && Supplied(scan, needed) && needed != {}
    requires i < |scan.schema| && scan.schema[i].name !in needed
    ensures scan.schema[i] !in PruneScan(scan, needed).schema
  {
    var pruned := KeepNeeded(scan.columns, needed);
    DroppedColumnShortens(scan.columns, needed, i);
    forall c ensures c in pruned <==> c in scan.columns && c in needed { KeptColumns(scan.columns, needed, c); }
    forall c | c in pruned ensures HasColumn(scan.schema, c) {}
    hide KeepNeeded, PrunedSchema, Names;
    PrunedSchemaMeans(scan.schema, pruned);
  }

  lemma PrunedFilterScan(scan: Plan, cond: Expression)
    requires scan.Scan?
    ensures SchemaOf(Prune(Filter(scan, cond))) == PruneScan(scan, Refs(cond)).schema
  {
    hide PruneScan;
    var p := Filter(scan, cond);
    assert GatherNeeded(scan) == {};
    assert GatherNeeded(p) == Refs(cond);
    assert Refs(cond) + Refs(cond) == Refs(cond);
    assert PruneNode(p, Refs(cond)) == Filter(PruneNode(scan, Refs(cond)), cond);
  }

  /** Every scan keeps only columns its consumers mention; a scan of which nothing is needed keeps all. */
  ghost predicate KeepsNeeded(p: Plan, needed: set<Str>) {
    match p
    case NoPlan => true
    case Scan(_, columns, _, schema) =>
      needed == {} || ((forall c :: c in columns ==> c in needed) && (forall d :: d in schema ==> d.name in needed))
    case Filter(c, cond) => KeepsNeeded(c, needed + Refs(cond))
    case Project(c, exprs, _) => KeepsNeeded(c, RefsOfAll(exprs))
    case Aggregating(c, agg, _) => KeepsNeeded(c, AggRefs(agg))
    case Limit(c, _, _) => KeepsNeeded(c, needed)
  }

  lemma {:induction false} AllKept(columns: seq<Str>, needed: set<Str>)
    requires |KeepNeeded(columns, needed)| == |columns|
    ensures forall c :: c in columns ==> c in needed
  {
    forall c | c in columns ensures c in needed {
      var i :| 0 <= i < |columns| && columns[i] == c;
      if c !in needed { DroppedColumnShortens(columns, needed, i); }
    }
  }

  lemma PrunedScanKeepsNeeded(p: Plan, needed: set<Str>)
    requires p.Scan? && Supplied(p, needed)
    ensures KeepsNeeded(PruneScan(p, needed), needed)
  {
    if needed != {} {
      var pruned := KeepNeeded(p.columns, needed);
      forall c ensures c in pruned <==> c in p.columns && c in needed { KeptColumns(p.columns, needed, c); }
      forall c | c in p.columns ensures HasColumn(p.schema, c) {}
      hide KeepNeeded, PrunedSchema, HasColumn;
      if |pruned| < |p.columns| {
        PrunedSchemaMeans(p.schema, pruned);
      } else {
        AllKept(p.columns, needed);
        forall d | d in p.schema ensures d.name in needed {
          var i :| 0 <= i < |p.schema| && p.schema[i] == d;
          assert p.columns[i] == d.name;
        }
      }
    }
  }

  /** Pruning is complete: no scan keeps a column that nothing above it mentions. */
  lemma {:induction false} PruneKeepsNeeded(p: Plan, needed: set<Str>)
    requires Supplied(p, needed)
    ensures KeepsNeeded(PruneNode(p, needed), needed)
  {
    hide PruneScan, RefsOfAll, AggRefs;
    match p {
      case Scan(_, _, _, _) => PrunedScanKeepsNeeded(p, needed);
      case Filter(c, cond) => PruneKeepsNeeded(c, needed + Refs(cond));
      case Project(c, exprs, _) => PruneKeepsNeeded(c, RefsOfAll(exprs));
      case Aggregating(c, agg, _) => PruneKeepsNeeded(c, AggRefs(agg));
      case Limit(c, _, _) => PruneKeepsNeeded(c, needed);
      case _ =>
    }
  }

  /** Directly under a filter the rule loses every column the filter does not mention: pruning is
      right only after pushdown has removed the filters. */
  lemma PruningAFilterLosesColumns(scan: Plan, cond: Expression, i: nat)
    requires scan.Scan? && Supplied(Filter(scan, cond), {}) && Refs(cond) != {}
    requires i < |scan.schema| && scan.schema[i].name !in Refs(cond)
    ensures scan.schema[i] in SchemaOf(Filter(scan, cond))
    ensures scan.schema[i] !in SchemaOf(Prune(Filter(scan, cond)))
  {
    hide PruneScan, Prune;
    assert {} + Refs(cond) == Refs(cond);
    PrunedFilterScan(scan, cond);
    PrunedScanDrops(scan, Refs(cond), i);
  }
}
