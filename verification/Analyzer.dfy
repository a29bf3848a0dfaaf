/** From a resolved SELECT over one table to its plan, and what the plan returns. */
module Analyzer {
  import opened Keys
  import opened SortedEntries
  import opened Values
  import opened Expressions
  import opened Chunks
  import opened Aggregation
  import opened Limits
  import opened Plans
  import opened PlanRules
  import opened ColumnPruning

  /** An item of the select list; one without alias has the empty alias. */
  datatype Item = Item(expr: Expression, alias: Str)

  /** A resolved SELECT; `lit` prints literals and operators. */
  datatype Select = Select(
    table: Str, columns: Schema, items: seq<Item>, where: Option<Expression>, groupBy: seq<Expression>,
    limit: Option<(Uint64, Uint64)>, lit: Expression -> Str)

  // ----- names -----

  /** An expression as it prints, the name of its column when it has no alias; `lit` prints literals and operators. */
  function Text(lit: Expression -> Str, e: Expression): Str {
    match e
    case ColumnExpr(name) => name
    case ResolvedColumnExpr(name, _) => name
    case FuncExpr(name, args) => name + Bytes("(") + ArgTexts(lit, args) + Bytes(")")
    case StarExpr => Bytes("*")
    case _ => lit(e)
  }

  function ArgTexts(lit: Expression -> Str, args: seq<Expression>): Str {
    if args == [] then []
    else Text(lit, args[0]) + if |args| == 1 then [] else Bytes(", ") + ArgTexts(lit, args[1..])
  }

  function Lower(s: Str): (r: Str)
    ensures |r| == |s|
  {
    seq(|s|, i requires 0 <= i < |s| => if 65 <= s[i] <= 90 then s[i] + 32 else s[i])
  }

  lemma LowerSplits(a: Str, b: Str)
    ensures Lower(a + b) == Lower(a) + Lower(b)
  {
  }

  // ----- aggregate calls -----

  function ParseAggFunc(name: Str): AggFunc {
    var l := Lower(name);
    if l == Bytes("count") then AggCount
    else if l == Bytes("sum") then AggSum
    else if l == Bytes("min") then AggMin
    else if l == Bytes("max") then AggMax
    else if l == Bytes("avg") then AggAvg
    else AggUnknown
  }

  predicate IsAggregate(name: Str) {
    ParseAggFunc(name) != AggUnknown
  }

  lemma LowerNames()
    ensures Lower(Bytes("COUNT")) == Bytes("count") && Lower(Bytes("SUM")) == Bytes("sum") && Lower(Bytes("MIN")) == Bytes("min")
    ensures Lower(Bytes("MAX")) == Bytes("max") && Lower(Bytes("AVG")) == Bytes("avg")
  {
  }

  /** The calls that aggregate: COUNT, SUM, MIN, MAX and AVG, in any letter case. */
  lemma AggregateIff(name: Str, fn: AggFunc)
    ensures ParseAggFunc(name) == fn && fn != AggUnknown <==> fn != AggUnknown && Lower(name) == Lower(AggName(fn))
    ensures IsAggregate(name) <==> exists f: AggFunc :: f != AggUnknown && Lower(name) == Lower(AggName(f))
  {
    LowerNames();
    NamesDiffer();
    hide Lower;
    if IsAggregate(name) { assert Lower(name) == Lower(AggName(ParseAggFunc(name))); }
  }

  lemma NamesDiffer()
    ensures Bytes("count") != Bytes("sum") && Bytes("count") != Bytes("min") && Bytes("count") != Bytes("max") && Bytes("count") != Bytes("avg")
    ensures Bytes("sum") != Bytes("min") && Bytes("sum") != Bytes("max") && Bytes("sum") != Bytes("avg")
    ensures Bytes("min") != Bytes("max") && Bytes("min") != Bytes("avg") && Bytes("max") != Bytes("avg")
  {
    assert |Bytes("count")| == 5 && |Bytes("sum")| == 3;
    assert Bytes("sum")[0] != Bytes("min")[0] && Bytes("min")[1] != Bytes("max")[1] && Bytes("avg")[0] != Bytes("sum")[0];
    assert Bytes("avg")[0] != Bytes("min")[0] && Bytes("avg")[0] != Bytes("max")[0] && Bytes("sum")[0] != Bytes("max")[0];
  }

  predicate HasAggregate(e: Expression) {
    match e
    case FuncExpr(name, args) => IsAggregate(name) || AnyHasAggregate(args)
    case BinaryExpr(_, l, r) => HasAggregate(l) || HasAggregate(r)
    case UnaryExpr(_, x) => HasAggregate(x)
    case _ => false
  }

  predicate AnyHasAggregate(es: seq<Expression>) {
    es != [] && (HasAggregate(es[0]) || AnyHasAggregate(es[1..]))
  }

  /** The outermost aggregate calls, from the left. */
  function Collect(e: Expression): seq<AggExpr> {
    match e
    case FuncExpr(name, args) =>
      if IsAggregate(name) then [AggExpr(ParseAggFunc(name), if args == [] then None else Some(args[0]))] else CollectAll(args)
    case BinaryExpr(_, l, r) => Collect(l) + Collect(r)
    case UnaryExpr(_, x) => Collect(x)
    case _ => []
  }

  function CollectAll(es: seq<Expression>): seq<AggExpr> {
    if es == [] then [] else Collect(es[0]) + CollectAll(es[1..])
  }

  /** The test that makes a SELECT an aggregation finds exactly the expressions that hold a call to collect. */
  lemma {:induction false} HasAggregateIff(e: Expression)
    ensures HasAggregate(e) <==> Collect(e) != []
  {
    match e {
      case FuncExpr(_, args) => AnyHasAggregateIff(args);
      case BinaryExpr(_, l, r) =>
        HasAggregateIff(l);
        HasAggregateIff(r);
      case UnaryExpr(_, x) => HasAggregateIff(x);
      case _ =>
    }
  }

  lemma {:induction false} AnyHasAggregateIff(es: seq<Expression>)
    ensures AnyHasAggregate(es) <==> CollectAll(es) != []
  {
    if es != [] {
      HasAggregateIff(es[0]);
      AnyHasAggregateIff(es[1..]);
    }
  }

  function AggName(fn: AggFunc): Str {
    match fn
    case AggCount => Bytes("COUNT")
    case AggSum => Bytes("SUM")
    case AggMin => Bytes("MIN")
    case AggMax => Bytes("MAX")
    case AggAvg => Bytes("AVG")
    case AggUnknown => Bytes("UNKNOWN")
  }

  function AggText(lit: Expression -> Str, a: AggExpr): Str {
    AggName(a.fn) + Bytes("(") + (if a.arg.None? then Bytes("*") else Text(lit, a.arg.value)) + Bytes(")")
  }

  // ----- types -----

  function ColumnType(columns: Schema, name: Str): DataType {
    var i := ColIndex(columns, name);
    if i.Some? then columns[i.value].typ else TypeNull
  }

  function TypeOf(columns: Schema, e: Expression): DataType {
    match e
    case LiteralExpr(v) => v.typ
    case ResolvedColumnExpr(name, _) => ColumnType(columns, name)
    case BinaryExpr(op, l, r) =>
      if op.OpAdd? || op.OpSub? || op.OpMul? || op.OpDiv? then
        if TypeOf(columns, l).TypeFloat64? || TypeOf(columns, r).TypeFloat64? then TypeFloat64 else TypeInt64
      else TypeBool
    case UnaryExpr(op, x) => if op.OpNot? then TypeBool else TypeOf(columns, x)
    case FuncExpr(name, args) =>
      (match ParseAggFunc(name)
       case AggCount => TypeInt64
       case AggAvg => TypeFloat64
       case AggUnknown => TypeNull
       case _ => if args == [] then TypeNull else TypeOf(columns, args[0]))
    case _ => TypeNull
  }

  /** The type of an aggregate's column: that of its argument, if it is a column or a literal. */
  function AggType(columns: Schema, a: AggExpr): DataType {
    if a.fn.AggCount? then TypeInt64
    else if a.arg.None? then TypeNull
    else match a.arg.value
      case LiteralExpr(v) => v.typ
      case ResolvedColumnExpr(name, _) => ColumnType(columns, name)
      case _ => TypeNull
  }

  // ----- the plan -----

  function NameSet(schema: Schema): set<Str> {
    set c | c in Names(schema)
  }

  function WhereRefs(sel: Select): set<Str> {
    if sel.where.Some? then Refs(sel.where.value) else {}
  }

  function ItemRefs(columns: Schema, items: seq<Item>): set<Str> {
    if items == [] then {}
    else (if items[0].expr.StarExpr? then NameSet(columns) else Refs(items[0].expr)) + ItemRefs(columns, items[1..])
  }

  function Mentioned(sel: Select): set<Str> {
    WhereRefs(sel) + ItemRefs(sel.columns, sel.items) + RefsOfAll(sel.groupBy)
  }

  /** The columns to scan, in table order; all of them when the query mentions none. */
  function Required(columns: Schema, mentioned: set<Str>): (r: Schema)
    ensures |r| <= |columns|
  {
    if columns == [] then []
    else
      var n := |columns| - 1;
      Required(columns[..n], mentioned) + if columns[n].name in mentioned then [columns[n]] else []
  }

  function ScanSchema(sel: Select): Schema {
    var r := Required(sel.columns, Mentioned(sel));
    if r == [] then sel.columns else r
  }

  function SelectScan(sel: Select): Plan {
    Scan(sel.table, Names(ScanSchema(sel)), sel.where, ScanSchema(sel))
  }

  function Aggs(items: seq<Item>): seq<AggExpr> {
    if items == [] then [] else Collect(items[0].expr) + Aggs(items[1..])
  }

  predicate IsGrouped(sel: Select) {
    sel.groupBy != [] || exists i :: 0 <= i < |sel.items| && HasAggregate(sel.items[i].expr)
  }

  function AggregateOf(sel: Select): Aggregate {
    Aggregate(sel.groupBy, Aggs(sel.items))
  }

  function AggSchema(sel: Select): (r: Schema)
    ensures |r| == |AggregateOf(sel).groupBy| + |AggregateOf(sel).aggs|
  {
    var aggs := Aggs(sel.items);
    seq(|sel.groupBy|, i requires 0 <= i < |sel.groupBy| => ColumnDef(Text(sel.lit, sel.groupBy[i]), TypeOf(sel.columns, sel.groupBy[i]))) +
    seq(|aggs|, i requires 0 <= i < |aggs| => ColumnDef(AggText(sel.lit, aggs[i]), AggType(sel.columns, aggs[i])))
  }

  /** The select list, `*` expanded. */
  function ListExprs(columns: Schema, items: seq<Item>): seq<Expression> {
    if items == [] then []
    else
      (if items[0].expr.StarExpr? then seq(|columns|, i requires 0 <= i < |columns| => ResolvedColumnExpr(columns[i].name, i))
       else [items[0].expr]) + ListExprs(columns, items[1..])
  }

  function ItemColumn(sel: Select, item: Item): ColumnDef {
    ColumnDef(if item.alias != [] then item.alias else Text(sel.lit, item.expr), TypeOf(sel.columns, item.expr))
  }

  /** The names and types of the select list's columns. */
  function ListSchema(sel: Select, items: seq<Item>): (r: Schema)
    ensures |r| == |ListExprs(sel.columns, items)|
  {
    if items == [] then []
    else (if items[0].expr.StarExpr? then sel.columns else [ItemColumn(sel, items[0])]) + ListSchema(sel, items[1..])
  }

  /** Where a text stands last. */
  function LastOf(texts: seq<Str>, text: Str): (r: Option<nat>)
    ensures r.Some? ==> r.value < |texts| && texts[r.value] == text && forall j :: r.value < j < |texts| ==> texts[j] != text
    ensures r.None? ==> text !in texts
  {
    if texts == [] then None
    else
      var n := |texts| - 1;
      if texts[n] == text then Some(n) else LastOf(texts[..n], text)
  }

  /** The aggregates as they print, in lower case. */
  function AggTexts(lit: Expression -> Str, aggs: seq<AggExpr>): (r: seq<Str>)
    ensures |r| == |aggs|
  {
    seq(|aggs|, i requires 0 <= i < |aggs| => Lower(AggText(lit, aggs[i])))
  }

  /** A call to an aggregate becomes a reference to the column of the last aggregate that prints like it. */
  function Remap(lit: Expression -> Str, aggs: seq<AggExpr>, e: Expression): Expression {
    if e.FuncExpr? && IsAggregate(e.fname) then
      var j := LastOf(AggTexts(lit, aggs), Lower(Text(lit, e)));
      if j.Some? then ResolvedColumnExpr(AggText(lit, aggs[j.value]), 0) else e
    else e
  }

  function OutputExprs(sel: Select): (r: seq<Expression>)
    ensures |r| == |ListExprs(sel.columns, sel.items)|
  {
    var list := ListExprs(sel.columns, sel.items);
    if IsGrouped(sel) then seq(|list|, i requires 0 <= i < |list| => Remap(sel.lit, Aggs(sel.items), list[i])) else list
  }

  /** A lone `*`, and a list of bare columns and literals, get no projection. */
  predicate NeedsProjection(items: seq<Item>) {
    && !(|items| == 1 && items[0].expr.StarExpr?)
    && exists i :: 0 <= i < |items| &&
         (items[i].alias != [] || items[i].expr.FuncExpr? || items[i].expr.BinaryExpr? || items[i].expr.UnaryExpr?)
  }

  /** A lone `*`, or columns, literals and `*` without alias. */
  ghost predicate IsBare(items: seq<Item>) {
    || (|items| == 1 && items[0].expr.StarExpr?)
    || forall i :: 0 <= i < |items| ==>
         && items[i].alias == []
         && (items[i].expr.ColumnExpr? || items[i].expr.ResolvedColumnExpr? || items[i].expr.LiteralExpr? || items[i].expr.StarExpr?)
  }

  lemma BareIff(items: seq<Item>)
    ensures NeedsProjection(items) <==> !IsBare(items)
  {
  }

  function FilteredScan(sel: Select): (r: Plan)
    ensures WellFormed(r)
  {
    if sel.where.Some? then Filter(SelectScan(sel), sel.where.value) else SelectScan(sel)
  }

  function GroupedPlan(sel: Select): (r: Plan)
    ensures WellFormed(r)
  {
    if IsGrouped(sel) then Aggregating(FilteredScan(sel), AggregateOf(sel), AggSchema(sel)) else FilteredScan(sel)
  }

  function ListedPlan(sel: Select): (r: Plan)
    ensures WellFormed(r)
  {
    if NeedsProjection(sel.items) then Project(GroupedPlan(sel), OutputExprs(sel), ListSchema(sel, sel.items)) else GroupedPlan(sel)
  }

  function BuildSelect(sel: Select): (r: Plan)
    ensures WellFormed(r)
  {
    if sel.limit.Some? then Limit(ListedPlan(sel), sel.limit.value.0, sel.limit.value.1) else ListedPlan(sel)
  }

  /** What resolution guarantees: column names are distinct, and every reference is to a column of the table. */
  ghost predicate Resolved(sel: Select) {
    && (forall i, j :: 0 <= i < j < |sel.columns| ==> sel.columns[i].name != sel.columns[j].name)
    && Mentioned(sel) <= NameSet(sel.columns)
  }

  lemma {:induction false} RequiredMeans(columns: Schema, mentioned: set<Str>)
    requires forall i, j :: 0 <= i < j < |columns| ==> columns[i].name != columns[j].name
    ensures var r := Required(columns, mentioned);
      && (forall d :: d in r <==> d in columns && d.name in mentioned)
      && (forall i, j :: 0 <= i < j < |r| ==> r[i].name != r[j].name)
  {
    if columns != [] {
      var n := |columns| - 1;
      RequiredMeans(columns[..n], mentioned);
      assert columns == columns[..n] + [columns[n]];
      var before := Required(columns[..n], mentioned);
      forall i | 0 <= i < |before| ensures before[i].name != columns[n].name { assert before[i] in columns[..n]; }
    }
  }

  lemma ScanDeliversMentioned(sel: Select)
    requires Resolved(sel)
    ensures ScanDescribes(Names(ScanSchema(sel)), ScanSchema(sel))
    ensures forall c :: c in Mentioned(sel) ==> HasColumn(ScanSchema(sel), c)
  {
    hide Mentioned;
    RequiredMeans(sel.columns, Mentioned(sel));
    var schema := ScanSchema(sel);
    forall c | c in Mentioned(sel) ensures HasColumn(schema, c) {
      assert c in Names(sel.columns);
      var i :| 0 <= i < |sel.columns| && sel.columns[i].name == c;
      if Required(sel.columns, Mentioned(sel)) != [] {
        assert sel.columns[i] in schema;
      }
    }
  }

  // ----- which columns the parts see -----

  lemma {:induction false} RefsConcat(a: seq<Expression>, b: seq<Expression>)
    ensures RefsOfAll(a + b) == RefsOfAll(a) + RefsOfAll(b)
  {
    if a == [] {
      assert a + b == b;
    } else {
      assert (a + b)[1..] == a[1..] + b;
      RefsConcat(a[1..], b);
    }
  }

  lemma {:induction false} ArgRefsConcat(a: seq<AggExpr>, b: seq<AggExpr>)
    ensures ArgRefs(a + b) == ArgRefs(a) + ArgRefs(b)
  {
    if b == [] {
      assert a + b == a;
    } else {
      var n := |b| - 1;
      assert (a + b)[..|a + b| - 1] == a + b[..n];
      ArgRefsConcat(a, b[..n]);
    }
  }

  lemma {:induction false} CollectedRefs(e: Expression)
    ensures ArgRefs(Collect(e)) <= Refs(e)
  {
    match e {
      case FuncExpr(name, args) => CollectedAllRefs(args); if IsAggregate(name) && args != [] { OneArgRefs(Collect(e)[0]); }
      case BinaryExpr(_, l, r) =>
        CollectedRefs(l);
        CollectedRefs(r);
        ArgRefsConcat(Collect(l), Collect(r));
      case UnaryExpr(_, x) => CollectedRefs(x);
      case _ =>
    }
  }

  lemma OneArgRefs(a: AggExpr)
    ensures ArgRefs([a]) == if a.arg.Some? then Refs(a.arg.value) else {}
  {
    assert [a][..0] == [];
  }

  lemma {:induction false} CollectedAllRefs(es: seq<Expression>)
    ensures ArgRefs(CollectAll(es)) <= RefsOfAll(es)
  {
    if es != [] {
      CollectedRefs(es[0]);
      CollectedAllRefs(es[1..]);
      ArgRefsConcat(Collect(es[0]), CollectAll(es[1..]));
    }
  }

  /** The aggregates' arguments and the select list refer to what the items mention. */
  lemma {:induction false} ListRefs(columns: Schema, items: seq<Item>)
    ensures ArgRefs(Aggs(items)) <= ItemRefs(columns, items) && RefsOfAll(ListExprs(columns, items)) <= ItemRefs(columns, items)
  {
    if items != [] {
      ListRefs(columns, items[1..]);
      CollectedRefs(items[0].expr);
      ArgRefsConcat(Collect(items[0].expr), Aggs(items[1..]));
      var first := if items[0].expr.StarExpr? then seq(|columns|, i requires 0 <= i < |columns| => ResolvedColumnExpr(columns[i].name, i))
        else [items[0].expr];
      RefsConcat(first, ListExprs(columns, items[1..]));
      if items[0].expr.StarExpr? { ColumnRefs(columns, first); } else { assert [items[0].expr][1..] == []; }
    }
  }

  lemma {:induction false} ColumnRefs(columns: Schema, es: seq<Expression>)
    requires forall i :: 0 <= i < |es| ==> es[i].ResolvedColumnExpr? && es[i].name in NameSet(columns)
    ensures RefsOfAll(es) <= NameSet(columns)
  {
    hide NameSet;
    if es != [] { ColumnRefs(columns, es[1..]); }
  }

  // ----- what the plan returns -----

  /** The row under the columns of a schema, as expressions read it. */
  function ReadRow(fp: FloatOps, schema: Schema, row: RowMap): RowMap {
    RowValues(schema, FillRow(fp, schema, row))
  }

  function ReadAll(fp: FloatOps, schema: Schema, rows: seq<RowMap>): (r: seq<RowMap>)
    ensures |r| == |rows| && forall i :: 0 <= i < |rows| ==> r[i] == ReadRow(fp, schema, rows[i])
  {
    seq(|rows|, i requires 0 <= i < |rows| => ReadRow(fp, schema, rows[i]))
  }

  /** What an expression reads under a column's name is what the scan shows of that column. */
  lemma ReadRowMeans(fp: FloatOps, columns: Schema, row: RowMap, i: nat)
    requires i < |columns| && forall j, k :: 0 <= j < k < |columns| ==> columns[j].name != columns[k].name
    ensures columns[i].name in ReadRow(fp, columns, row)
    ensures Scanned(fp, columns[i], row, ReadRow(fp, columns, row)[columns[i].name])
  {
    hide RowValues, ColIndex, FillCell, Scanned;
    RowValuesByIndex(columns, FillRow(fp, columns, row), columns[i].name);
    FillCellMeans(fp, columns[i], row);
  }

  /** The rows WHERE lets through: it holds on the stored row, on which the scan tests it, and on the row as read,
      on which the filter does. */
  ghost predicate Matches(en: Ops, sel: Select, row: RowMap) {
    && sel.columns != []
    && (sel.where.Some? ==> HoldsOn(en, sel.where.value, row) && HoldsOn(en, sel.where.value, ReadRow(en.fp, sel.columns, row)))
  }

  ghost function Matching(en: Ops, sel: Select, rows: seq<RowMap>): seq<RowMap> {
    if rows == [] then []
    else (if Matches(en, sel, rows[0]) then [rows[0]] else []) + Matching(en, sel, rows[1..])
  }

  lemma {:induction false} MatchingMeans(en: Ops, sel: Select, rows: seq<RowMap>) returns (idx: seq<nat>)
    ensures PicksAt(rows, idx, Matching(en, sel, rows))
    ensures forall q: nat :: q in idx <==> q < |rows| && Matches(en, sel, rows[q])
  {
    hide Matches;
    idx := [];
    if rows != [] {
      var rest := MatchingMeans(en, sel, rows[1..]);
      idx := PickFirst(rows, rest, Matching(en, sel, rows[1..]), Matches(en, sel, rows[0]));
      forall q: nat ensures q in idx <==> q < |rows| && Matches(en, sel, rows[q]) {
        if q > 0 { assert q - 1 < |rows| - 1 ==> rows[1..][q - 1] == rows[q]; }
      }
    }
  }

  /** The scanned columns show what the expressions of the query mention as the whole table does. */
  lemma ScanReadsAlike(fp: FloatOps, sel: Select, row: RowMap)
    requires Resolved(sel)
    ensures AgreeOn(Mentioned(sel), ReadRow(fp, sel.columns, row), ReadRow(fp, ScanSchema(sel), row))
  {
    var schema := ScanSchema(sel);
    RequiredMeans(sel.columns, Mentioned(sel));
    forall c | c in Mentioned(sel) ensures HasColumn(sel.columns, c) {
      assert c in NameSet(sel.columns);
      var i :| 0 <= i < |sel.columns| && Names(sel.columns)[i] == c;
      assert sel.columns[i].name == c;
    }
    hide Mentioned, Required, RowValues, FillRow, HasColumn, SameColumns;
    SubsetSame(sel.columns, schema, Mentioned(sel));
    FilledRowsAgree(fp, Mentioned(sel), sel.columns, schema, row);
  }

  lemma PassesIsHolds(en: Ops, cond: Expression, row: RowMap)
    ensures Passes(en, cond, row) <==> HoldsOn(en, cond, row)
  {
    hide Eval, IsTruthy;
  }

  lemma FilterAsRead(en: Ops, sel: Select, row: RowMap)
    requires Resolved(sel) && sel.where.Some?
    ensures Passes(en, sel.where.value, ReadRow(en.fp, ScanSchema(sel), row)) <==>
      HoldsOn(en, sel.where.value, ReadRow(en.fp, sel.columns, row))
  {
    ScanReadsAlike(en.fp, sel, row);
    hide ReadRow, ScanSchema, Passes, HoldsOn, AgreeOn;
    assert Refs(sel.where.value) <= Mentioned(sel);
    AgreeOnFewer(Mentioned(sel), Refs(sel.where.value), ReadRow(en.fp, sel.columns, row), ReadRow(en.fp, ScanSchema(sel), row));
    PassesSeesRefs(en, sel.where.value, ReadRow(en.fp, sel.columns, row), ReadRow(en.fp, ScanSchema(sel), row));
    PassesIsHolds(en, sel.where.value, ReadRow(en.fp, sel.columns, row));
  }

  lemma FilterFirst(en: Ops, sel: Select, first: RowMap, rest: seq<RowMap>)
    requires Resolved(sel) && sel.where.Some?
    ensures var w, schema := sel.where.value, ScanSchema(sel);
      FilterRows(en, w, schema, FillRows(en.fp, schema, [first] + rest)) ==
        (if HoldsOn(en, w, ReadRow(en.fp, sel.columns, first)) then [FillRow(en.fp, schema, first)] else [])
        + FilterRows(en, w, schema, FillRows(en.fp, schema, rest))
  {
    hide ScanSchema, Passes, HoldsOn, FillRow, RowValues, Resolved;
    var filled := FillRows(en.fp, ScanSchema(sel), [first] + rest);
    FilterAsRead(en, sel, first);
    assert filled[0] == FillRow(en.fp, ScanSchema(sel), first);
    assert filled[1..] == FillRows(en.fp, ScanSchema(sel), rest);
  }

  lemma FillFirst(fp: FloatOps, schema: Schema, first: RowMap, rest: seq<RowMap>)
    ensures FillRows(fp, schema, [first] + rest) == [FillRow(fp, schema, first)] + FillRows(fp, schema, rest)
  {
    hide FillRow;
  }

  /** Selecting on the stored rows and filtering what is read of them leaves the matching rows. */
  lemma {:induction false} FilteredAreMatching(en: Ops, sel: Select, rows: seq<RowMap>)
    requires Resolved(sel) && sel.where.Some? && sel.columns != []
    ensures FilterRows(en, sel.where.value, ScanSchema(sel), FillRows(en.fp, ScanSchema(sel), Selected(en, sel.where.value, rows)))
      == FillRows(en.fp, ScanSchema(sel), Matching(en, sel, rows))
  {
    hide ScanSchema, Passes, HoldsOn, FillRows, FilterRows, Resolved;
    var w, schema := sel.where.value, ScanSchema(sel);
    if rows == [] {
      NothingFiltered(en, w, schema);
      NothingBuilt(en, schema);
    } else {
      var first, rest := rows[0], Selected(en, w, rows[1..]);
      FilteredAreMatching(en, sel, rows[1..]);
      PassesIsHolds(en, w, first);
      if Passes(en, w, first) {
        FilterFirst(en, sel, first, rest);
        FillFirst(en.fp, schema, first, Matching(en, sel, rows[1..]));
      } else {
        assert [] + rest == rest;
      }
    }
  }

  lemma {:induction false} AllMatch(en: Ops, sel: Select, rows: seq<RowMap>)
    requires sel.where.None?
    ensures Matching(en, sel, rows) == if sel.columns == [] then [] else rows
  {
    if rows != [] { AllMatch(en, sel, rows[1..]); }
  }

  lemma {:induction false} NoneMatch(en: Ops, sel: Select, rows: seq<RowMap>)
    requires sel.columns == []
    ensures Matching(en, sel, rows) == []
  {
    if rows != [] { NoneMatch(en, sel, rows[1..]); }
  }

  lemma ScanHasColumns(sel: Select)
    ensures ScanSchema(sel) == [] <==> sel.columns == []
  {
  }

  /** The filtered scan delivers the matching rows under the scanned columns. */
  lemma FilteredScanReturns(db: Database, sel: Select)
    requires Resolved(sel)
    ensures var r, schema := Exec(db, FilteredScan(sel)), ScanSchema(sel);
      && r.Relation? && r.schema == schema
      && Flatten(r.chunks) == FillRows(db.en.fp, schema, Matching(db.en, sel, Entries(db, sel.table)))
  {
    ScanHasColumns(sel);
    hide Resolved, ScanSchema, Matching, BuildChunks, FilterChunks, FilterRows, FillRows, Selected, Entries;
    var en, schema, all := db.en, ScanSchema(sel), Entries(db, sel.table);
    if sel.columns == [] {
      NoneMatch(en, sel, all);
      NothingBuilt(en, schema);
      NoChunks(en, schema, ScanEntries(db, sel.table, sel.where));
      if sel.where.Some? { NothingLeftOver(en, sel.where.value, schema); }
    } else if sel.where.None? {
      AllMatch(en, sel, all);
      BuiltRows(en.fp, schema, all);
    } else {
      var rows := Selected(en, sel.where.value, all);
      BuiltRows(en.fp, schema, rows);
      FilterFlat(en, sel.where.value, schema, BuildChunks(en.fp, schema, rows));
      FilteredAreMatching(en, sel, all);
    }
  }

  lemma NothingBuilt(en: Ops, schema: Schema)
    ensures FillRows(en.fp, schema, []) == []
  {
  }

  lemma NoChunks(en: Ops, schema: Schema, rows: seq<RowMap>)
    requires schema == []
    ensures BuildChunks(en.fp, schema, rows) == []
  {
  }

  // ----- the answer -----

  /** The rows LIMIT asks for; what becomes of counts that pass 2^64 is said in `Limits`. */
  ghost predicate Windowed(limit: Option<(Uint64, Uint64)>, all: Chunk, rows: Chunk) {
    && (limit.None? ==> rows == all)
    && (limit.Some? && |all| < TWO64 && limit.value.0 + limit.value.1 < TWO64 ==> rows == Window(all, limit.value.0, limit.value.1))
  }

  function Reads(en: Ops, sel: Select, rows: seq<RowMap>): seq<RowMap> {
    ReadAll(en.fp, sel.columns, rows)
  }

  /** Without grouping: one output row for each matching row, in table order, with the values of the select list; or
      with the scanned columns, when the list gets no projection. */
  ghost predicate PlainRows(en: Ops, sel: Select, matching: seq<RowMap>, all: Chunk) {
    if !IsBare(sel.items) then
      RowsProject(en, ListExprs(sel.columns, sel.items), ListSchema(sel, sel.items), Reads(en, sel, matching), all)
    else ScansTo(en.fp, ScanSchema(sel), matching, all)
  }

  /** The query fails at the first matching row on which an item has no value its column can hold, even one that
      LIMIT would have cut off. */
  ghost predicate PlainFails(en: Ops, sel: Select, matching: seq<RowMap>, error: ExecError) {
    && !IsBare(sel.items)
    && exists j: nat, i: nat :: RowsStop(en, ListExprs(sel.columns, sel.items), ListSchema(sel, sel.items), Reads(en, sel, matching), j, i, error)
  }

  /** With grouping: the groups of the matching rows, and the select list over their output rows. */
  ghost predicate GroupedRows(en: Ops, sel: Select, matching: seq<RowMap>, all: Chunk) {
    exists groups :: Answers(en, AggregateOf(sel), AggSchema(sel), Reads(en, sel, matching), groups) && GroupsListed(en, sel, groups, all)
  }

  ghost predicate GroupsListed(en: Ops, sel: Select, groups: Chunk, all: Chunk) {
    && Shaped(groups, AggSchema(sel))
    && if !IsBare(sel.items) then
         RowsProject(en, OutputExprs(sel), ListSchema(sel, sel.items), RowMaps(AggSchema(sel), groups), all)
       else all == groups
  }

  ghost predicate GroupedFails(en: Ops, sel: Select, matching: seq<RowMap>, error: ExecError) {
    || (error.AggregateFailed? && AnswerFails(en, AggregateOf(sel), AggSchema(sel), Reads(en, sel, matching), error.reason))
    || exists groups :: Answers(en, AggregateOf(sel), AggSchema(sel), Reads(en, sel, matching), groups) && GroupsStop(en, sel, groups, error)
  }

  ghost predicate GroupsStop(en: Ops, sel: Select, groups: Chunk, error: ExecError) {
    && !IsBare(sel.items) && Shaped(groups, AggSchema(sel))
    && exists j: nat, i: nat :: RowsStop(en, OutputExprs(sel), ListSchema(sel, sel.items), RowMaps(AggSchema(sel), groups), j, i, error)
  }

  ghost predicate AllRows(en: Ops, sel: Select, matching: seq<RowMap>, all: Chunk) {
    if IsGrouped(sel) then GroupedRows(en, sel, matching, all) else PlainRows(en, sel, matching, all)
  }

  ghost predicate Fails(en: Ops, sel: Select, matching: seq<RowMap>, error: ExecError) {
    if IsGrouped(sel) then GroupedFails(en, sel, matching, error) else PlainFails(en, sel, matching, error)
  }

  /** What a SELECT returns, given the rows that match. */
  ghost predicate Returns(en: Ops, sel: Select, matching: seq<RowMap>, r: ExecResult) {
    match r
    case Relation(_, chunks) => exists all :: AllRows(en, sel, matching, all) && Windowed(sel.limit, all, Flatten(chunks))
    case Failure(error) => Fails(en, sel, matching, error)
  }

  lemma MapsOfFilled(fp: FloatOps, schema: Schema, rows: seq<RowMap>)
    ensures RowMaps(schema, FillRows(fp, schema, rows)) == ReadAll(fp, schema, rows)
  {
    hide RowValues, FillRow;
  }

  /** On the scanned columns and on those of the table the rows read alike. */
  lemma ScansReadAlike(en: Ops, sel: Select, rows: seq<RowMap>, cols: set<Str>)
    requires Resolved(sel) && cols <= Mentioned(sel)
    ensures var scanned, read := ReadAll(en.fp, ScanSchema(sel), rows), Reads(en, sel, rows);
      |scanned| == |read| && forall j :: 0 <= j < |rows| ==> AgreeOn(cols, scanned[j], read[j])
  {
    hide ScanSchema, Mentioned, ReadRow, AgreeOn, Resolved;
    var scanned, read := ReadAll(en.fp, ScanSchema(sel), rows), Reads(en, sel, rows);
    forall j | 0 <= j < |rows| ensures AgreeOn(cols, scanned[j], read[j]) {
      ScanReadsAlike(en.fp, sel, rows[j]);
      AgreeBack(Mentioned(sel), cols, read[j], scanned[j]);
    }
  }

  lemma AgreeBack(more: set<Str>, fewer: set<Str>, row: RowMap, row': RowMap)
    requires AgreeOn(more, row, row') && fewer <= more
    ensures AgreeOn(fewer, row', row)
  {
  }

  lemma EvalsAlike(en: Ops, exprs: seq<Expression>, rows: seq<RowMap>, rows': seq<RowMap>)
    requires |rows| == |rows'| && forall j :: 0 <= j < |rows| ==> AgreeOn(RefsOfAll(exprs), rows[j], rows'[j])
    ensures forall j, i :: 0 <= j < |rows| && 0 <= i < |exprs| ==> Eval(en, exprs[i], rows[j]) == Eval(en, exprs[i], rows'[j])
  {
    hide AgreeOn, Eval, RefsOfAll;
    forall j, i | 0 <= j < |rows| && 0 <= i < |exprs| ensures Eval(en, exprs[i], rows[j]) == Eval(en, exprs[i], rows'[j]) {
      RefsCover(exprs, rows[j], rows'[j], i);
      EvalSeesRefs(en, exprs[i], rows[j], rows'[j]);
    }
  }

  lemma ProjectsAlike(en: Ops, exprs: seq<Expression>, schema: Schema, rows: seq<RowMap>, rows': seq<RowMap>, out: Chunk)
    requires |exprs| == |schema| && RowsProject(en, exprs, schema, rows, out) && |rows| == |rows'|
    requires forall j, i :: 0 <= j < |rows| && 0 <= i < |exprs| ==> Eval(en, exprs[i], rows[j]) == Eval(en, exprs[i], rows'[j])
    ensures RowsProject(en, exprs, schema, rows', out)
  {
    hide Eval, Stores;
    forall j | 0 <= j < |rows| ensures RowProjects(en, exprs, schema, rows'[j], out[j]) {
      assert RowProjects(en, exprs, schema, rows[j], out[j]);
    }
  }

  lemma StopsAlike(en: Ops, exprs: seq<Expression>, schema: Schema, rows: seq<RowMap>, rows': seq<RowMap>, j: nat, i: nat, error: ExecError)
    requires |exprs| == |schema| && RowsStop(en, exprs, schema, rows, j, i, error) && |rows| == |rows'|
    requires forall j, i :: 0 <= j < |rows| && 0 <= i < |exprs| ==> Eval(en, exprs[i], rows[j]) == Eval(en, exprs[i], rows'[j])
    ensures RowsStop(en, exprs, schema, rows', j, i, error)
  {
    hide Eval, Storable;
    forall q, k | 0 <= q < |rows| && 0 <= k < |exprs| && Computes(en, exprs[k], schema[k].typ, rows[q])
      ensures Computes(en, exprs[k], schema[k].typ, rows'[q])
    {
    }
  }

  lemma ListMentioned(sel: Select)
    ensures RefsOfAll(ListExprs(sel.columns, sel.items)) <= Mentioned(sel) && AggRefs(AggregateOf(sel)) <= Mentioned(sel)
  {
    hide RefsOfAll, ArgRefs, ItemRefs, Aggs, ListExprs;
    ListRefs(sel.columns, sel.items);
  }

  lemma PlainReturns(db: Database, sel: Select)
    requires Resolved(sel) && !IsGrouped(sel)
    ensures var r, matching := Exec(db, ListedPlan(sel)), Matching(db.en, sel, Entries(db, sel.table));
      && (r.Relation? ==> PlainRows(db.en, sel, matching, Flatten(r.chunks)))
      && (r.Failure? ==> PlainFails(db.en, sel, matching, r.error))
  {
    hide Resolved, IsGrouped, FilteredScan, ScanSchema, Mentioned, Matching, Entries, FillRows, RowMaps, ProjectChunks, RowsProject, RowsStop, ScansTo,
      ListExprs, ListSchema, ReadAll, RefsOfAll, AgreeOn, Eval, Flatten, NeedsProjection, IsBare;
    var en, matching := db.en, Matching(db.en, sel, Entries(db, sel.table));
    var exprs, out, schema := ListExprs(sel.columns, sel.items), ListSchema(sel, sel.items), ScanSchema(sel);
    FilteredScanReturns(db, sel);
    BareIff(sel.items);
    var chunks := Exec(db, FilteredScan(sel)).chunks;
    if NeedsProjection(sel.items) {
      assert OutputExprs(sel) == exprs;
      var j, i := ProjectFlat(en, exprs, schema, out, chunks);
      var scanned, read := ReadAll(en.fp, schema, matching), Reads(en, sel, matching);
      MapsOfFilled(en.fp, schema, matching);
      ListMentioned(sel);
      ScansReadAlike(en, sel, matching, RefsOfAll(exprs));
      EvalsAlike(en, exprs, scanned, read);
      var r := ProjectChunks(en, exprs, schema, out, chunks);
      if r.Stop? {
        StopsAlike(en, exprs, out, scanned, read, j, i, r.error);
      } else {
        ProjectsAlike(en, exprs, out, scanned, read, Flatten(r.chunks));
      }
    } else {
      FilledScans(en.fp, schema, matching);
    }
  }

  lemma GroupedPlanReturns(db: Database, sel: Select)
    requires Resolved(sel) && IsGrouped(sel)
    ensures var r, matching := Exec(db, GroupedPlan(sel)), Matching(db.en, sel, Entries(db, sel.table));
      && (r.Relation? ==> |r.chunks| == 1 && Answers(db.en, AggregateOf(sel), AggSchema(sel), Reads(db.en, sel, matching), r.chunks[0]))
      && (r.Failure? ==> r.error.AggregateFailed? && AnswerFails(db.en, AggregateOf(sel), AggSchema(sel), Reads(db.en, sel, matching), r.error.reason))
  {
    hide Resolved, IsGrouped, FilteredScan, ScanSchema, Mentioned, Matching, Entries, FillRows, RowMaps, GroupedAnswer, Answers, AnswerFails,
      AggregateOf, AggSchema, ReadAll, AggRefs, AgreeOn, AllRowMaps, Flatten;
    var en, matching := db.en, Matching(db.en, sel, Entries(db, sel.table));
    var agg, out, schema := AggregateOf(sel), AggSchema(sel), ScanSchema(sel);
    FilteredScanReturns(db, sel);
    var chunks := Exec(db, FilteredScan(sel)).chunks;
    AllRowMapsFlat(schema, chunks);
    MapsOfFilled(en.fp, schema, matching);
    ListMentioned(sel);
    ScansReadAlike(en, sel, matching, AggRefs(agg));
    GroupedAnswerSeesRefs(en, agg, out, ReadAll(en.fp, schema, matching), Reads(en, sel, matching));
    GroupedAnswerMeans(en, agg, out, Reads(en, sel, matching));
  }

  lemma OneChunk<T>(chunk: seq<T>)
    ensures Flatten([chunk]) == chunk
  {
    FlattenCons(chunk, []);
  }

  lemma GroupedReturns(db: Database, sel: Select)
    requires Resolved(sel) && IsGrouped(sel)
    ensures var r, matching := Exec(db, ListedPlan(sel)), Matching(db.en, sel, Entries(db, sel.table));
      && (r.Relation? ==> GroupedRows(db.en, sel, matching, Flatten(r.chunks)))
      && (r.Failure? ==> GroupedFails(db.en, sel, matching, r.error))
  {
    hide Resolved, IsGrouped, GroupedPlan, Matching, Entries, RowMaps, ProjectChunks, RowsProject, RowsStop, Answers, AnswerFails,
      ListSchema, OutputExprs, AggregateOf, AggSchema, Reads, Flatten, NeedsProjection, IsBare;
    GroupedPlanReturns(db, sel);
    BareIff(sel.items);
    var g := Exec(db, GroupedPlan(sel));
    if g.Relation? {
      var groups := g.chunks[0];
      assert g.chunks == [groups];
      assert g.schema == AggSchema(sel) by { GroupedSchema(sel); }
      OneChunk(groups);
      if NeedsProjection(sel.items) {
        var j, i := ProjectFlat(db.en, OutputExprs(sel), AggSchema(sel), ListSchema(sel, sel.items), g.chunks);
      }
    }
  }

  lemma GroupedSchema(sel: Select)
    requires IsGrouped(sel)
    ensures SchemaOf(GroupedPlan(sel)) == AggSchema(sel)
  {
  }

  lemma LimitReturns(limit: (Uint64, Uint64), chunks: seq<Chunk>)
    ensures Windowed(Some(limit), Flatten(chunks), Flatten(LimitChunks(chunks, limit.0, limit.1)))
  {
    hide Window;
    if |Flatten(chunks)| < TWO64 && limit.0 + limit.1 < TWO64 { LimitWithinRange(chunks, limit.0, limit.1); }
  }

  /** SELECT from the table to the answer: which rows match, and what is returned for them. A table that is not there has
      no rows. */
  lemma SelectReturns(db: Database, sel: Select) returns (idx: seq<nat>)
    requires Resolved(sel)
    ensures var all := if sel.table in db.tables then db.tables[sel.table] else [];
      && PicksAt(all, idx, Matching(db.en, sel, all))
      && (forall q: nat :: q in idx <==> q < |all| && Matches(db.en, sel, all[q]))
      && Returns(db.en, sel, Matching(db.en, sel, all), Exec(db, BuildSelect(sel)))
  {
    hide Resolved, IsGrouped, ListedPlan, Matching, Matches, PlainRows, PlainFails, GroupedRows, GroupedFails, Windowed, Flatten, LimitChunks;
    idx := MatchingMeans(db.en, sel, Entries(db, sel.table));
    if IsGrouped(sel) { GroupedReturns(db, sel); } else { PlainReturns(db, sel); }
    var r := Exec(db, ListedPlan(sel));
    if r.Relation? {
      if sel.limit.Some? {
        LimitReturns(sel.limit.value, r.chunks);
      } else {
        NoLimit(Flatten(r.chunks));
      }
    }
  }

  lemma NoLimit(all: Chunk)
    ensures Windowed(None, all, all)
  {
  }

  // ----- select lists without projection -----

  /** The scanned columns are the selected ones, in the order of the list. */
  ghost predicate ListShown(sel: Select) {
    var list, schema := ListExprs(sel.columns, sel.items), ScanSchema(sel);
    |list| == |schema| && forall i :: 0 <= i < |list| ==> list[i].ResolvedColumnExpr? && list[i].name == schema[i].name
  }

  /** The list names columns in table order, none twice. */
  ghost predicate ListInOrder(sel: Select) {
    exists idx :: ListAt(sel, idx)
  }

  ghost predicate ListAt(sel: Select, idx: seq<nat>) {
    var list := ListExprs(sel.columns, sel.items);
    && Places(idx, |sel.columns|) && |idx| == |list|
    && forall k :: 0 <= k < |list| ==> list[k].ResolvedColumnExpr? && list[k].name == sel.columns[idx[k]].name
  }

  lemma {:induction false} ListMentions(columns: Schema, items: seq<Item>)
    ensures ItemRefs(columns, items) <= RefsOfAll(ListExprs(columns, items))
  {
    if items != [] {
      ListMentions(columns, items[1..]);
      var first := if items[0].expr.StarExpr? then seq(|columns|, i requires 0 <= i < |columns| => ResolvedColumnExpr(columns[i].name, i))
        else [items[0].expr];
      RefsConcat(first, ListExprs(columns, items[1..]));
      if items[0].expr.StarExpr? {
        forall c | c in NameSet(columns) ensures c in RefsOfAll(first) {
          var i :| 0 <= i < |columns| && Names(columns)[i] == c;
          RefsMember(first, i);
        }
      } else {
        assert [items[0].expr][1..] == [];
      }
    }
  }

  lemma {:induction false} RefsAreNames(es: seq<Expression>, c: Str)
    requires forall i :: 0 <= i < |es| ==> es[i].ResolvedColumnExpr?
    ensures c in RefsOfAll(es) <==> exists i :: 0 <= i < |es| && es[i].name == c
  {
    if es != [] {
      RefsAreNames(es[1..], c);
      if c in RefsOfAll(es[1..]) {
        var i :| 0 <= i < |es| - 1 && es[1..][i].name == c;
        assert es[i + 1].name == c;
      }
      if i :| 0 < i < |es| && es[i].name == c { assert es[1..][i - 1].name == c; }
    }
  }

  lemma {:induction false} RequiredIndexes(columns: Schema, mentioned: set<Str>) returns (idx: seq<nat>)
    ensures PicksAt(columns, idx, Required(columns, mentioned))
    ensures forall q: nat :: q in idx <==> q < |columns| && columns[q].name in mentioned
  {
    idx := [];
    if columns != [] {
      var n := |columns| - 1;
      var before := RequiredIndexes(columns[..n], mentioned);
      idx := PickLast(columns, before, Required(columns[..n], mentioned), columns[n].name in mentioned);
      forall q: nat ensures q in idx <==> q < |columns| && columns[q].name in mentioned {
        assert q < n ==> columns[..n][q] == columns[q];
      }
    }
  }

  lemma PlainMentions(sel: Select)
    requires !IsGrouped(sel)
    ensures Mentioned(sel) == WhereRefs(sel) + RefsOfAll(ListExprs(sel.columns, sel.items))
  {
    hide ItemRefs, ListExprs;
    ListMentions(sel.columns, sel.items);
    ListRefs(sel.columns, sel.items);
  }

  lemma ShownIsInOrder(sel: Select)
    requires Resolved(sel) && !IsGrouped(sel) && ListShown(sel)
    ensures ListInOrder(sel) && WhereRefs(sel) <= RefsOfAll(ListExprs(sel.columns, sel.items))
  {
    hide Mentioned, RefsOfAll, ListExprs, IsGrouped;
    PlainMentions(sel);
    var list := ListExprs(sel.columns, sel.items);
    var idx := RequiredIndexes(sel.columns, Mentioned(sel));
    if Required(sel.columns, Mentioned(sel)) == [] { idx := seq(|sel.columns|, i => i); }
    assert ListAt(sel, idx);
    forall c | c in WhereRefs(sel) ensures c in RefsOfAll(list) { ListedColumn(sel, idx, c); }
  }

  lemma ListedColumn(sel: Select, idx: seq<nat>, c: Str)
    requires ListAt(sel, idx) && c in NameSet(sel.columns)
    requires forall q: nat :: q < |sel.columns| && sel.columns[q].name == c ==> q in idx
    ensures c in RefsOfAll(ListExprs(sel.columns, sel.items))
  {
    hide RefsOfAll, ListExprs;
    var list := ListExprs(sel.columns, sel.items);
    var q :| 0 <= q < |sel.columns| && Names(sel.columns)[q] == c;
    assert sel.columns[q].name == c;
    var k :| 0 <= k < |idx| && idx[k] == q;
    assert list[k].name == c;
    RefsAreNames(list, c);
  }

  lemma InOrderIsShown(sel: Select, idx: seq<nat>)
    requires Resolved(sel) && !IsGrouped(sel) && ListExprs(sel.columns, sel.items) != []
    requires ListAt(sel, idx) && WhereRefs(sel) <= RefsOfAll(ListExprs(sel.columns, sel.items))
    ensures ListShown(sel)
  {
    hide Mentioned, RefsOfAll, ListExprs, IsGrouped;
    PlainMentions(sel);
    var list := ListExprs(sel.columns, sel.items);
    var found := RequiredIndexes(sel.columns, Mentioned(sel));
    forall q: nat ensures q in idx <==> q in found {
      if q < |sel.columns| {
        RefsAreNames(list, sel.columns[q].name);
        if i :| 0 <= i < |list| && list[i].name == sel.columns[q].name {
          assert idx[i] == q;
        }
      }
      if k :| 0 <= k < |idx| && idx[k] == q {
        assert list[k].name == sel.columns[q].name;
      }
    }
    PlacesUnique(idx, found, |sel.columns|);
  }

  /** Without aliases, calls and operators the query returns the columns it scans. These are the selected ones exactly
      when the list names columns in table order, none twice, and WHERE mentions no other. */
  lemma ListShownIff(sel: Select)
    requires Resolved(sel) && !IsGrouped(sel) && ListExprs(sel.columns, sel.items) != []
    ensures ListShown(sel) <==> ListInOrder(sel) && WhereRefs(sel) <= RefsOfAll(ListExprs(sel.columns, sel.items))
  {
    hide Resolved, IsGrouped, ListAt, ListShown, RefsOfAll, ListExprs;
    if ListShown(sel) { ShownIsInOrder(sel); }
    if ListInOrder(sel) && WhereRefs(sel) <= RefsOfAll(ListExprs(sel.columns, sel.items)) {
      var idx :| ListAt(sel, idx);
      InOrderIsShown(sel, idx);
    }
  }

  lemma ColumnTypeOf(columns: Schema, i: nat)
    requires i < |columns| && forall j, k :: 0 <= j < k < |columns| ==> columns[j].name != columns[k].name
    ensures ColumnType(columns, columns[i].name) == columns[i].typ
  {
    hide ColIndex;
  }

  /** How many columns the items before item `p` give. */
  function Offset(columns: Schema, items: seq<Item>, p: nat): nat
    requires p <= |items|
  {
    if p == 0 then 0 else (if items[0].expr.StarExpr? then |columns| else 1) + Offset(columns, items[1..], p - 1)
  }

  /** From `at` on the list holds what the item gives: one column, with its alias or, without one, as it prints, and of its
      type; `*` gives those of the table. */
  ghost predicate ItemAt(sel: Select, item: Item, list: seq<Expression>, schema: Schema, at: nat) {
    && |list| == |schema|
    && if item.expr.StarExpr? then
         && at + |sel.columns| <= |list|
         && forall i :: at <= i < at + |sel.columns| ==>
              list[i] == ResolvedColumnExpr(sel.columns[i - at].name, i - at) && schema[i] == sel.columns[i - at]
       else
         && at < |list| && list[at] == item.expr
         && schema[at] == ColumnDef(if item.alias == [] then Text(sel.lit, item.expr) else item.alias, TypeOf(sel.columns, item.expr))
  }

  lemma ItemFirst(sel: Select, items: seq<Item>)
    requires items != []
    ensures ItemAt(sel, items[0], ListExprs(sel.columns, items), ListSchema(sel, items), 0)
  {
    hide Text, TypeOf;
  }

  lemma ItemLater(sel: Select, item: Item, list: seq<Expression>, schema: Schema, at: nat, more: seq<Expression>, moreSchema: Schema)
    requires ItemAt(sel, item, list, schema, at) && |more| == |moreSchema|
    ensures ItemAt(sel, item, more + list, moreSchema + schema, |more| + at)
  {
    hide Text, TypeOf;
  }

  lemma {:induction false} ItemColumns(sel: Select, items: seq<Item>, p: nat)
    requires p < |items|
    ensures ItemAt(sel, items[p], ListExprs(sel.columns, items), ListSchema(sel, items), Offset(sel.columns, items, p))
  {
    hide ItemAt, ItemColumn;
    if p == 0 {
      ItemFirst(sel, items);
    } else {
      ItemColumns(sel, items[1..], p - 1);
      var first := if items[0].expr.StarExpr? then seq(|sel.columns|, i requires 0 <= i < |sel.columns| => ResolvedColumnExpr(sel.columns[i].name, i))
        else [items[0].expr];
      var schema := if items[0].expr.StarExpr? then sel.columns else [ItemColumn(sel, items[0])];
      ItemLater(sel, items[p], ListExprs(sel.columns, items[1..]), ListSchema(sel, items[1..]), Offset(sel.columns, items[1..], p - 1), first, schema);
      assert ListExprs(sel.columns, items) == first + ListExprs(sel.columns, items[1..]);
    }
  }

  lemma {:induction false} ListTypes(sel: Select, items: seq<Item>, i: nat)
    requires i < |ListExprs(sel.columns, items)|
    requires forall j, k :: 0 <= j < k < |sel.columns| ==> sel.columns[j].name != sel.columns[k].name
    ensures ListSchema(sel, items)[i].typ == TypeOf(sel.columns, ListExprs(sel.columns, items)[i])
  {
    hide ColumnType, ItemRefs;
    var n := if items[0].expr.StarExpr? then |sel.columns| else 1;
    if i >= n {
      ListTypes(sel, items[1..], i - n);
    } else if items[0].expr.StarExpr? {
      ColumnTypeOf(sel.columns, i);
    }
  }

  /** The cell a scan shows of a column is also what a column of that type keeps of it. */
  lemma ScannedTwice(fp: FloatOps, col: ColumnDef, row: RowMap, read: Value, cell: Value)
    requires Scanned(fp, col, row, read) && Scanned(fp, col, row, cell)
    ensures Stores(fp, col.typ, read, cell)
  {
  }

  lemma ShownCell(en: Ops, sel: Select, row: RowMap, cells: Cells, i: nat)
    requires Resolved(sel) && ListShown(sel) && RowScans(en.fp, ScanSchema(sel), row, cells) && i < |cells|
    ensures var e, read := ListExprs(sel.columns, sel.items)[i], ReadRow(en.fp, sel.columns, row);
      Eval(en, e, read).Ok? && Stores(en.fp, ListSchema(sel, sel.items)[i].typ, Eval(en, e, read).value, cells[i])
  {
    var col := ScanSchema(sel)[i];
    RequiredMeans(sel.columns, Mentioned(sel));
    assert col in sel.columns;
    var q :| 0 <= q < |sel.columns| && sel.columns[q] == col;
    hide Mentioned, Required, ListExprs, ListSchema, ReadRow, Scanned, Stores;
    ReadRowMeans(en.fp, sel.columns, row, q);
    ScannedTwice(en.fp, col, row, ReadRow(en.fp, sel.columns, row)[col.name], cells[i]);
    ListTypes(sel, sel.items, i);
    ColumnTypeOf(sel.columns, q);
  }

  /** When it shows the list, the unprojected answer holds the list's values like a projected one. */
  lemma ShownListAnswers(en: Ops, sel: Select, matching: seq<RowMap>, all: Chunk)
    requires Resolved(sel) && IsBare(sel.items) && ListShown(sel) && PlainRows(en, sel, matching, all)
    ensures RowsProject(en, ListExprs(sel.columns, sel.items), ListSchema(sel, sel.items), Reads(en, sel, matching), all)
  {
    hide Resolved, ListShown, ListExprs, ListSchema, ReadRow, Eval, Stores, Scanned, NeedsProjection, IsBare;
    var exprs, out := ListExprs(sel.columns, sel.items), ListSchema(sel, sel.items);
    ShownWidth(sel);
    forall j | 0 <= j < |matching| ensures RowProjects(en, exprs, out, Reads(en, sel, matching)[j], all[j]) {
      assert RowScans(en.fp, ScanSchema(sel), matching[j], all[j]);
      forall i | 0 <= i < |exprs| { ShownCell(en, sel, matching[j], all[j], i); }
    }
  }

  lemma ShownWidth(sel: Select)
    requires ListShown(sel)
    ensures |ListExprs(sel.columns, sel.items)| == |ScanSchema(sel)|
  {
  }

  lemma TwoItems(sel: Select, x: Item, y: Item)
    requires !x.expr.StarExpr? && !y.expr.StarExpr?
    ensures ItemRefs(sel.columns, [x, y]) == Refs(x.expr) + Refs(y.expr)
    ensures ListSchema(sel, [x, y]) == [ItemColumn(sel, x), ItemColumn(sel, y)]
  {
    hide Refs, ItemColumn;
    assert [x, y][1..] == [y] && [y][1..] == [];
    assert ItemRefs(sel.columns, [y]) == Refs(y.expr) && ListSchema(sel, [y]) == [ItemColumn(sel, y)];
  }

  lemma BothRequired(a: ColumnDef, b: ColumnDef, mentioned: set<Str>)
    requires a.name in mentioned && b.name in mentioned
    ensures Required([a, b], mentioned) == [a, b]
  {
    assert [a, b][..1] == [a] && [a][..0] == [];
    assert Required([a], mentioned) == [a];
  }

  /** SELECT b, a from a table with the columns a and b returns a, b. */
  lemma SwappedColumns(table: Str, a: ColumnDef, b: ColumnDef, lit: Expression -> Str)
    requires a.name != b.name
    ensures var items := [Item(ResolvedColumnExpr(b.name, 1), []), Item(ResolvedColumnExpr(a.name, 0), [])];
      var sel := Select(table, [a, b], items, None, [], None, lit);
      Resolved(sel) && SchemaOf(BuildSelect(sel)) == [a, b] && Names(ListSchema(sel, items)) == [b.name, a.name]
  {
    hide ItemRefs, Required, ListSchema;
    var x, y := Item(ResolvedColumnExpr(b.name, 1), []), Item(ResolvedColumnExpr(a.name, 0), []);
    var sel := Select(table, [a, b], [x, y], None, [], None, lit);
    TwoItems(sel, x, y);
    BothRequired(a, b, Mentioned(sel));
    assert Names(sel.columns)[0] == a.name && Names(sel.columns)[1] == b.name;
  }

  // ----- items of a grouped list -----

  /** A call prints like the aggregate collected from it, letter case aside. */
  lemma PrintsAlike(lit: Expression -> Str, name: Str, arg: Expression)
    requires IsAggregate(name)
    ensures Lower(Text(lit, FuncExpr(name, [arg]))) == Lower(AggText(lit, AggExpr(ParseAggFunc(name), Some(arg))))
  {
    LowerNames();
    var fn, open, text, close := AggName(ParseAggFunc(name)), Bytes("("), Text(lit, arg), Bytes(")");
    assert Lower(fn) == Lower(name);
    hide Bytes, Lower, ParseAggFunc, AggName;
    assert ArgTexts(lit, [arg]) == text + [];
    assert text + [] == text;
    assert Text(lit, FuncExpr(name, [arg])) == name + open + text + close;
    LowerSplits(name + open + text, close);
    LowerSplits(name + open, text);
    LowerSplits(name, open);
    LowerSplits(fn + open + text, close);
    LowerSplits(fn + open, text);
    LowerSplits(fn, open);
  }

  lemma {:induction false} ItemIsCollected(items: seq<Item>, p: nat)
    requires p < |items| && items[p].expr.FuncExpr? && IsAggregate(items[p].expr.fname) && |items[p].expr.args| == 1
    ensures AggExpr(ParseAggFunc(items[p].expr.fname), Some(items[p].expr.args[0])) in Aggs(items)
  {
    hide ParseAggFunc;
    if p > 0 { ItemIsCollected(items[1..], p - 1); }
  }

  /** A reference to a column of the aggregation shows that column, NULL if there is none of the name. */
  lemma ReferenceShown(en: Ops, sel: Select, groups: Chunk, all: Chunk, g: nat, i: nat)
    requires !IsBare(sel.items) && GroupsListed(en, sel, groups, all)
    requires g < |groups| && i < |OutputExprs(sel)| && OutputExprs(sel)[i].ResolvedColumnExpr?
    ensures |all| == |groups| && |all[g]| == |OutputExprs(sel)| && |groups[g]| == |AggSchema(sel)|
    ensures var k := ColIndex(AggSchema(sel), OutputExprs(sel)[i].name);
      Stores(en.fp, ListSchema(sel, sel.items)[i].typ, if k.Some? then groups[g][k.value] else NewNull, all[g][i])
  {
    hide ColIndex, RowValues, OutputExprs, ListSchema, AggSchema, Stores, NeedsProjection, IsBare;
    var schema, name := AggSchema(sel), OutputExprs(sel)[i].name;
    RowValuesByIndex(schema, groups[g], name);
    assert RowProjects(en, OutputExprs(sel), ListSchema(sel, sel.items), RowMaps(schema, groups)[g], all[g]);
  }

  /** Where an aggregate's column stands, if no later aggregate prints like it. */
  lemma AggregateColumn(sel: Select, j: nat)
    requires j < |Aggs(sel.items)|
    requires forall k :: j < k < |Aggs(sel.items)| ==> AggTexts(sel.lit, Aggs(sel.items))[k] != AggTexts(sel.lit, Aggs(sel.items))[j]
    ensures ColIndex(AggSchema(sel), AggText(sel.lit, Aggs(sel.items)[j])) == Some(|sel.groupBy| + j)
  {
    hide AggText, Lower, Text, Aggs, TypeOf, AggType;
    var schema, at := AggSchema(sel), |sel.groupBy| + j;
    forall k | at < k < |schema| ensures schema[k].name != schema[at].name {
      assert AggTexts(sel.lit, Aggs(sel.items))[k - |sel.groupBy|] == Lower(schema[k].name);
    }
    LastColumn(schema, at);
  }

  lemma {:induction false} LastColumn(schema: Schema, k: nat)
    requires k < |schema| && forall l :: k < l < |schema| ==> schema[l].name != schema[k].name
    ensures ColIndex(schema, schema[k].name) == Some(k)
  {
    if k < |schema| - 1 { LastColumn(schema[..|schema| - 1], k); }
  }

  /** A call to an aggregate shows the group's aggregate: the last one that prints like the call, letter case aside. */
  lemma CallShown(en: Ops, sel: Select, groups: Chunk, all: Chunk, g: nat, i: nat) returns (j: nat)
    requires IsGrouped(sel) && !IsBare(sel.items) && GroupsListed(en, sel, groups, all)
    requires g < |groups| && i < |ListExprs(sel.columns, sel.items)|
    requires ListExprs(sel.columns, sel.items)[i].FuncExpr? && IsAggregate(ListExprs(sel.columns, sel.items)[i].fname)
    requires Lower(Text(sel.lit, ListExprs(sel.columns, sel.items)[i])) in AggTexts(sel.lit, Aggs(sel.items))
    ensures j < |Aggs(sel.items)| && Lower(AggText(sel.lit, Aggs(sel.items)[j])) == Lower(Text(sel.lit, ListExprs(sel.columns, sel.items)[i]))
    ensures |all| == |groups| && i < |all[g]| && |sel.groupBy| + j < |groups[g]|
    ensures Stores(en.fp, ListSchema(sel, sel.items)[i].typ, groups[g][|sel.groupBy| + j], all[g][i])
  {
    hide AggText, Text, Lower, Stores, ListSchema, ListExprs, IsGrouped, NeedsProjection, IsBare, GroupsListed, IsAggregate, LastOf, ColIndex;
    var texts := AggTexts(sel.lit, Aggs(sel.items));
    j := LastOf(texts, Lower(Text(sel.lit, ListExprs(sel.columns, sel.items)[i]))).value;
    AggregateColumn(sel, j);
    ReferenceShown(en, sel, groups, all, g, i);
  }

  predicate Numeric(typ: DataType) {
    typ.TypeFloat64? || typ.TypeBool? || typ.IsIntFamily()
  }

  /** The argument is a literal, or a column, of such a type. */
  predicate NumericArgument(columns: Schema, arg: Option<Expression>) {
    match arg
    case Some(LiteralExpr(v)) => Numeric(v.typ)
    case Some(ResolvedColumnExpr(name, _)) => Numeric(ColumnType(columns, name))
    case _ => false
  }

  /** SUM and AVG get a column of their argument's type. The group can be stored exactly when that is a number or a truth
      value, which it never is when the argument is computed; the result is shown as it is exactly for FLOAT64, and cut to
      an integer for integer columns. */
  lemma SumColumnIff(en: Ops, sel: Select, rows: seq<RowMap>, j: nat, args: seq<Value>, cell: Value)
    requires j < |Aggs(sel.items)| && (Aggs(sel.items)[j].fn.AggSum? || Aggs(sel.items)[j].fn.AggAvg?)
    requires ArgsFrom(en, Aggs(sel.items)[j], rows, args) && |args| <= INT64_MAX && 0 < |ValidOnes(args)| <= INT64_MAX
    ensures var a, typ, at := Aggs(sel.items)[j], AggType(sel.columns, Aggs(sel.items)[j]), |sel.groupBy| + j;
      var sum := FloatSum(en.fp, ValidOnes(args));
      var result := if a.fn.AggSum? then sum else en.fp.div(sum, en.fp.ofInt(|ValidOnes(args)|));
      && (GroupFits(en, AggregateOf(sel), AggSchema(sel), rows, at) <==> NumericArgument(sel.columns, a.arg))
      && (GroupCell(en, AggregateOf(sel), AggSchema(sel), rows, at, cell) ==>
           && (cell.typ.TypeFloat64? && cell.flt == result <==> typ.TypeFloat64?)
           && (typ.IsIntFamily() ==> cell.typ == typ && cell.num == en.fp.toInt(result)))
  {
    hide ArgsFrom, ValidOnes, FloatSum, Aggs, ColumnType, AggText, Text;
    var a, at := Aggs(sel.items)[j], |sel.groupBy| + j;
    var sum := FloatSum(en.fp, ValidOnes(args));
    var result := if a.fn.AggSum? then sum else en.fp.div(sum, en.fp.ofInt(|ValidOnes(args)|));
    forall v | GroupHas(en, AggregateOf(sel), rows, at, v) ensures v == NewFloat64(result) {
      var args' :| ArgsFrom(en, a, rows, args') && AggIs(en.fp, a.fn, args', v);
      ArgsUnique(en, a, rows, args, args');
    }
    assert AggIs(en.fp, a.fn, args, NewFloat64(result));
    assert GroupHas(en, AggregateOf(sel), rows, at, NewFloat64(result));
  }

  // ----- types -----

  /** Every column reference has been resolved. */
  predicate AllResolved(e: Expression) {
    match e
    case ColumnExpr(_) => false
    case BinaryExpr(_, l, r) => AllResolved(l) && AllResolved(r)
    case UnaryExpr(_, x) => AllResolved(x)
    case _ => true
  }

  /** The row's values have the types of the columns, as those a scan shows do. */
  ghost predicate TypedRow(columns: Schema, row: RowMap) {
    && (forall j, k :: 0 <= j < k < |columns| ==> columns[j].name != columns[k].name)
    && forall i :: 0 <= i < |columns| && columns[i].name in row && row[columns[i].name].valid ==> row[columns[i].name].typ == columns[i].typ
  }

  lemma ReadRowIsTyped(fp: FloatOps, columns: Schema, row: RowMap)
    requires forall j, k :: 0 <= j < k < |columns| ==> columns[j].name != columns[k].name
    ensures TypedRow(columns, ReadRow(fp, columns, row))
  {
    hide ReadRow;
    forall i | 0 <= i < |columns| { ReadRowMeans(fp, columns, row, i); }
  }

  /** A value an expression takes on such a row has the type the analyzer gives the expression. */
  lemma {:induction false} TypeOfMeans(en: Ops, columns: Schema, e: Expression, row: RowMap)
    requires TypedRow(columns, row) && AllResolved(e) && Refs(e) <= NameSet(columns)
    ensures Eval(en, e, row).Ok? && Eval(en, e, row).value.valid ==> Eval(en, e, row).value.typ == TypeOf(columns, e)
  {
    hide CompareValues, EvalIntArithmetic, EvalFloatArithmetic, ColIndex, NameSet, TypedRow;
    match e {
      case ResolvedColumnExpr(name, _) => ColumnValueTyped(columns, name, row);
      case BinaryExpr(op, l, r) =>
        TypeOfMeans(en, columns, l, row);
        TypeOfMeans(en, columns, r, row);
        ArithmeticTypes(en, op, Eval(en, l, row), Eval(en, r, row));
      case UnaryExpr(op, x) => TypeOfMeans(en, columns, x, row);
      case _ =>
    }
  }

  lemma ColumnValueTyped(columns: Schema, name: Str, row: RowMap)
    requires TypedRow(columns, row) && name in NameSet(columns)
    ensures name in row && row[name].valid ==> row[name].typ == ColumnType(columns, name)
  {
    hide ColIndex;
    var i :| 0 <= i < |columns| && Names(columns)[i] == name;
    assert columns[i].name == name;
    ColumnTypeOf(columns, i);
  }

  lemma ArithmeticTypes(en: Ops, op: BinaryOp, l: Result<Value>, r: Result<Value>)
    ensures var v := EvalBinary(en, op, l, r);
      v.Ok? && v.value.valid ==>
        if op.OpAdd? || op.OpSub? || op.OpMul? || op.OpDiv? then
          && l.Ok? && l.value.valid && r.Ok? && r.value.valid
          && v.value.typ == if l.value.typ.TypeFloat64? || r.value.typ.TypeFloat64? then TypeFloat64 else TypeInt64
        else v.value.typ.TypeBool?
  {
    hide CompareValues, TruncDiv, MulOverflows;
  }

  ghost predicate ItemsResolved(sel: Select) {
    forall p :: 0 <= p < |sel.items| ==> AllResolved(sel.items[p].expr)
  }

  lemma {:induction false} ListResolved(columns: Schema, items: seq<Item>)
    requires forall p :: 0 <= p < |items| ==> AllResolved(items[p].expr)
    ensures forall i :: 0 <= i < |ListExprs(columns, items)| ==> AllResolved(ListExprs(columns, items)[i])
  {
    if items != [] { ListResolved(columns, items[1..]); }
  }

  /** Without grouping the only failures are those of evaluation: the columns of the answer always hold their values. */
  lemma PlainFailsInEvaluation(en: Ops, sel: Select, matching: seq<RowMap>, error: ExecError)
    requires Resolved(sel) && ItemsResolved(sel) && PlainFails(en, sel, matching, error)
    ensures error.ProjectFailed?
  {
    hide IsBare, ListExprs, ListSchema, TypeOf, ReadRow, Eval, Mentioned;
    var exprs, schema, rows := ListExprs(sel.columns, sel.items), ListSchema(sel, sel.items), Reads(en, sel, matching);
    var j: nat, i: nat :| RowsStop(en, exprs, schema, rows, j, i, error);
    assert RowStops(en, exprs, schema, rows[j], i, error);
    ListResolved(sel.columns, sel.items);
    ListTypes(sel, sel.items, i);
    ListMentioned(sel);
    RefsMember(exprs, i);
    ReadRowIsTyped(en.fp, sel.columns, matching[j]);
    TypeOfMeans(en, sel.columns, exprs[i], rows[j]);
  }

  ghost predicate TypedRows(columns: Schema, rows: seq<RowMap>) {
    forall q :: 0 <= q < |rows| ==> TypedRow(columns, rows[q])
  }

  /** A GROUP BY value always fits its column. */
  lemma GroupByFits(en: Ops, sel: Select, rows: seq<RowMap>, i: nat)
    requires Resolved(sel) && TypedRows(sel.columns, rows) && i < |sel.groupBy| && AllResolved(sel.groupBy[i])
    ensures GroupFits(en, AggregateOf(sel), AggSchema(sel), rows, i)
  {
    hide Eval, TypeOf, Text, Aggs, AggType, AggText, ItemRefs, Names;
    var row := if rows == [] then map[] else rows[0];
    var r := Eval(en, sel.groupBy[i], row);
    RefsMember(sel.groupBy, i);
    assert Refs(sel.groupBy[i]) <= NameSet(sel.columns);
    assert TypedRow(sel.columns, row);
    TypeOfMeans(en, sel.columns, sel.groupBy[i], row);
    assert GroupHas(en, AggregateOf(sel), rows, i, if r.Ok? then r.value else NewNull);
  }

  /** COUNT fits its column always, MIN and MAX exactly when their argument is a column or a literal, or has no value. */
  lemma CountFits(en: Ops, sel: Select, rows: seq<RowMap>, j: nat, args: seq<Value>)
    requires j < |Aggs(sel.items)| && Aggs(sel.items)[j].fn.AggCount?
    requires ArgsFrom(en, Aggs(sel.items)[j], rows, args) && |args| <= INT64_MAX
    ensures GroupFits(en, AggregateOf(sel), AggSchema(sel), rows, |sel.groupBy| + j)
  {
    hide ArgsFrom, ValidOnes, Aggs, AggText, Text;
    assert AggIs(en.fp, AggCount, args, NewInt64(|args|));
    assert GroupHas(en, AggregateOf(sel), rows, |sel.groupBy| + j, NewInt64(|args|));
  }

  lemma ExtremeFitsIff(en: Ops, sel: Select, rows: seq<RowMap>, j: nat, args: seq<Value>)
    requires Resolved(sel) && TypedRows(sel.columns, rows)
    requires j < |Aggs(sel.items)| && (Aggs(sel.items)[j].fn.AggMin? || Aggs(sel.items)[j].fn.AggMax?)
    requires Aggs(sel.items)[j].arg.Some? && AllResolved(Aggs(sel.items)[j].arg.value)
    requires args == ArgsOf(en, Aggs(sel.items)[j], rows)
    ensures var arg := Aggs(sel.items)[j].arg.value;
      GroupFits(en, AggregateOf(sel), AggSchema(sel), rows, |sel.groupBy| + j) <==>
        arg.ResolvedColumnExpr? || arg.LiteralExpr? || ValidOnes(args) == []
  {
    hide ArgsFrom, ArgsOf, ValidOnes, Aggs, AggText, Text, WeakOrder, Beats, Mentioned, Folded, FinalValue, Eval, TypeOf, NameSet;
    var a, at := Aggs(sel.items)[j], |sel.groupBy| + j;
    ArgsMean(en, a, rows);
    AggregateMeans(en.fp, a.fn, args);
    var v := FinalValue(en.fp, Folded(en.fp, a.fn, args));
    assert GroupHas(en, AggregateOf(sel), rows, at, v);
    forall w | GroupHas(en, AggregateOf(sel), rows, at, w) ensures (ValidOnes(args) == [] && w == NewNull) || w in ValidOnes(args) {
      var args' :| ArgsFrom(en, a, rows, args') && AggIs(en.fp, a.fn, args', w);
      ArgsUnique(en, a, rows, args, args');
    }
    forall w | w in ValidOnes(args) ensures w.valid && w.typ == TypeOf(sel.columns, a.arg.value) && (IsComputed(a.arg.value) ==> w.typ != TypeNull) {
      ArgumentTyped(en, sel, rows, j, args, w);
    }
    ExtremeType(sel.columns, a);
  }

  predicate IsComputed(e: Expression) {
    !e.ResolvedColumnExpr? && !e.LiteralExpr?
  }

  lemma ExtremeType(columns: Schema, a: AggExpr)
    requires a.arg.Some? && !a.fn.AggCount?
    ensures AggType(columns, a) == if IsComputed(a.arg.value) then TypeNull else TypeOf(columns, a.arg.value)
  {
  }

  /** A valid value of the argument has its type, and a computed one some type. */
  lemma ArgumentTyped(en: Ops, sel: Select, rows: seq<RowMap>, j: nat, args: seq<Value>, w: Value)
    requires Resolved(sel) && TypedRows(sel.columns, rows) && j < |Aggs(sel.items)|
    requires Aggs(sel.items)[j].arg.Some? && AllResolved(Aggs(sel.items)[j].arg.value)
    requires args == ArgsOf(en, Aggs(sel.items)[j], rows) && w in ValidOnes(args)
    ensures w.valid && w.typ == TypeOf(sel.columns, Aggs(sel.items)[j].arg.value)
    ensures IsComputed(Aggs(sel.items)[j].arg.value) ==> w.typ != TypeNull
  {
    hide Aggs, Mentioned, Eval, TypeOf, NameSet, ArgsOf, ValidOnes;
    var a := Aggs(sel.items)[j];
    var idx := ValidOnesMean(args);
    var k :| 0 <= k < |ValidOnes(args)| && ValidOnes(args)[k] == w;
    assert idx[k] in idx;
    var at := ArgsIndexes(en, a, rows);
    var row := rows[at[idx[k]]];
    assert Eval(en, a.arg.value, row) == Ok(w);
    ListMentioned(sel);
    ArgRefsMember(Aggs(sel.items), j);
    assert Refs(a.arg.value) <= NameSet(sel.columns);
    TypeOfMeans(en, sel.columns, a.arg.value, row);
    ComputedHasType(en, a.arg.value, row);
  }

  lemma ComputedHasType(en: Ops, e: Expression, row: RowMap)
    requires AllResolved(e)
    ensures IsComputed(e) && Eval(en, e, row).Ok? && Eval(en, e, row).value.valid ==> Eval(en, e, row).value.typ != TypeNull
  {
    hide CompareValues, EvalIntArithmetic, EvalFloatArithmetic, TruncDiv;
    if e.BinaryExpr? { ArithmeticTypes(en, e.op, Eval(en, e.left, row), Eval(en, e.right, row)); }
  }
}
