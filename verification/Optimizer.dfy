/** The optimizer as a whole, on the plans the analyzer builds. */
module Optimizer {
  import opened Keys
  import opened SortedEntries
  import opened Values
  import opened Expressions
  import opened Folding
  import opened Chunks
  import opened Aggregation
  import opened Limits
  import opened Plans
  import opened StoredValues
  import opened PlanRules
  import opened ColumnPruning
  import opened Analyzer

  /** The rules in their order: pushdown, folding, pruning. */
  function Optimize(ac: AggColumns, fp: FloatOps, p: Plan): Plan {
    Prune(FoldNode(fp, PushDown(ac, p)))
  }

  lemma {:induction false} SuppliesFewer(p: Plan, more: set<Str>, fewer: set<Str>)
    requires Supplied(p, more) && fewer <= more
    ensures Supplied(p, fewer)
  {
    match p {
      case Filter(c, cond) => SuppliesFewer(c, more + Refs(cond), fewer + Refs(cond));
      case Limit(c, _, _) => SuppliesFewer(c, more, fewer);
      case _ =>
    }
  }

  lemma {:induction false} PushDownSupplies(ac: AggColumns, p: Plan, needed: set<Str>)
    requires Supplied(p, needed) && FiltersOnScans(p)
    ensures Supplied(PushDown(ac, p), needed)
  {
    hide CanPush, ScanDescribes;
    match p {
      case Filter(c, cond) =>
        assert PushDown(ac, p) == PushFilterDown(ac, c, cond) && PushDown(ac, c) == c;
      case Project(c, exprs, _) => PushDownSupplies(ac, c, RefsOfAll(exprs));
      case Aggregating(c, agg, _) => PushDownSupplies(ac, c, AggRefs(agg));
      case Limit(c, _, _) => PushDownSupplies(ac, c, needed);
      case _ =>
    }
  }

  lemma {:induction false} FoldSupplies(fp: FloatOps, p: Plan, needed: set<Str>)
    requires Supplied(p, needed)
    ensures Supplied(FoldNode(fp, p), needed)
  {
    hide FoldExpr, FoldAll, ScanDescribes;
    match p {
      case Filter(c, cond) =>
        FoldSupplies(fp, c, needed + Refs(cond));
        FoldKeepsRefs(fp, cond);
        SuppliesFewer(FoldNode(fp, c), needed + Refs(cond), needed + Refs(FoldExpr(fp, cond)));
      case Project(c, exprs, _) =>
        FoldSupplies(fp, c, RefsOfAll(exprs));
        FoldAllKeepsRefs(fp, exprs);
        SuppliesFewer(FoldNode(fp, c), RefsOfAll(exprs), RefsOfAll(FoldAll(fp, exprs)));
      case Aggregating(c, agg, _) => FoldSupplies(fp, c, AggRefs(agg));
      case Limit(c, _, _) => FoldSupplies(fp, c, needed);
      case _ =>
    }
  }

  lemma {:induction false} FoldKeepsShape(fp: FloatOps, p: Plan)
    requires NoFilters(p)
    ensures NoFilters(FoldNode(fp, p))
  {
    match p {
      case Project(c, _, _) => FoldKeepsShape(fp, c);
      case Aggregating(c, _, _) => FoldKeepsShape(fp, c);
      case Limit(c, _, _) => FoldKeepsShape(fp, c);
      case _ =>
    }
  }

  lemma {:induction false} BodyNoFilter(p: Plan)
    requires NoFilters(p)
    ensures !Body(p).Filter?
  {
    if p.Limit? { BodyNoFilter(p.child); }
  }

  /** The optimized plan returns the rows, in the chunks, under the schema and with the error the
      plan returns. */
  lemma OptimizePreserves(db: Database, ac: AggColumns, p: Plan)
    requires WellFormed(p) && FiltersOnScans(p) && FiltersReadAlike(db, p) && Supplied(p, {})
    ensures WellFormed(Optimize(ac, db.en.fp, p)) && Exec(db, Optimize(ac, db.en.fp, p)) == Exec(db, p)
  {
    hide WellFormed, FiltersOnScans, FiltersReadAlike, Supplied, NoFilters, Exec, PushDown, FoldNode, Prune;
    var pushed := PushDown(ac, p);
    var folded := FoldNode(db.en.fp, pushed);
    PushDownPreserves(db, ac, p);
    PushDownSupplies(ac, p, {});
    FoldNodePreserves(db, pushed);
    FoldSupplies(db.en.fp, pushed, {});
    FoldKeepsShape(db.en.fp, pushed);
    BodyNoFilter(folded);
    PrunePreserves(db, folded);
  }

  lemma {:induction false} PruneKeepsShape(p: Plan, needed: set<Str>)
    ensures NoFilters(p) ==> NoFilters(PruneNode(p, needed))
    ensures PlanFolded(p) ==> PlanFolded(PruneNode(p, needed))
  {
    hide PruneScan, NothingToFold, NothingToFoldIn;
    match p {
      case Scan(_, _, _, _) => ScanKeepsPredicate(p, needed);
      case Filter(c, cond) => PruneKeepsShape(c, needed + Refs(cond));
      case Project(c, exprs, _) => PruneKeepsShape(c, RefsOfAll(exprs));
      case Aggregating(c, agg, _) => PruneKeepsShape(c, AggRefs(agg));
      case Limit(c, _, _) => PruneKeepsShape(c, needed);
      case NoPlan =>
    }
  }

  lemma ScanKeepsPredicate(p: Plan, needed: set<Str>)
    requires p.Scan?
    ensures PruneScan(p, needed).pred == p.pred
  {
  }

  /** The optimizer does all its rules can: no filter is left, nothing is left to fold, and under a projection or an
      aggregation every scan keeps only the columns something above it mentions. */
  lemma OptimizeIsComplete(ac: AggColumns, fp: FloatOps, p: Plan)
    requires FiltersOnScans(p) && Supplied(p, {})
    ensures NoFilters(Optimize(ac, fp, p)) && PlanFolded(Optimize(ac, fp, p))
    ensures KeepsNeeded(Optimize(ac, fp, p), {})
  {
    hide FiltersOnScans, NoFilters, PushDown, FoldNode, PruneNode, GatherNeeded, KeepsNeeded;
    var pushed := PushDown(ac, p);
    var folded := FoldNode(fp, pushed);
    PushDownClears(ac, p);
    PushDownSupplies(ac, p, {});
    FoldSupplies(fp, pushed, {});
    FoldKeepsShape(fp, pushed);
    FoldNodeFolds(fp, pushed);
    PruneKeepsShape(folded, GatherNeeded(folded));
    BodyNoFilter(folded);
    PruneKeepsTop(folded, {}, GatherNeeded(folded));
  }

  lemma {:induction false} PruneKeepsTop(p: Plan, supplied: set<Str>, needed: set<Str>)
    requires Supplied(p, supplied) && !Body(p).Filter?
    ensures KeepsNeeded(PruneNode(p, needed), {})
  {
    hide PruneScan, RefsOfAll, AggRefs;
    match p {
      case Project(c, exprs, _) => PruneKeepsNeeded(c, RefsOfAll(exprs));
      case Aggregating(c, agg, _) => PruneKeepsNeeded(c, AggRefs(agg));
      case Limit(c, _, _) => PruneKeepsTop(c, supplied, needed);
      case _ =>
    }
  }

  lemma {:induction false} PushDownClears(ac: AggColumns, p: Plan)
    requires FiltersOnScans(p)
    ensures NoFilters(PushDown(ac, p))
  {
    hide CanPush;
    match p {
      case Filter(c, cond) => assert PushDown(ac, p) == PushFilterDown(ac, c, cond) && PushDown(ac, c) == c;
      case Project(c, _, _) => PushDownClears(ac, c);
      case Aggregating(c, _, _) => PushDownClears(ac, c);
      case Limit(c, _, _) => PushDownClears(ac, c);
      case _ =>
    }
  }

  // ----- the plans the analyzer builds -----

  lemma ColumnIsNamed(schema: Schema, c: Str)
    requires HasColumn(schema, c)
    ensures c in Names(schema)
  {
    var i :| 0 <= i < |schema| && schema[i].name == c;
    assert Names(schema)[i] == c;
  }

  ghost predicate Qualifies(db: Database, p: Plan, needed: set<Str>) {
    WellFormed(p) && FiltersOnScans(p) && FiltersReadAlike(db, p) && Supplied(p, needed)
  }

  /** The stored values of the columns WHERE mentions survive the scan. */
  ghost predicate WhereReadsAlike(db: Database, sel: Select) {
    sel.where.Some? ==> ReadsAlike(db, sel.table, ScanSchema(sel), sel.where.value)
  }

  lemma FilteredQualifies(db: Database, sel: Select, needed: set<Str>)
    requires Resolved(sel) && WhereReadsAlike(db, sel) && needed <= Mentioned(sel)
    ensures Qualifies(db, FilteredScan(sel), needed)
  {
    ScanDeliversMentioned(sel);
    var schema := ScanSchema(sel);
    forall c | c in Mentioned(sel) ensures c in Names(schema) { ColumnIsNamed(schema, c); }
    hide ScanSchema, Names, ScanDescribes, HasColumn;
    assert WhereRefs(sel) <= Mentioned(sel);
    var scan := SelectScan(sel);
    assert Qualifies(db, scan, needed + WhereRefs(sel));
    if sel.where.Some? {
      assert CanPush(sel.where.value, schema);
      assert Qualifies(db, Filter(scan, sel.where.value), needed);
    } else {
      assert needed + WhereRefs(sel) == needed;
    }
  }

  lemma GroupedQualifies(db: Database, sel: Select, needed: set<Str>)
    requires Resolved(sel) && WhereReadsAlike(db, sel) && (IsGrouped(sel) || needed <= Mentioned(sel))
    ensures Qualifies(db, GroupedPlan(sel), needed)
  {
    hide Mentioned, AggRefs, FilteredScan, Resolved, WhereReadsAlike, AggSchema, IsGrouped;
    if IsGrouped(sel) {
      ListMentioned(sel);
      FilteredQualifies(db, sel, AggRefs(AggregateOf(sel)));
    } else {
      FilteredQualifies(db, sel, needed);
    }
  }

  lemma ListedQualifies(db: Database, sel: Select)
    requires Resolved(sel) && WhereReadsAlike(db, sel)
    ensures Qualifies(db, ListedPlan(sel), {})
  {
    hide Mentioned, RefsOfAll, GroupedPlan, Resolved, WhereReadsAlike, IsGrouped, NeedsProjection, ListExprs, ListSchema;
    if NeedsProjection(sel.items) {
      ListMentioned(sel);
      GroupedQualifies(db, sel, RefsOfAll(OutputExprs(sel)));
    } else {
      GroupedQualifies(db, sel, {});
    }
  }

  /** Every plan built from a resolved SELECT is one the optimizer is right about. */
  lemma SelectPlansQualify(db: Database, sel: Select)
    requires Resolved(sel) && WhereReadsAlike(db, sel)
    ensures Qualifies(db, BuildSelect(sel), {})
  {
    hide ListedPlan, Resolved, WhereReadsAlike;
    ListedQualifies(db, sel);
  }

  /** SELECT end to end: optimizing its plan changes nothing. */
  lemma OptimizedSelectIsSelect(db: Database, ac: AggColumns, sel: Select)
    requires Resolved(sel) && WhereReadsAlike(db, sel)
    ensures WellFormed(Optimize(ac, db.en.fp, BuildSelect(sel)))
    ensures Exec(db, Optimize(ac, db.en.fp, BuildSelect(sel))) == Exec(db, BuildSelect(sel))
  {
    hide BuildSelect, Resolved, WhereReadsAlike, WellFormed, Exec, Optimize, FiltersOnScans, Supplied, ScanSchema;
    SelectPlansQualify(db, sel);
    OptimizePreserves(db, ac, BuildSelect(sel));
  }

  /** Where stored values survive the scan, WHERE tested on the stored row decides alone. */
  lemma MatchesStored(db: Database, sel: Select, row: RowMap)
    requires Resolved(sel) && WhereReadsAlike(db, sel) && row in Entries(db, sel.table)
    ensures Matches(db.en, sel, row) <==> sel.columns != [] && (sel.where.Some? ==> HoldsOn(db.en, sel.where.value, row))
  {
    if sel.where.Some? {
      var w, schema := sel.where.value, ScanSchema(sel);
      ScanDeliversMentioned(sel);
      assert Refs(w) <= Mentioned(sel);
      hide ScanSchema, Mentioned, FillRow, RowValues, HoldsOn, Passes, SameOn, HasLike, LikeReadsText, Survives, HasColumn;
      assert RowReadsAlike(db.en.fp, schema, Refs(w), row, HasLike(w));
      FilledRowReads(db.en.fp, schema, row, Refs(w), HasLike(w));
      PassesSame(db.en, w, row, ReadRow(db.en.fp, schema, row), HasLike(w));
      FilterAsRead(db.en, sel, row);
      PassesIsHolds(db.en, w, row);
    }
  }

  /** The optimized SELECT from the table to the answer: the matching rows are those whose WHERE holds as they are stored. */
  lemma OptimizedSelectReturns(db: Database, ac: AggColumns, sel: Select) returns (idx: seq<nat>)
    requires Resolved(sel) && WhereReadsAlike(db, sel)
    ensures WellFormed(Optimize(ac, db.en.fp, BuildSelect(sel)))
    ensures var all := if sel.table in db.tables then db.tables[sel.table] else [];
      && PicksAt(all, idx, Matching(db.en, sel, all))
      && (forall q: nat :: q in idx <==> q < |all| && sel.columns != [] && (sel.where.Some? ==> HoldsOn(db.en, sel.where.value, all[q])))
      && Returns(db.en, sel, Matching(db.en, sel, all), Exec(db, Optimize(ac, db.en.fp, BuildSelect(sel))))
  {
    hide BuildSelect, Resolved, WhereReadsAlike, WellFormed, Exec, Optimize, Matches, Matching, Returns, HoldsOn, PicksAt;
    OptimizedSelectIsSelect(db, ac, sel);
    idx := SelectReturns(db, sel);
    var all := Entries(db, sel.table);
    forall q: nat | q < |all|
      ensures Matches(db.en, sel, all[q]) <==> sel.columns != [] && (sel.where.Some? ==> HoldsOn(db.en, sel.where.value, all[q]))
    {
      MatchesStored(db, sel, all[q]);
    }
  }
}
