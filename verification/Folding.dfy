/** Constant folding and the splitting and merging of conjuncts. */
module Folding {
  import opened SortedEntries
  import opened Values
  import opened Expressions

  function FoldExpr(fp: FloatOps, e: Expression): Expression {
    match e
    case BinaryExpr(op, l, r) => FoldBinary(fp, op, FoldExpr(fp, l), FoldExpr(fp, r))
    case UnaryExpr(op, x) => FoldUnary(fp, op, FoldExpr(fp, x))
    case FuncExpr(name, args) => FuncExpr(name, FoldAll(fp, args))
    case _ => e
  }

  function FoldAll(fp: FloatOps, es: seq<Expression>): (r: seq<Expression>)
    ensures |r| == |es|
    ensures forall i :: 0 <= i < |es| ==> r[i] == FoldExpr(fp, es[i])
  {
    if es == [] then [] else [FoldExpr(fp, es[0])] + FoldAll(fp, es[1..])
  }

  /** Folds when both sides are non-NULL literals. */
  function FoldBinary(fp: FloatOps, op: BinaryOp, l: Expression, r: Expression): Expression {
    if !l.LiteralExpr? || !r.LiteralExpr? then BinaryExpr(op, l, r)
    else if !l.value.valid || !r.value.valid then BinaryExpr(op, l, r)
    else if IsComparison(op) then LiteralExpr(NewBool(CompareValues(fp, op, l.value, r.value)))
    else if op.OpAnd? then LiteralExpr(NewBool(IsTruthy(fp, l.value) && IsTruthy(fp, r.value)))
    else if op.OpOr? then LiteralExpr(NewBool(IsTruthy(fp, l.value) || IsTruthy(fp, r.value)))
    else BinaryExpr(op, l, r)
  }

  function FoldUnary(fp: FloatOps, op: UnaryOp, x: Expression): Expression {
    if op.OpNot? && x.LiteralExpr? && x.value.valid then LiteralExpr(NewBool(!IsTruthy(fp, x.value)))
    else UnaryExpr(op, x)
  }

  /** Folding changes neither the value nor the error of any expression on any row. */
  lemma {:induction false} FoldPreservesEval(en: Ops, e: Expression, row: RowMap)
    ensures Eval(en, FoldExpr(en.fp, e), row) == Eval(en, e, row)
  {
    match e {
      case BinaryExpr(op, l, r) =>
        FoldPreservesEval(en, l, row);
        FoldPreservesEval(en, r, row);
      case UnaryExpr(op, x) => FoldPreservesEval(en, x, row);
      case _ =>
    }
  }

  /** Folding twice is folding once, so a predicate tree that two plan nodes share can be
      folded in place through both. */
  lemma {:induction false} FoldIdempotent(fp: FloatOps, e: Expression)
    ensures FoldExpr(fp, FoldExpr(fp, e)) == FoldExpr(fp, e)
  {
    match e {
      case BinaryExpr(op, l, r) =>
        FoldIdempotent(fp, l);
        FoldIdempotent(fp, r);
      case UnaryExpr(op, x) => FoldIdempotent(fp, x);
      case FuncExpr(name, args) =>
        var once, twice := FoldAll(fp, args), FoldAll(fp, FoldAll(fp, args));
        forall i | 0 <= i < |args| ensures twice[i] == once[i] { FoldIdempotent(fp, args[i]); }
        assert twice == once;
      case _ =>
    }
  }

  predicate IsConstant(e: Expression) {
    e.LiteralExpr? && e.value.valid
  }

  /** No comparison, AND or OR of two constants and no NOT of one, anywhere in the expression. */
  predicate NothingToFold(e: Expression) {
    match e
    case BinaryExpr(op, l, r) =>
      && !((IsComparison(op) || op.OpAnd? || op.OpOr?) && IsConstant(l) && IsConstant(r))
      && NothingToFold(l) && NothingToFold(r)
    case UnaryExpr(op, x) => !(op.OpNot? && IsConstant(x)) && NothingToFold(x)
    case FuncExpr(_, args) => NothingToFoldIn(args)
    case _ => true
  }

  predicate NothingToFoldIn(es: seq<Expression>) {
    es == [] || (NothingToFold(es[0]) && NothingToFoldIn(es[1..]))
  }

  /** Folding is complete: it leaves no constant subexpression of the kinds it folds. */
  lemma {:induction false} FoldsEverything(fp: FloatOps, e: Expression)
    ensures NothingToFold(FoldExpr(fp, e))
  {
    match e {
      case BinaryExpr(op, l, r) =>
        FoldsEverything(fp, l);
        FoldsEverything(fp, r);
      case UnaryExpr(op, x) => FoldsEverything(fp, x);
      case FuncExpr(name, args) => FoldsEverywhere(fp, args);
      case _ =>
    }
  }

  lemma {:induction false} FoldsEverywhere(fp: FloatOps, es: seq<Expression>)
    ensures NothingToFoldIn(FoldAll(fp, es))
  {
    if es != [] {
      FoldsEverything(fp, es[0]);
      FoldsEverywhere(fp, es[1..]);
      assert FoldAll(fp, es)[1..] == FoldAll(fp, es[1..]);
    }
  }

  /** An expression of constants and the operators folding knows becomes one constant. */
  predicate AllConstant(e: Expression) {
    match e
    case LiteralExpr(v) => v.valid
    case BinaryExpr(op, l, r) => (IsComparison(op) || op.OpAnd? || op.OpOr?) && AllConstant(l) && AllConstant(r)
    case UnaryExpr(op, x) => op.OpNot? && AllConstant(x)
    case _ => false
  }

  /** Its value is the one evaluation gives on any row. */
  lemma {:induction false} ConstantFolds(en: Ops, e: Expression, row: RowMap)
    requires AllConstant(e)
    ensures IsConstant(FoldExpr(en.fp, e)) && Eval(en, e, row) == Ok(FoldExpr(en.fp, e).value)
  {
    hide CompareValues;
    FoldPreservesEval(en, e, row);
    match e {
      case BinaryExpr(op, l, r) =>
        ConstantFolds(en, l, row);
        ConstantFolds(en, r, row);
      case UnaryExpr(op, x) => ConstantFolds(en, x, row);
      case _ =>
    }
  }

  /** Folding introduces no column reference. */
  lemma {:induction false} FoldKeepsRefs(fp: FloatOps, e: Expression)
    ensures Refs(FoldExpr(fp, e)) <= Refs(e)
  {
    match e {
      case BinaryExpr(op, l, r) =>
        FoldKeepsRefs(fp, l);
        FoldKeepsRefs(fp, r);
      case UnaryExpr(op, x) => FoldKeepsRefs(fp, x);
      case FuncExpr(name, args) => FoldAllKeepsRefs(fp, args);
      case _ =>
    }
  }

  lemma {:induction false} FoldAllKeepsRefs(fp: FloatOps, es: seq<Expression>)
    ensures RefsOfAll(FoldAll(fp, es)) <= RefsOfAll(es)
  {
    if es != [] {
      FoldKeepsRefs(fp, es[0]);
      FoldAllKeepsRefs(fp, es[1..]);
      assert FoldAll(fp, es)[1..] == FoldAll(fp, es[1..]);
    }
  }

  // ----- conjuncts -----

  function SplitConjuncts(e: Expression): (r: seq<Expression>)
    ensures r != []
    ensures forall i :: 0 <= i < |r| ==> !(r[i].BinaryExpr? && r[i].op.OpAnd?)
  {
    if e.BinaryExpr? && e.op.OpAnd? then SplitConjuncts(e.left) + SplitConjuncts(e.right) else [e]
  }

  function AndAll(first: Expression, rest: seq<Expression>): Expression {
    if rest == [] then first
    else BinaryExpr(OpAnd, AndAll(first, rest[..|rest| - 1]), rest[|rest| - 1])
  }

  function Merge(conjuncts: seq<Expression>): Option<Expression> {
    if conjuncts == [] then None else Some(AndAll(conjuncts[0], conjuncts[1..]))
  }

  /** Joins the conjuncts with AND, from the left. */
  method MergeConjuncts(conjuncts: seq<Expression>) returns (merged: Option<Expression>)
    ensures merged == Merge(conjuncts)
  {
    if |conjuncts| == 0 {
      return None;
    }
    var result := conjuncts[0];
    for i := 1 to |conjuncts|
      invariant result == AndAll(conjuncts[0], conjuncts[1..i])
    {
      assert conjuncts[1..i + 1][..i - 1] == conjuncts[1..i];
      result := BinaryExpr(OpAnd, result, conjuncts[i]);
    }
    assert conjuncts[1..|conjuncts|] == conjuncts[1..];
    return Some(result);
  }

  /** Conjuncts evaluated one after the other: the first error or false decides. */
  function EvalAll(en: Ops, conjuncts: seq<Expression>, row: RowMap): Result<Value> {
    if conjuncts == [] then Ok(NewBool(true))
    else
      var n := |conjuncts| - 1;
      EvalBinary(en, OpAnd, EvalAll(en, conjuncts[..n], row), Eval(en, conjuncts[n], row))
  }

  lemma {:induction false} EvalAllConcat(en: Ops, a: seq<Expression>, b: seq<Expression>, row: RowMap)
    ensures EvalAll(en, a + b, row) == EvalBinary(en, OpAnd, EvalAll(en, a, row), EvalAll(en, b, row))
  {
    hide CompareValues, EvalArithmetic, Eval;
    if b == [] {
      assert a + b == a;
      EvalAllIsBool(en, a, row);
    } else {
      var n := |b| - 1;
      assert (a + b)[..|a + b| - 1] == a + b[..n];
      EvalAllConcat(en, a, b[..n], row);
    }
  }

  lemma EvalAllIsBool(en: Ops, a: seq<Expression>, row: RowMap)
    ensures EvalAll(en, a, row).Ok? ==> EvalAll(en, a, row).value == NewBool(IsTruthy(en.fp, EvalAll(en, a, row).value))
  {
  }

  /** What a conjunct list makes of a single value: its truth. */
  function Truth(en: Ops, r: Result<Value>): Result<Value> {
    if r.Err? then r else Ok(NewBool(IsTruthy(en.fp, r.value)))
  }

  lemma {:induction false} SplitMeansAnd(en: Ops, e: Expression, row: RowMap)
    ensures EvalAll(en, SplitConjuncts(e), row) == Truth(en, Eval(en, e, row))
  {
    hide CompareValues, EvalArithmetic;
    if e.BinaryExpr? && e.op.OpAnd? {
      SplitMeansAnd(en, e.left, row);
      SplitMeansAnd(en, e.right, row);
      EvalAllConcat(en, SplitConjuncts(e.left), SplitConjuncts(e.right), row);
    } else {
      assert [e][..0] == [];
      assert EvalAll(en, [e], row) == EvalBinary(en, OpAnd, Ok(NewBool(true)), Eval(en, e, row));
    }
  }

  lemma {:induction false} AndAllMeans(en: Ops, first: Expression, rest: seq<Expression>, row: RowMap)
    ensures Truth(en, Eval(en, AndAll(first, rest), row)) == EvalAll(en, [first] + rest, row)
    ensures rest != [] ==> Eval(en, AndAll(first, rest), row) == EvalAll(en, [first] + rest, row)
  {
    hide CompareValues, EvalArithmetic;
    if rest == [] {
      assert ([first] + rest)[..0] == [];
      assert EvalAll(en, [first], row) == EvalBinary(en, OpAnd, Ok(NewBool(true)), Eval(en, first, row));
      assert [first] + rest == [first];
    } else {
      var n := |rest| - 1;
      AndAllMeans(en, first, rest[..n], row);
      assert ([first] + rest)[..n + 1] == [first] + rest[..n];
    }
  }

  /** Splitting a predicate and merging the parts again keeps its value and its error. */
  lemma SplitMergePreserves(en: Ops, e: Expression, row: RowMap)
    ensures Merge(SplitConjuncts(e)).Some? && Eval(en, Merge(SplitConjuncts(e)).value, row) == Eval(en, e, row)
  {
    hide CompareValues, EvalArithmetic;
    var c := SplitConjuncts(e);
    assert c == [c[0]] + c[1..];
    AndAllMeans(en, c[0], c[1..], row);
    SplitMeansAnd(en, e, row);
    if e.BinaryExpr? && e.op.OpAnd? {
      assert |c| >= 2;
    } else {
      assert c == [e] && c[1..] == [];
    }
  }
}
