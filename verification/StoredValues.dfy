/** Rows are stored with the type their writer gave a value and scanned with the type of the column:
    when an expression cannot tell the difference. */
module StoredValues {
  import opened Keys
  import opened SortedEntries
  import opened Values
  import opened Expressions
  import opened Chunks
  import opened Plans

  /** Two valid values every expression treats alike, those that read their text only if `text` is set:
      dates print unlike other integers. */
  predicate SameContent(v: Value, w: Value, text: bool) {
    if v.typ.IsIntFamily() && w.typ.IsIntFamily() then v.num == w.num && (text ==> (v.typ.TypeDate? <==> w.typ.TypeDate?))
    else v.typ == w.typ && SameFields(v, w)
  }

  /** For values of one type: the fields expressions read. */
  predicate SameFields(v: Value, w: Value) {
    match v.typ
    case TypeFloat64 => v.flt == w.flt
    case TypeString => v.str == w.str && v.num == w.num
    case TypeTimestamp => v.nanos == w.nanos && v.num == w.num
    case _ => v.num == w.num
  }

  predicate SameValue(v: Value, w: Value, text: bool) {
    if v.valid && w.valid then SameContent(v, w, text) else v.valid == w.valid
  }

  /** Does the expression read the text of values? */
  predicate HasLike(e: Expression) {
    match e
    case BinaryExpr(op, l, r) => op.OpLike? || HasLike(l) || HasLike(r)
    case UnaryExpr(_, x) => HasLike(x)
    case _ => false
  }

  function ValueIn(row: RowMap, c: Str): Value {
    if c in row then row[c] else NewNull
  }

  ghost predicate SameOn(cols: set<Str>, row: RowMap, row': RowMap, text: bool) {
    forall c :: c in cols ==> SameValue(ValueIn(row, c), ValueIn(row', c), text)
  }

  /** LIKE reads the text of its operands, which is that of their contents. */
  ghost predicate LikeReadsText(en: Ops) {
    forall v, w, x, y {:trigger en.like(v, x), en.like(w, y)} ::
      SameValue(v, w, true) && SameValue(x, y, true) ==> en.like(v, x) == en.like(w, y)
  }

  predicate SameResult(a: Result<Value>, b: Result<Value>, text: bool) {
    match a
    case Ok(v) => b.Ok? && SameValue(v, b.value, text)
    case Err(e) => b == Err(e)
  }

  lemma SameCompares(fp: FloatOps, op: BinaryOp, v: Value, w: Value, x: Value, y: Value, text: bool)
    requires v.valid && x.valid && SameValue(v, w, text) && SameValue(x, y, text)
    ensures CompareValues(fp, op, v, x) == CompareValues(fp, op, w, y)
  {
    hide Less;
  }

  lemma SameArithmetic(fp: FloatOps, op: BinaryOp, v: Value, w: Value, x: Value, y: Value, text: bool)
    requires v.valid && x.valid && SameValue(v, w, text) && SameValue(x, y, text)
    ensures EvalArithmetic(fp, op, v, x) == EvalArithmetic(fp, op, w, y)
  {
    hide EvalIntArithmetic, EvalFloatArithmetic;
  }

  lemma SameIsSame(v: Value, text: bool)
    ensures SameValue(v, v, text)
  {
  }

  lemma SameBinary(en: Ops, op: BinaryOp, l: Result<Value>, l': Result<Value>, r: Result<Value>, r': Result<Value>, text: bool)
    requires (op.OpLike? ==> text && LikeReadsText(en)) && SameResult(l, l', text) && SameResult(r, r', text)
    ensures SameResult(EvalBinary(en, op, l, r), EvalBinary(en, op, l', r'), text)
  {
    hide CompareValues, EvalArithmetic, LikeReadsText;
    if l.Ok? && !op.OpAnd? && !op.OpOr? && r.Ok? && l.value.valid && r.value.valid {
      hide SameContent;
      SameCompares(en.fp, op, l.value, l'.value, r.value, r'.value, text);
      SameArithmetic(en.fp, op, l.value, l'.value, r.value, r'.value, text);
      if op.OpLike? { SameLike(en, l.value, l'.value, r.value, r'.value); }
      var a := EvalArithmetic(en.fp, op, l.value, r.value);
      if a.Ok? { SameIsSame(a.value, text); }
      SameIsSame(NewBool(true), text);
      SameIsSame(NewBool(false), text);
    }
  }

  lemma SameLike(en: Ops, v: Value, w: Value, x: Value, y: Value)
    requires LikeReadsText(en) && SameValue(v, w, true) && SameValue(x, y, true)
    ensures en.like(v, x) == en.like(w, y)
  {
  }

  /** Expressions cannot tell rows apart that hold the same contents. */
  lemma {:induction false} EvalSame(en: Ops, e: Expression, row: RowMap, row': RowMap, text: bool)
    requires (HasLike(e) ==> text && LikeReadsText(en)) && SameOn(Refs(e), row, row', text)
    ensures SameResult(Eval(en, e, row), Eval(en, e, row'), text)
  {
    hide EvalBinary, LikeReadsText, SameContent;
    match e {
      case LiteralExpr(v) => SameIsSame(v, text);
      case BinaryExpr(op, l, r) =>
        EvalSame(en, l, row, row', text);
        EvalSame(en, r, row, row', text);
        SameBinary(en, op, Eval(en, l, row), Eval(en, l, row'), Eval(en, r, row), Eval(en, r, row'), text);
      case UnaryExpr(op, x) =>
        EvalSame(en, x, row, row', text);
        SameUnary(en, op, Eval(en, x, row), Eval(en, x, row'), text);
      case ColumnExpr(name) => assert SameValue(ValueIn(row, name), ValueIn(row', name), text);
      case ResolvedColumnExpr(name, _) => assert SameValue(ValueIn(row, name), ValueIn(row', name), text);
      case _ =>
    }
  }

  lemma SameUnary(en: Ops, op: UnaryOp, x: Result<Value>, x': Result<Value>, text: bool)
    requires SameResult(x, x', text)
    ensures SameResult(EvalUnary(en, op, x), EvalUnary(en, op, x'), text)
  {
  }

  lemma PassesSame(en: Ops, cond: Expression, row: RowMap, row': RowMap, text: bool)
    requires (HasLike(cond) ==> text && LikeReadsText(en)) && SameOn(Refs(cond), row, row', text)
    ensures Passes(en, cond, row) == Passes(en, cond, row')
  {
    hide Eval, LikeReadsText, SameOn;
    EvalSame(en, cond, row, row', text);
  }

  // ----- which values survive a scan -----

  /** The scan's cell holds what is stored, as far as expressions can tell, with LIKE or without. */
  ghost predicate Survives(fp: FloatOps, col: ColumnDef, row: RowMap, text: bool) {
    SameValue(ValueIn(row, col.name), FillCell(fp, col, row), text)
  }

  /** Fields a value's type does not use are zero, as the constructors leave them. */
  predicate Tidy(v: Value) {
    v.valid ==>
      match v.typ
      case TypeBool => v == NewBool(v.num != 0)
      case TypeFloat64 => v == NewFloat64(v.flt)
      case TypeString => v == NewString(v.str)
      case TypeTimestamp => v == NewTimestamp(v.nanos)
      case TypeNull => false
      case _ => v == NewIntFamilyValue(v.typ, v.num)
  }

  /** The value's type is the column's, or both are integers, and if text matters both or neither dates. */
  predicate TypeFits(typ: DataType, v: Value, text: bool) {
    v.typ == typ || (typ.IsIntFamily() && v.typ.IsIntFamily() && (text ==> (typ.TypeDate? <==> v.typ.TypeDate?)))
  }

  /** A well-formed value survives exactly when it is NULL or fits the column by type. */
  lemma SurvivesIff(fp: FloatOps, col: ColumnDef, row: RowMap, text: bool)
    requires Tidy(ValueIn(row, col.name))
    ensures Survives(fp, col, row, text) <==> !ValueIn(row, col.name).valid || TypeFits(col.typ, ValueIn(row, col.name), text)
  {
  }

  /** What INSERT makes of a literal before it stores it. */
  function InsertCoerce(fp: FloatOps, v: Value, target: DataType): Value {
    if !v.valid || v.typ == target then v
    else match target
      case TypeInt64 =>
        if v.typ.TypeFloat64? then NewInt64(fp.toInt(v.flt)) else if v.typ.TypeBool? then NewInt64(v.num) else v
      case TypeFloat64 =>
        if v.typ.TypeInt64? || v.typ.TypeBool? then NewFloat64(fp.ofInt(v.num)) else v
      case TypeBool =>
        if v.typ.TypeFloat64? then NewBool(fp.nonzero(v.flt)) else NewBool(v.num != 0)
      case _ => v
  }

  /** Which literals an INSERT stores in a form that survives the scan. */
  lemma InsertedSurvivesIff(fp: FloatOps, col: ColumnDef, v: Value, text: bool)
    requires Tidy(v)
    ensures Survives(fp, col, map[col.name := InsertCoerce(fp, v, col.typ)], text) <==>
      !v.valid || TypeFits(col.typ, v, text) || col.typ.TypeBool?
      || (col.typ.TypeInt64? && (v.typ.TypeFloat64? || v.typ.TypeBool?))
      || (col.typ.TypeFloat64? && (v.typ.TypeInt64? || v.typ.TypeBool?))
  {
    SurvivesIff(fp, col, map[col.name := InsertCoerce(fp, v, col.typ)], text);
  }

  /** INSERT and the scan together: the literal comes back as a column of its type holds it, exactly when the column can be
      made to hold it and is not BOOL with a text, which reads as false, or an instant. */
  lemma InsertedStoresIff(fp: FloatOps, col: ColumnDef, v: Value)
    requires Tidy(v)
    ensures Stores(fp, col.typ, v, FillCell(fp, col, map[col.name := InsertCoerce(fp, v, col.typ)])) <==>
      Storable(col.typ, v) && !(col.typ.TypeBool? && v.valid && ((v.typ.TypeString? && v.str != []) || v.typ.TypeTimestamp?))
  {
    var w := InsertCoerce(fp, v, col.typ);
    FillCellMeans(fp, col, map[col.name := w]);
    hide FillCell;
  }

  // ----- an expression that tells the difference -----

  /** Dates print with two dashes; other integers do not. */
  function DashPattern(): Value {
    NewString([37, 45, 37, 45, 37])
  }

  /** Laws the program's operations keep: LIKE reads text, dates print unlike other integers, and
      one half is not zero. */
  ghost predicate OrdinaryOps(en: Ops) {
    && LikeReadsText(en)
    && (forall v: Value :: v.valid && v.typ.IsIntFamily() ==> en.like(v, DashPattern()) == v.typ.TypeDate?)
    && (forall n: Int64 :: !en.fp.eq(Half(en.fp, n), en.fp.ofInt(0)))
  }

  function Half(fp: FloatOps, n: Int64): Float64 {
    fp.div(fp.add(fp.sub(fp.ofInt(n), fp.ofInt(n)), fp.ofInt(1)), fp.ofInt(2))
  }

  function Compared(op: BinaryOp, e: Expression, v: Value): Expression {
    BinaryExpr(op, e, LiteralExpr(v))
  }

  /** True of every valid value, false of NULL. */
  function NotNull(e: Expression): Expression {
    BinaryExpr(OpOr, Compared(OpEq, e, NewInt64(0)), Compared(OpNe, e, NewInt64(0)))
  }

  function HalfOf(c: Expression): Expression {
    Compared(OpDiv, Compared(OpAdd, BinaryExpr(OpSub, c, c), NewInt64(1)), NewInt64(2))
  }

  /** Overflows for every integer on that side of zero, and for no float. */
  function Overflowing(c: Expression, n: Int64): Expression {
    Compared(if n >= 0 then OpSub else OpAdd, c, NewInt64(INT64_MIN))
  }

  /** A predicate over the column that accepts `v` and rejects what the scan makes of it. */
  function Telling(c: Expression, v: Value, w: Value): Expression {
    if !w.valid then NotNull(c)
    else if v.typ.TypeFloat64? && w.typ.IsIntFamily() then NotNull(Overflowing(c, w.num))
    else if v.typ.IsIntFamily() && w.typ.IsIntFamily() then
      if v.typ.TypeDate? then Compared(OpLike, c, DashPattern()) else UnaryExpr(OpNot, Compared(OpLike, c, DashPattern()))
    else if v.typ.IsIntFamily() && w.typ.TypeFloat64? then Compared(OpEq, HalfOf(c), NewInt64(0))
    else if v.typ.TypeBool? && w.typ.TypeFloat64? then Compared(OpEq, c, v)
    else if v.typ.TypeString? || v.typ.TypeTimestamp? then
      if v.typ == w.typ then Compared(OpNe, Compared(OpAdd, c, NewInt64(0)), NewInt64(0)) else Compared(OpNe, c, w)
    else Compared(OpNe, c, w)
  }

  lemma ComparedRefs(op: BinaryOp, e: Expression, y: Value)
    ensures Refs(Compared(op, e, y)) == Refs(e)
  {
  }

  lemma NotNullRefs(e: Expression)
    ensures Refs(NotNull(e)) == Refs(e)
  {
    ComparedRefs(OpEq, e, NewInt64(0));
    ComparedRefs(OpNe, e, NewInt64(0));
    hide Compared;
  }

  lemma TellingRefs(name: Str, v: Value, w: Value)
    ensures Refs(Telling(ColumnExpr(name), v, w)) == {name}
  {
    var c := ColumnExpr(name);
    var d := BinaryExpr(OpSub, c, c);
    NotNullRefs(c);
    NotNullRefs(Overflowing(c, w.num));
    ComparedRefs(if w.num >= 0 then OpSub else OpAdd, c, NewInt64(INT64_MIN));
    forall op, y ensures Refs(Compared(op, c, y)) == {name} { ComparedRefs(op, c, y); }
    ComparedRefs(OpAdd, d, NewInt64(1));
    ComparedRefs(OpDiv, Compared(OpAdd, d, NewInt64(1)), NewInt64(2));
    ComparedRefs(OpEq, HalfOf(c), NewInt64(0));
    ComparedRefs(OpNe, Compared(OpAdd, c, NewInt64(0)), NewInt64(0));
    assert Refs(d) == {name};
    assert Refs(UnaryExpr(OpNot, Compared(OpLike, c, DashPattern()))) == {name};
    hide Compared, NotNull;
  }

  lemma ComparedLikes(op: BinaryOp, e: Expression, y: Value)
    requires !op.OpLike? && !HasLike(e)
    ensures !HasLike(Compared(op, e, y))
  {
  }

  /** It reads text only to tell a date from another integer. */
  lemma TellingLikes(name: Str, v: Value, w: Value)
    requires !(v.typ.IsIntFamily() && w.typ.IsIntFamily())
    ensures !HasLike(Telling(ColumnExpr(name), v, w))
  {
    var c := ColumnExpr(name);
    var d := BinaryExpr(OpSub, c, c);
    assert !HasLike(c) && !HasLike(d);
    forall op: BinaryOp, y | !op.OpLike? ensures !HasLike(Compared(op, c, y)) { ComparedLikes(op, c, y); }
    forall op: BinaryOp, y | !op.OpLike? ensures !HasLike(Compared(op, Overflowing(c, w.num), y)) { ComparedLikes(op, Overflowing(c, w.num), y); }
    ComparedLikes(OpAdd, d, NewInt64(1));
    ComparedLikes(OpDiv, Compared(OpAdd, d, NewInt64(1)), NewInt64(2));
    ComparedLikes(OpEq, HalfOf(c), NewInt64(0));
    ComparedLikes(OpNe, Compared(OpAdd, c, NewInt64(0)), NewInt64(0));
    assert !HasLike(NotNull(c)) && !HasLike(NotNull(Overflowing(c, w.num)));
    hide Compared, NotNull;
  }

  /** The predicate reads one column, so one value decides. */
  predicate Accepted(en: Ops, cond: Expression, name: Str, v: Value) {
    Passes(en, cond, map[name := v])
  }

  lemma NotNullMeans(en: Ops, e: Expression, row: RowMap)
    ensures Passes(en, NotNull(e), row) <==> Eval(en, e, row).Ok? && Eval(en, e, row).value.valid
  {
    hide CompareValues, EvalArithmetic;
    var x := Eval(en, e, row);
    assert Eval(en, LiteralExpr(NewInt64(0)), row) == Ok(NewInt64(0));
    var eq, ne := Eval(en, Compared(OpEq, e, NewInt64(0)), row), Eval(en, Compared(OpNe, e, NewInt64(0)), row);
    assert eq == EvalBinary(en, OpEq, x, Ok(NewInt64(0))) && ne == EvalBinary(en, OpNe, x, Ok(NewInt64(0)));
    assert Eval(en, NotNull(e), row) == EvalBinary(en, OpOr, eq, ne);
    if x.Ok? && x.value.valid { EqOrNe(en.fp, x.value, NewInt64(0)); }
  }

  lemma EqOrNe(fp: FloatOps, x: Value, y: Value)
    ensures CompareValues(fp, OpEq, x, y) || CompareValues(fp, OpNe, x, y)
  {
  }

  lemma ComparedMeans(en: Ops, op: BinaryOp, e: Expression, y: Value, row: RowMap)
    requires Eval(en, e, row).Ok? && Eval(en, e, row).value.valid && y.valid && IsComparison(op)
    ensures Passes(en, Compared(op, e, y), row) <==> CompareValues(en.fp, op, Eval(en, e, row).value, y)
  {
    hide CompareValues, EvalArithmetic;
    assert Eval(en, LiteralExpr(y), row) == Ok(y);
  }

  lemma OverflowingMeans(en: Ops, name: Str, v: Value, n: Int64)
    requires v.valid && (v.typ.TypeFloat64? || (v.typ.IsIntFamily() && v.num == n))
    ensures var r := Eval(en, Overflowing(ColumnExpr(name), n), map[name := v]);
      if v.typ.TypeFloat64? then r.Ok? && r.value.valid else r.Err?
  {
    var row: RowMap := map[name := v];
    assert Eval(en, LiteralExpr(NewInt64(INT64_MIN)), row) == Ok(NewInt64(INT64_MIN));
    assert Eval(en, ColumnExpr(name), row) == Ok(v);
  }

  lemma HalfMeans(en: Ops, name: Str, v: Value)
    requires v.valid && (v.typ.IsIntFamily() || v.typ.TypeFloat64?)
    ensures var r := Eval(en, HalfOf(ColumnExpr(name)), map[name := v]);
      if v.typ.IsIntFamily() then r == Ok(NewInt64(0))
      else r == Ok(NewNull) || r == Ok(NewFloat64(en.fp.div(en.fp.add(en.fp.sub(v.flt, v.flt), en.fp.ofInt(1)), en.fp.ofInt(2))))
  {
    hide CompareValues, MulOverflows, IsTruthy;
    var row: RowMap := map[name := v];
    var c := ColumnExpr(name);
    assert Eval(en, c, row) == Ok(v);
    var d := BinaryExpr(OpSub, c, c);
    var one := Compared(OpAdd, d, NewInt64(1));
    assert Eval(en, LiteralExpr(NewInt64(1)), row) == Ok(NewInt64(1)) && Eval(en, LiteralExpr(NewInt64(2)), row) == Ok(NewInt64(2));
    if v.typ.IsIntFamily() {
      assert EvalArithmetic(en.fp, OpSub, v, v) == Ok(NewInt64(0));
      assert Eval(en, d, row) == Ok(NewInt64(0));
      assert Eval(en, one, row) == Ok(NewInt64(1));
      assert TruncDiv(1, 2) == 0;
    } else {
      assert Eval(en, d, row) == Ok(NewFloat64(en.fp.sub(v.flt, v.flt)));
      assert Eval(en, one, row) == Ok(NewFloat64(en.fp.add(en.fp.sub(v.flt, v.flt), en.fp.ofInt(1))));
    }
  }

  lemma LikeMeans(en: Ops, name: Str, v: Value, negated: bool)
    requires OrdinaryOps(en) && v.valid && v.typ.IsIntFamily()
    ensures var e := Compared(OpLike, ColumnExpr(name), DashPattern());
      Accepted(en, if negated then UnaryExpr(OpNot, e) else e, name, v) <==> v.typ.TypeDate? != negated
  {
    hide LikeReadsText;
    var row: RowMap := map[name := v];
    assert Eval(en, ColumnExpr(name), row) == Ok(v) && Eval(en, LiteralExpr(DashPattern()), row) == Ok(DashPattern());
    assert Eval(en, Compared(OpLike, ColumnExpr(name), DashPattern()), row) == Ok(NewBool(en.like(v, DashPattern())));
  }

  /** Whatever value does not survive, some predicate accepts it stored and rejects it scanned. */
  lemma TellingTells(en: Ops, col: ColumnDef, v: Value, text: bool)
    requires OrdinaryOps(en) && !Survives(en.fp, col, map[col.name := v], text)
    ensures var w := FillCell(en.fp, col, map[col.name := v]);
      && (HasLike(Telling(ColumnExpr(col.name), v, w)) ==> text)
      && Accepted(en, Telling(ColumnExpr(col.name), v, w), col.name, v)
      && !Accepted(en, Telling(ColumnExpr(col.name), v, w), col.name, w)
  {
    var c, w := ColumnExpr(col.name), FillCell(en.fp, col, map[col.name := v]);
    assert v.valid;
    if !(v.typ.IsIntFamily() && w.typ.IsIntFamily()) { TellingLikes(col.name, v, w); } else { assert text || !w.valid; }
    var was: RowMap, now: RowMap := map[col.name := v], map[col.name := w];
    assert Eval(en, c, was) == Ok(v) && Eval(en, c, now) == Ok(w);
    if !w.valid {
      NotNullMeans(en, c, was);
      NotNullMeans(en, c, now);
    } else if v.typ.TypeFloat64? && w.typ.IsIntFamily() {
      OverflowingMeans(en, col.name, v, w.num);
      OverflowingMeans(en, col.name, w, w.num);
      NotNullMeans(en, Overflowing(c, w.num), was);
      NotNullMeans(en, Overflowing(c, w.num), now);
    } else if v.typ.IsIntFamily() && w.typ.IsIntFamily() {
      LikeMeans(en, col.name, v, !v.typ.TypeDate?);
      LikeMeans(en, col.name, w, !v.typ.TypeDate?);
    } else if v.typ.IsIntFamily() && w.typ.TypeFloat64? {
      HalfMeans(en, col.name, v);
      HalfMeans(en, col.name, w);
      HalfTells(en, col.name, v, w);
    } else {
      OtherTells(en, col, v, w, text);
    }
  }

  lemma HalfTells(en: Ops, name: Str, v: Value, w: Value)
    requires OrdinaryOps(en) && v.valid && v.typ.IsIntFamily() && w == NewFloat64(en.fp.ofInt(v.num))
    ensures var cond := Compared(OpEq, HalfOf(ColumnExpr(name)), NewInt64(0)); Accepted(en, cond, name, v) && !Accepted(en, cond, name, w)
  {
    hide LikeReadsText, HalfOf, EvalArithmetic;
    HalfMeans(en, name, v);
    HalfMeans(en, name, w);
    var half := HalfOf(ColumnExpr(name));
    ComparedMeans(en, OpEq, half, NewInt64(0), map[name := v]);
    if Eval(en, half, map[name := w]).value.valid {
      ComparedMeans(en, OpEq, half, NewInt64(0), map[name := w]);
      assert !en.fp.eq(Half(en.fp, v.num), en.fp.ofInt(0));
    } else {
      assert Eval(en, Compared(OpEq, half, NewInt64(0)), map[name := w]) == Ok(NewNull);
    }
  }

  lemma OtherTells(en: Ops, col: ColumnDef, v: Value, w: Value, text: bool)
    requires v.valid && w.valid && w == FillCell(en.fp, col, map[col.name := v]) && !SameValue(v, w, text)
    requires !(v.typ.TypeFloat64? && w.typ.IsIntFamily()) && !(v.typ.IsIntFamily() && (w.typ.IsIntFamily() || w.typ.TypeFloat64?))
    ensures var cond := Telling(ColumnExpr(col.name), v, w); Accepted(en, cond, col.name, v) && !Accepted(en, cond, col.name, w)
  {
    var c := ColumnExpr(col.name);
    var was: RowMap, now: RowMap := map[col.name := v], map[col.name := w];
    assert Eval(en, c, was) == Ok(v) && Eval(en, c, now) == Ok(w);
    if v.typ.TypeBool? && w.typ.TypeFloat64? {
      ComparedMeans(en, OpEq, c, v, was);
      ComparedMeans(en, OpEq, c, v, now);
    } else if (v.typ.TypeString? || v.typ.TypeTimestamp?) && v.typ == w.typ {
      var sum := Compared(OpAdd, c, NewInt64(0));
      assert Eval(en, LiteralExpr(NewInt64(0)), was) == Ok(NewInt64(0)) == Eval(en, LiteralExpr(NewInt64(0)), now);
      assert Eval(en, sum, was) == Ok(NewInt64(v.num)) && Eval(en, sum, now) == Ok(NewInt64(w.num));
      ComparedMeans(en, OpNe, sum, NewInt64(0), was);
      ComparedMeans(en, OpNe, sum, NewInt64(0), now);
    } else {
      ComparedMeans(en, OpNe, c, w, was);
      ComparedMeans(en, OpNe, c, w, now);
    }
  }
}
