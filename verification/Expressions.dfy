/** SQL expressions and their meaning on a row. */
module Expressions {
  import opened Keys
  import opened Values

  datatype BinaryOp =
    | OpEq | OpNe | OpLt | OpLe | OpGt | OpGe
    | OpAnd | OpOr
    | OpAdd | OpSub | OpMul | OpDiv
    | OpLike

  datatype UnaryOp = OpNot | OpNeg

  datatype Expression =
    | LiteralExpr(value: Value)
    | ColumnExpr(name: Str)
    | ResolvedColumnExpr(name: Str, idx: int)
    | BinaryExpr(op: BinaryOp, left: Expression, right: Expression)
    | UnaryExpr(uop: UnaryOp, expr: Expression)
    | FuncExpr(fname: Str, args: seq<Expression>)
    | StarExpr

  datatype EvalError = IntegerOverflow(op: BinaryOp) | UnsupportedUnary(uop: UnaryOp) | UnsupportedFunction(fname: Str)

  datatype Result<+T> = Ok(value: T) | Err(error: EvalError)

  type RowMap = map<Str, Value>

  /** The operations evaluation leaves to parameters: floats, and LIKE on the text of two values. */
  datatype Ops = Ops(fp: FloatOps, like: (Value, Value) -> bool)

  predicate IsComparison(op: BinaryOp) {
    op.OpEq? || op.OpNe? || op.OpLt? || op.OpLe? || op.OpGt? || op.OpGe?
  }

  /** Comparison of two valid values; false for any other operator. */
  predicate CompareValues(fp: FloatOps, op: BinaryOp, left: Value, right: Value) {
    match op
    case OpEq => Equal(fp, left, right)
    case OpNe => !Equal(fp, left, right)
    case OpLt => LessThan(fp, left, right)
    case OpGt => LessThan(fp, right, left)
    case OpLe => !LessThan(fp, right, left)
    case OpGe => !LessThan(fp, left, right)
    case _ => false
  }

  /** The operator with the operands exchanged. */
  function FlipComparison(op: BinaryOp): BinaryOp {
    match op
    case OpLt => OpGt
    case OpLe => OpGe
    case OpGt => OpLt
    case OpGe => OpLe
    case _ => op
  }

  ghost predicate SymmetricEq(fp: FloatOps) {
    forall x: Float64, y: Float64 :: fp.eq(x, y) == fp.eq(y, x)
  }

  /** `a op b` is `b flip(op) a`, for every comparison and every pair of values. */
  lemma FlipMeaning(fp: FloatOps, op: BinaryOp, a: Value, b: Value)
    requires SymmetricEq(fp)
    ensures CompareValues(fp, op, a, b) == CompareValues(fp, FlipComparison(op), b, a)
  {
    assert Equal(fp, a, b) == Equal(fp, b, a);
  }

  // Go's int64 division truncates toward zero.
  function TruncDiv(a: int, b: int): int
    requires b != 0
  {
    if a >= 0 then (if b > 0 then a / b else -(a / -b))
    else (if b > 0 then -(-a / b) else -a / -b)
  }

  /** The overflow tests as the code writes them, on 64-bit operands. */
  predicate AddOverflows(l: Int64, r: Int64) {
    (r > 0 && l > INT64_MAX - r) || (r < 0 && l < INT64_MIN - r)
  }

  predicate SubOverflows(l: Int64, r: Int64) {
    (r < 0 && l > INT64_MAX + r) || (r > 0 && l < INT64_MIN + r)
  }

  predicate MulOverflows(l: Int64, r: Int64) {
    if r > 0 then l > TruncDiv(INT64_MAX, r) || l < TruncDiv(INT64_MIN, r)
    else if r < 0 then
      if r == -1 then l == INT64_MIN
      else l > TruncDiv(INT64_MIN, r) || l < TruncDiv(INT64_MAX, r)
    else false
  }

  predicate Fits(x: int) {
    INT64_MIN <= x <= INT64_MAX
  }

  lemma AdditiveOverflowExact(l: Int64, r: Int64)
    ensures AddOverflows(l, r) <==> !Fits(l + r)
    ensures SubOverflows(l, r) <==> !Fits(l - r)
  {
  }

  lemma QuotientBounds(a: nat, b: nat)
    requires b > 0
    ensures (a / b) * b <= a < (a / b) * b + b
  {
    assert a == b * (a / b) + a % b;
  }

  lemma Signs(n: int, b: int)
    ensures -n * b == -(n * b) && n * -b == -(n * b) && -n * -b == n * b
  {
  }

  /** `q` is the truncated quotient of `a` by `b`: nearest to zero, same sign. */
  lemma TruncDivBounds(a: int, b: int)
    requires b != 0
    ensures var q := TruncDiv(a, b);
      && (a >= 0 && b > 0 ==> q * b <= a < q * b + b)
      && (a <= 0 && b > 0 ==> q * b - b < a <= q * b)
      && (a >= 0 && b < 0 ==> q * b <= a < q * b - b)
      && (a <= 0 && b < 0 ==> q * b + b < a <= q * b)
  {
    var m, d: int := if a >= 0 then a else -a, if b > 0 then b else -b;
    var n := m / d;
    QuotientBounds(m, d);
    Signs(n, d);
  }

  lemma Monotone(x: int, y: int, r: int)
    ensures x <= y && r >= 0 ==> x * r <= y * r
    ensures x <= y && r <= 0 ==> x * r >= y * r
  {
    if x <= y {
      assert (y - x) * r == y * r - x * r;
    }
  }

  /** Comparing with the quotient is comparing the product: one lemma per sign of the divisor. */
  lemma QuotientForPositive(l: int, a: int, r: int)
    requires r > 0
    ensures a >= 0 ==> (l > TruncDiv(a, r) <==> l * r > a)
    ensures a <= 0 ==> (l < TruncDiv(a, r) <==> l * r < a)
  {
    var q := TruncDiv(a, r);
    TruncDivBounds(a, r);
    hide TruncDiv;
    Monotone(l, q, r);
    Monotone(q, l, r);
    Monotone(q + 1, l, r);
    Monotone(l, q - 1, r);
    assert (q + 1) * r == q * r + r && (q - 1) * r == q * r - r;
  }

  lemma QuotientForNegative(l: int, a: int, r: int)
    requires r < 0
    ensures a >= 0 ==> (l < TruncDiv(a, r) <==> l * r > a)
    ensures a <= 0 ==> (l > TruncDiv(a, r) <==> l * r < a)
  {
    var q := TruncDiv(a, r);
    TruncDivBounds(a, r);
    hide TruncDiv;
    Monotone(l, q, r);
    Monotone(q, l, r);
    Monotone(q + 1, l, r);
    Monotone(l, q - 1, r);
    assert (q + 1) * r == q * r + r && (q - 1) * r == q * r - r;
  }

  /** The division-based multiplication test is exact on all 64-bit operands. */
  lemma MulOverflowExact(l: Int64, r: Int64)
    ensures r != 0 ==> (MulOverflows(l, r) <==> !Fits(l * r))
  {
    if r > 0 {
      QuotientForPositive(l, INT64_MAX, r);
      QuotientForPositive(l, INT64_MIN, r);
    } else if r < -1 {
      QuotientForNegative(l, INT64_MAX, r);
      QuotientForNegative(l, INT64_MIN, r);
    }
    hide TruncDiv;
  }

  function EvalIntArithmetic(op: BinaryOp, l: Int64, r: Int64): Result<Value> {
    match op
    case OpAdd => if AddOverflows(l, r) then Err(IntegerOverflow(op)) else AdditiveOverflowExact(l, r); Ok(NewInt64(l + r))
    case OpSub => if SubOverflows(l, r) then Err(IntegerOverflow(op)) else AdditiveOverflowExact(l, r); Ok(NewInt64(l - r))
    case OpMul => if r != 0 && MulOverflows(l, r) then Err(IntegerOverflow(op)) else MulOverflowExact(l, r); Ok(NewInt64(l * r))
    case OpDiv =>
      if r == 0 then Ok(NewNull)
      else if r == -1 && l == INT64_MIN then Err(IntegerOverflow(op))
      else DivFits(l, r); Ok(NewInt64(TruncDiv(l, r)))
    case _ => Ok(NewNull)
  }

  lemma DivFits(l: Int64, r: Int64)
    requires r != 0 && !(r == -1 && l == INT64_MIN)
    ensures Fits(TruncDiv(l, r))
  {
    TruncDivBounds(l, r);
  }

  /** Exactness: the integer result is the mathematical one whenever it fits, and an error
      is reported exactly when it does not; division by zero is NULL. */
  lemma IntArithmeticExact(l: Int64, r: Int64)
    ensures EvalIntArithmetic(OpAdd, l, r) == if Fits(l + r) then Ok(NewInt64(l + r)) else Err(IntegerOverflow(OpAdd))
    ensures EvalIntArithmetic(OpSub, l, r) == if Fits(l - r) then Ok(NewInt64(l - r)) else Err(IntegerOverflow(OpSub))
    ensures EvalIntArithmetic(OpMul, l, r) == if Fits(l * r) then Ok(NewInt64(l * r)) else Err(IntegerOverflow(OpMul))
    ensures r != 0 && Fits(TruncDiv(l, r)) ==> EvalIntArithmetic(OpDiv, l, r) == Ok(NewInt64(TruncDiv(l, r)))
    ensures r != 0 && !Fits(TruncDiv(l, r)) ==> EvalIntArithmetic(OpDiv, l, r) == Err(IntegerOverflow(OpDiv))
    ensures r == 0 ==> EvalIntArithmetic(OpDiv, l, r) == Ok(NewNull)
  {
    AdditiveOverflowExact(l, r);
    MulOverflowExact(l, r);
    if r != 0 && !(r == -1 && l == INT64_MIN) { DivFits(l, r); }
  }

  function ToFloat64(fp: FloatOps, v: Value): Float64 {
    if v.typ.TypeFloat64? then v.flt
    else if v.typ.IsIntFamily() || v.typ.TypeBool? then fp.ofInt(v.num)
    else 0
  }

  function EvalFloatArithmetic(fp: FloatOps, op: BinaryOp, l: Float64, r: Float64): Value {
    match op
    case OpAdd => NewFloat64(fp.add(l, r))
    case OpSub => NewFloat64(fp.sub(l, r))
    case OpMul => NewFloat64(fp.mul(l, r))
    case OpDiv => if fp.nonzero(r) then NewFloat64(fp.div(l, r)) else NewNull
    case _ => NewNull
  }

  function EvalArithmetic(fp: FloatOps, op: BinaryOp, left: Value, right: Value): Result<Value> {
    if left.typ.TypeFloat64? || right.typ.TypeFloat64? then
      Ok(EvalFloatArithmetic(fp, op, ToFloat64(fp, left), ToFloat64(fp, right)))
    else EvalIntArithmetic(op, left.num, right.num)
  }

  /** Go negates MinInt64 to itself. */
  function WrapNeg(n: Int64): Int64 {
    if n == INT64_MIN then INT64_MIN else -n
  }

  /** The meaning of an expression on a row; a missing column is NULL. */
  function Eval(en: Ops, e: Expression, row: RowMap): Result<Value> {
    match e
    case LiteralExpr(v) => Ok(v)
    case ResolvedColumnExpr(name, _) => Ok(if name in row then row[name] else NewNull)
    case ColumnExpr(name) => Ok(if name in row then row[name] else NewNull)
    case BinaryExpr(op, l, r) => EvalBinary(en, op, Eval(en, l, row), Eval(en, r, row))
    case UnaryExpr(op, x) => EvalUnary(en, op, Eval(en, x, row))
    case FuncExpr(name, _) => Err(UnsupportedFunction(name))
    case StarExpr => Ok(NewNull)
  }

  /** AND and OR skip their right side, and its errors, when the left side decides. */
  function EvalBinary(en: Ops, op: BinaryOp, left: Result<Value>, right: Result<Value>): Result<Value> {
    if left.Err? then left
    else match op
      case OpAnd =>
        if !IsTruthy(en.fp, left.value) then Ok(NewBool(false))
        else if right.Err? then right else Ok(NewBool(IsTruthy(en.fp, right.value)))
      case OpOr =>
        if IsTruthy(en.fp, left.value) then Ok(NewBool(true))
        else if right.Err? then right else Ok(NewBool(IsTruthy(en.fp, right.value)))
      case _ =>
        if right.Err? then right
        else if !left.value.valid || !right.value.valid then Ok(NewNull)
        else if op.OpLike? then Ok(NewBool(en.like(left.value, right.value)))
        else if IsComparison(op) then Ok(NewBool(CompareValues(en.fp, op, left.value, right.value)))
        else EvalArithmetic(en.fp, op, left.value, right.value)
  }

  function EvalUnary(en: Ops, op: UnaryOp, x: Result<Value>): Result<Value> {
    if x.Err? then x
    else match op
      case OpNot => Ok(NewBool(!IsTruthy(en.fp, x.value)))
      case OpNeg =>
        if !x.value.valid then Ok(NewNull)
        else if x.value.typ.IsIntFamily() then Ok(NewIntFamilyValue(x.value.typ, WrapNeg(x.value.num)))
        else if x.value.typ.TypeFloat64? then Ok(NewFloat64(en.fp.neg(x.value.flt)))
        else Err(UnsupportedUnary(op))
  }

  /** A row passes a predicate when it evaluates, without error, to something true. */
  predicate Passes(en: Ops, e: Expression, row: RowMap) {
    var r := Eval(en, e, row);
    r.Ok? && IsTruthy(en.fp, r.value)
  }

  // ----- what the operators mean -----

  /** The six comparisons from three answers: equal, less, greater. */
  predicate Compares(op: BinaryOp, equal: bool, less: bool, greater: bool) {
    match op
    case OpEq => equal
    case OpNe => !equal
    case OpLt => less
    case OpLe => !greater
    case OpGt => greater
    case OpGe => !less
    case _ => false
  }

  predicate IsNumber(v: Value) {
    v.typ.IsIntFamily() || v.typ.TypeFloat64?
  }

  function AsFloat(fp: FloatOps, v: Value): Float64
    requires IsNumber(v)
  {
    if v.typ.TypeFloat64? then v.flt else fp.ofInt(v.num)
  }

  /** Integers compare as integers and other numbers as floats, strings byte by byte, truth values and instants as numbers;
      values of other types are unequal and in no order, so that both `<=` and `>=` hold of them. */
  lemma ComparisonMeans(en: Ops, op: BinaryOp, l: Value, r: Value)
    requires l.valid && r.valid && op in {OpEq, OpNe, OpLt, OpLe, OpGt, OpGe}
    ensures var holds :=
        if l.typ.IsIntFamily() && r.typ.IsIntFamily() then Compares(op, l.num == r.num, l.num < r.num, r.num < l.num)
        else if IsNumber(l) && IsNumber(r) then
          var x, y := AsFloat(en.fp, l), AsFloat(en.fp, r);
          Compares(op, en.fp.eq(x, y), en.fp.lt(x, y), en.fp.lt(y, x))
        else if l.typ != r.typ then Compares(op, false, false, false)
        else if l.typ.TypeString? then Compares(op, l.str == r.str, Less(l.str, r.str), Less(r.str, l.str))
        else if l.typ.TypeBool? then Compares(op, l.num == r.num, l.num < r.num, r.num < l.num)
        else if l.typ.TypeTimestamp? then Compares(op, l.nanos == r.nanos, l.nanos < r.nanos, r.nanos < l.nanos)
        else Compares(op, false, false, false);
      EvalBinary(en, op, Ok(l), Ok(r)) == Ok(NewBool(holds))
  {
    hide Less;
  }

  /** Arithmetic on integers is exact or an error. Division rounds toward zero: the remainder is smaller than the divisor and
      has the sign of the dividend; by zero it is NULL. */
  lemma ArithmeticMeans(en: Ops, l: Value, r: Value)
    requires l.valid && r.valid && !l.typ.TypeFloat64? && !r.typ.TypeFloat64?
    ensures EvalBinary(en, OpAdd, Ok(l), Ok(r)) == if Fits(l.num + r.num) then Ok(NewInt64(l.num + r.num)) else Err(IntegerOverflow(OpAdd))
    ensures EvalBinary(en, OpSub, Ok(l), Ok(r)) == if Fits(l.num - r.num) then Ok(NewInt64(l.num - r.num)) else Err(IntegerOverflow(OpSub))
    ensures EvalBinary(en, OpMul, Ok(l), Ok(r)) == if Fits(l.num * r.num) then Ok(NewInt64(l.num * r.num)) else Err(IntegerOverflow(OpMul))
    ensures r.num == 0 ==> EvalBinary(en, OpDiv, Ok(l), Ok(r)) == Ok(NewNull)
    ensures l.num == INT64_MIN && r.num == -1 ==> EvalBinary(en, OpDiv, Ok(l), Ok(r)) == Err(IntegerOverflow(OpDiv))
    ensures r.num != 0 && !(l.num == INT64_MIN && r.num == -1) ==>
      var q := EvalBinary(en, OpDiv, Ok(l), Ok(r));
      q.Ok? && q.value == NewInt64(q.value.num) && Divides(l.num, r.num, q.value.num)
  {
    hide EvalIntArithmetic, TruncDiv, MulOverflows;
    IntArithmeticExact(l.num, r.num);
    if r.num != 0 {
      Quotient(l.num, r.num);
      if !(l.num == INT64_MIN && r.num == -1) { DivFits(l.num, r.num); }
    }
  }

  ghost predicate Divides(a: int, b: int, q: int) {
    var rest := a - q * b;
    && (if b > 0 then -b < rest < b else b < rest < -b)
    && (a >= 0 ==> rest >= 0) && (a <= 0 ==> rest <= 0)
  }

  lemma Quotient(a: int, b: int)
    requires b != 0
    ensures Divides(a, b, TruncDiv(a, b))
    ensures a == INT64_MIN && b == -1 ==> !Fits(TruncDiv(a, b))
  {
    TruncDivBounds(a, b);
  }

  /** With a float on one side both are taken as floats, truth values as 0 and 1; only division can be NULL, and only by zero. */
  lemma FloatArithmeticMeans(en: Ops, l: Value, r: Value)
    requires l.valid && r.valid && (l.typ.TypeFloat64? || r.typ.TypeFloat64?)
    requires (IsNumber(l) || l.typ.TypeBool?) && (IsNumber(r) || r.typ.TypeBool?)
    ensures var x := if l.typ.TypeFloat64? then l.flt else en.fp.ofInt(l.num);
      var y := if r.typ.TypeFloat64? then r.flt else en.fp.ofInt(r.num);
      && EvalBinary(en, OpAdd, Ok(l), Ok(r)) == Ok(NewFloat64(en.fp.add(x, y)))
      && EvalBinary(en, OpSub, Ok(l), Ok(r)) == Ok(NewFloat64(en.fp.sub(x, y)))
      && EvalBinary(en, OpMul, Ok(l), Ok(r)) == Ok(NewFloat64(en.fp.mul(x, y)))
      && EvalBinary(en, OpDiv, Ok(l), Ok(r)) == Ok(if en.fp.nonzero(y) then NewFloat64(en.fp.div(x, y)) else NewNull)
  {
  }

  /** Negation keeps an integer's type and is its two's complement: exact but for the least one, which stays. Negating twice
      gives the integer back. */
  lemma NegationMeans(en: Ops, v: Value)
    ensures var r := EvalUnary(en, OpNeg, Ok(v));
      && (!v.valid ==> r == Ok(NewNull))
      && (v.valid && v.typ.IsIntFamily() ==>
           && r.Ok? && r.value.valid && r.value.typ == v.typ && (r.value.num + v.num) % 0x1_0000_0000_0000_0000 == 0
           && (v.num != INT64_MIN ==> r.value.num == -v.num)
           && EvalUnary(en, OpNeg, r) == Ok(NewIntFamilyValue(v.typ, v.num)))
      && (v.valid && v.typ.TypeFloat64? ==> r == Ok(NewFloat64(en.fp.neg(v.flt))))
      && (v.valid && !IsNumber(v) ==> r == Err(UnsupportedUnary(OpNeg)))
  {
  }

  /** The value is there and true: not false, not zero, not the empty string. */
  predicate IsTrue(fp: FloatOps, v: Value) {
    v.valid && (if v.typ.TypeFloat64? then fp.nonzero(v.flt)
                else if v.typ.TypeString? then v.str != []
                else v.typ.TypeNull? || v.typ.TypeTimestamp? || v.num != 0)
  }

  /** The connectives work on truth, NULL counting as false; an operand's error is reported unless the left operand decides.
      Every other operator gives NULL for NULL. */
  lemma LogicMeans(en: Ops, op: BinaryOp, l: Value, r: Result<Value>)
    ensures EvalBinary(en, OpAnd, Ok(l), r) ==
      if IsTrue(en.fp, l) && r.Err? then r else Ok(NewBool(IsTrue(en.fp, l) && r.Ok? && IsTrue(en.fp, r.value)))
    ensures EvalBinary(en, OpOr, Ok(l), r) ==
      if !IsTrue(en.fp, l) && r.Err? then r else Ok(NewBool(IsTrue(en.fp, l) || (r.Ok? && IsTrue(en.fp, r.value))))
    ensures EvalUnary(en, OpNot, Ok(l)) == Ok(NewBool(!IsTrue(en.fp, l)))
    ensures !op.OpAnd? && !op.OpOr? && r.Err? ==> EvalBinary(en, op, Ok(l), r) == r
    ensures !op.OpAnd? && !op.OpOr? && r.Ok? && (!l.valid || !r.value.valid) ==> EvalBinary(en, op, Ok(l), r) == Ok(NewNull)
    ensures r.Ok? && l.valid && r.value.valid ==> EvalBinary(en, OpLike, Ok(l), r) == Ok(NewBool(en.like(l, r.value)))
  {
  }

  // ----- column references -----

  function Refs(e: Expression): set<Str> {
    match e
    case ColumnExpr(name) => {name}
    case ResolvedColumnExpr(name, _) => {name}
    case BinaryExpr(_, l, r) => Refs(l) + Refs(r)
    case UnaryExpr(_, x) => Refs(x)
    case FuncExpr(_, args) => RefsOfAll(args)
    case _ => {}
  }

  function RefsOfAll(es: seq<Expression>): set<Str> {
    if es == [] then {} else Refs(es[0]) + RefsOfAll(es[1..])
  }

  lemma {:induction false} RefsMember(es: seq<Expression>, i: nat)
    requires i < |es|
    ensures Refs(es[i]) <= RefsOfAll(es)
  {
    if i > 0 { RefsMember(es[1..], i - 1); }
  }

  /** The rows agree on the columns: both lack a column, or NULL, or hold the same value. */
  ghost predicate AgreeOn(cols: set<Str>, row: RowMap, row': RowMap) {
    forall c :: c in cols ==>
      (if c in row then row[c] else NewNull) == (if c in row' then row'[c] else NewNull)
  }

  /** An expression sees only the columns it references. */
  lemma {:induction false} EvalSeesRefs(en: Ops, e: Expression, row: RowMap, row': RowMap)
    requires AgreeOn(Refs(e), row, row')
    ensures Eval(en, e, row) == Eval(en, e, row')
  {
    match e {
      case BinaryExpr(_, l, r) =>
        EvalSeesRefs(en, l, row, row');
        EvalSeesRefs(en, r, row, row');
      case UnaryExpr(_, x) => EvalSeesRefs(en, x, row, row');
      case _ =>
    }
  }
}
