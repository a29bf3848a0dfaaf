/** Column values and the comparisons every layer shares. */
module Values {
  import opened Keys

  const INT64_MIN: int := -0x8000_0000_0000_0000
  const INT64_MAX: int := 0x7FFF_FFFF_FFFF_FFFF

  type Int64 = x: int | INT64_MIN <= x <= INT64_MAX
  /** The bits of a float64; what they mean is left to `FloatOps`. */
  type Float64 = x: int | 0 <= x < 0x1_0000_0000_0000_0000

  datatype DataType =
    | TypeNull | TypeBool | TypeInt64 | TypeFloat64 | TypeString | TypeTimestamp
    | TypeDate | TypeInt8 | TypeInt16 | TypeInt32 | TypeUint64
  {
    predicate IsIntFamily() {
      TypeInt64? || TypeInt8? || TypeInt16? || TypeInt32? || TypeUint64? || TypeDate?
    }
  }

  /** A tagged record: `typ` selects the meaningful field, `valid` false is NULL. */
  datatype Value = Value(typ: DataType, valid: bool, num: Int64, flt: Float64, str: Str, nanos: Int64)

  const NewNull: Value := Value(TypeNull, false, 0, 0, [], 0)

  function NewBool(b: bool): Value {
    Value(TypeBool, true, if b then 1 else 0, 0, [], 0)
  }

  function NewInt64(n: Int64): Value {
    Value(TypeInt64, true, n, 0, [], 0)
  }

  function NewFloat64(f: Float64): Value {
    Value(TypeFloat64, true, 0, f, [], 0)
  }

  function NewString(s: Str): Value {
    Value(TypeString, true, 0, 0, s, 0)
  }

  function NewTimestamp(t: Int64): Value {
    Value(TypeTimestamp, true, 0, 0, [], t)
  }

  function NewIntFamilyValue(typ: DataType, n: Int64): Value {
    Value(if typ.IsIntFamily() then typ else TypeInt64, true, n, 0, [], 0)
  }

  /** Floating point and text formatting are parameters: every theorem holds for any
      choice of these functions (NaN included) unless it names a law it needs. */
  datatype FloatOps = FloatOps(
    ofInt: Int64 -> Float64,
    toInt: Float64 -> Int64,
    eq: (Float64, Float64) -> bool,
    lt: (Float64, Float64) -> bool,
    nonzero: Float64 -> bool,
    neg: Float64 -> Float64,
    add: (Float64, Float64) -> Float64,
    sub: (Float64, Float64) -> Float64,
    mul: (Float64, Float64) -> Float64,
    div: (Float64, Float64) -> Float64,
    text: Value -> Str)

  predicate IsFloatIntCross(a: DataType, b: DataType) {
    (a.TypeFloat64? && b.IsIntFamily()) || (b.TypeFloat64? && a.IsIntFamily())
  }

  function Float64Value(fp: FloatOps, v: Value): Float64 {
    if v.typ.TypeFloat64? then v.flt
    else if v.typ.IsIntFamily() then fp.ofInt(v.num)
    else 0
  }

  predicate Equal(fp: FloatOps, v: Value, w: Value) {
    if !v.valid && !w.valid then true
    else if !v.valid || !w.valid then false
    else if v.typ.IsIntFamily() && w.typ.IsIntFamily() then v.num == w.num
    else if IsFloatIntCross(v.typ, w.typ) then fp.eq(Float64Value(fp, v), Float64Value(fp, w))
    else if v.typ != w.typ then false
    else match v.typ
      case TypeBool => v.num == w.num
      case TypeInt64 => v.num == w.num
      case TypeFloat64 => fp.eq(v.flt, w.flt)
      case TypeString => v.str == w.str
      case TypeTimestamp => v.nanos == w.nanos
      case _ => false
  }

  predicate LessThan(fp: FloatOps, v: Value, w: Value) {
    if !v.valid || !w.valid then false
    else if v.typ.IsIntFamily() && w.typ.IsIntFamily() then v.num < w.num
    else if IsFloatIntCross(v.typ, w.typ) then fp.lt(Float64Value(fp, v), Float64Value(fp, w))
    else if v.typ != w.typ then false
    else match v.typ
      case TypeBool => v.num < w.num
      case TypeInt64 => v.num < w.num
      case TypeTimestamp => v.nanos < w.nanos
      case TypeFloat64 => fp.lt(v.flt, w.flt)
      case TypeString => Less(v.str, w.str)
      case _ => false
  }

  predicate IsTruthy(fp: FloatOps, v: Value) {
    if !v.valid then false
    else match v.typ
      case TypeBool => v.num != 0
      case TypeFloat64 => fp.nonzero(v.flt)
      case TypeString => v.str != []
      case _ => if v.typ.IsIntFamily() then v.num != 0 else true
  }

  /** A row in column order. */
  type Cells = seq<Value>

  /** A column accepts NULL, its own type, and any integer type if it is an integer column. */
  predicate Accepts(typ: DataType, v: Value) {
    !v.valid || (typ.IsIntFamily() && v.typ.IsIntFamily()) || v.typ == typ
  }

  /** The value as a column of type `typ` keeps it. */
  function Kept(typ: DataType, v: Value): Value {
    if !v.valid || !Accepts(typ, v) then NewNull
    else match typ
      case TypeBool => NewBool(v.num != 0)
      case TypeFloat64 => NewFloat64(v.flt)
      case TypeString => NewString(v.str)
      case TypeTimestamp => NewTimestamp(v.nanos)
      case TypeNull => NewNull
      case _ => NewIntFamilyValue(typ, v.num)
  }

  /** Said of the parts: `cell` is what a column of type `typ` shows of the value `v`. A value of the column's
      type, or an integer in an integer column, keeps its number, bits, text or instant and takes the column's
      type; anything else is NULL. */
  ghost predicate Shows(typ: DataType, v: Value, cell: Value) {
    if v.valid && !typ.TypeNull? && (v.typ == typ || (v.typ.IsIntFamily() && typ.IsIntFamily())) then
      && cell.valid && cell.typ == typ
      && (typ.TypeBool? ==> (cell.num != 0 <==> v.num != 0))
      && (typ.IsIntFamily() ==> cell.num == v.num)
      && (typ.TypeFloat64? ==> cell.flt == v.flt)
      && (typ.TypeString? ==> cell.str == v.str)
      && (typ.TypeTimestamp? ==> cell.nanos == v.nanos)
    else cell == NewNull
  }

  /** What a column keeps of a value, and which values it accepts. */
  lemma KeptShows(typ: DataType, v: Value)
    ensures Shows(typ, v, Kept(typ, v))
    ensures Accepts(typ, v) <==> !v.valid || v.typ == typ || (v.typ.IsIntFamily() && typ.IsIntFamily())
  {
  }
}
