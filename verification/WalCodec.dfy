/** The binary form of a batch of writes in the log. */
module WalCodec {
  import opened Keys
  import opened SortedEntries
  import opened Values
  import opened Bytes

  /** A row as the encoder meets it: its columns in the order the map iteration delivers them. */
  datatype WriteRow = WriteRow(key: Str, columns: seq<Entry<Value>>)

  datatype BatchRow = BatchRow(key: Str, version: nat, values: map<Str, Value>)

  function TypeCode(t: DataType): byte {
    match t
    case TypeNull => 0
    case TypeBool => 1
    case TypeInt64 => 2
    case TypeFloat64 => 3
    case TypeString => 4
    case TypeTimestamp => 5
    case TypeDate => 6
    case TypeInt8 => 7
    case TypeInt16 => 8
    case TypeInt32 => 9
    case TypeUint64 => 10
  }

  function TypeOf(b: byte): Option<DataType> {
    if b == 0 then Some(TypeNull)
    else if b == 1 then Some(TypeBool)
    else if b == 2 then Some(TypeInt64)
    else if b == 3 then Some(TypeFloat64)
    else if b == 4 then Some(TypeString)
    else if b == 5 then Some(TypeTimestamp)
    else if b == 6 then Some(TypeDate)
    else if b == 7 then Some(TypeInt8)
    else if b == 8 then Some(TypeInt16)
    else if b == 9 then Some(TypeInt32)
    else if b == 10 then Some(TypeUint64)
    else None
  }

  // ----- encoding -----

  function ValueBytes(v: Value): Buffer {
    match v.typ
    case TypeBool => [if v.num != 0 then 1 else 0]
    case TypeFloat64 => LE(v.flt, 8)
    case TypeString => LE(|v.str|, 2) + v.str
    case TypeTimestamp => Int64Bytes(v.nanos)
    case TypeNull => []
    case _ => Int64Bytes(v.num)
  }

  function ColumnBytes(c: Entry<Value>): Buffer {
    LE(|c.key|, 2) + (c.key + ([TypeCode(c.value.typ)] + ([if c.value.valid then 1 else 0] + ValueBytes(c.value))))
  }

  function ColumnsBytes(cs: seq<Entry<Value>>): Buffer {
    if cs == [] then [] else ColumnBytes(cs[0]) + ColumnsBytes(cs[1..])
  }

  function RowBytes(row: WriteRow, version: nat): Buffer {
    LE(|row.key|, 2) + (row.key + (LE(version, 8) + (LE(|row.columns|, 2) + ColumnsBytes(row.columns))))
  }

  function RowsBytes(rows: seq<WriteRow>, version: nat): Buffer {
    if rows == [] then [] else RowBytes(rows[0], version) + RowsBytes(rows[1..], version + 1)
  }

  function BatchBytes(rows: seq<WriteRow>, nextVersion: nat): Buffer {
    LE(|rows|, 2) + RowsBytes(rows, nextVersion)
  }

  lemma {:induction false} ColumnsConcat(a: seq<Entry<Value>>, b: seq<Entry<Value>>)
    ensures ColumnsBytes(a + b) == ColumnsBytes(a) + ColumnsBytes(b)
  {
    hide ColumnBytes;
    if a == [] {
      assert a + b == b;
    } else {
      assert (a + b)[1..] == a[1..] + b;
      ColumnsConcat(a[1..], b);
    }
  }

  lemma {:induction false} RowsConcat(a: seq<WriteRow>, b: seq<WriteRow>, version: nat)
    ensures RowsBytes(a + b, version) == RowsBytes(a, version) + RowsBytes(b, version + |a|)
  {
    hide RowBytes;
    if a == [] {
      assert a + b == b;
    } else {
      assert (a + b)[1..] == a[1..] + b;
      RowsConcat(a[1..], b, version + 1);
    }
  }

  /** The encoder: rows get consecutive versions. */
  method SerializeBatchWriteRecord(rows: seq<WriteRow>, nextVersion: nat) returns (buf: Buffer)
    ensures buf == BatchBytes(rows, nextVersion)
  {
    hide RowBytes, LE;
    ghost var head := LE(|rows|, 2);
    buf := LE(|rows|, 2);
    var version := nextVersion;
    for i := 0 to |rows|
      invariant version == nextVersion + i
      invariant buf == head + RowsBytes(rows[..i], nextVersion)
    {
      assert rows[..i + 1] == rows[..i] + [rows[i]];
      RowsConcat(rows[..i], [rows[i]], nextVersion);
      OneRow(rows[i], version);
      buf := AppendRow(buf, rows[i], version);
      version := version + 1;
    }
    assert rows[..|rows|] == rows;
  }

  lemma OneRow(row: WriteRow, version: nat)
    ensures RowsBytes([row], version) == RowBytes(row, version)
  {
    hide RowBytes;
    assert [row][1..] == [];
    assert RowsBytes([row], version) == RowBytes(row, version) + RowsBytes([], version + 1);
  }

  method AppendRow(before: Buffer, row: WriteRow, version: nat) returns (buf: Buffer)
    ensures buf == before + RowBytes(row, version)
  {
    hide ColumnBytes, LE;
    buf := before + LE(|row.key|, 2);
    buf := buf + row.key;
    buf := buf + LE(version, 8);
    buf := buf + LE(|row.columns|, 2);
    ghost var head := buf;
    for i := 0 to |row.columns|
      invariant buf == head + ColumnsBytes(row.columns[..i])
    {
      var c := row.columns[i];
      assert row.columns[..i + 1] == row.columns[..i] + [c];
      ColumnsConcat(row.columns[..i], [c]);
      assert [c][1..] == [] && ColumnsBytes([c]) == ColumnBytes(c) + ColumnsBytes([]);
      buf := buf + ColumnBytes(c);
    }
    assert row.columns[..|row.columns|] == row.columns;
  }

  // ----- decoding -----

  /** The value's bytes by type, before the NULL flag is put back; TypeNull is not a known type here. */
  function ReadTypedValue(data: Buffer, pos: nat, typ: DataType): Read<Value> {
    match typ
    case TypeNull => Bad
    case TypeBool =>
      if pos < |data| then Got(Value(TypeBool, false, if data[pos] != 0 then 1 else 0, 0, [], 0), pos + 1) else Bad
    case TypeFloat64 =>
      var r := ReadNumber(data, pos, 8);
      if r.Bad? then Bad else Got(Value(TypeFloat64, false, 0, FloatOf(r.value), [], 0), r.next)
    case TypeTimestamp =>
      if pos + 8 <= |data| then Got(Value(TypeTimestamp, false, 0, 0, [], Int64Of(data[pos..pos + 8])), pos + 8) else Bad
    case TypeString =>
      var n := ReadNumber(data, pos, 2);
      if n.Bad? then Bad
      else
        var s := ReadBytes(data, n.next, n.value);
        if s.Bad? then Bad else Got(Value(TypeString, false, 0, 0, s.value, 0), s.next)
    case _ =>
      if pos + 8 <= |data| then Got(NewIntFamilyValue(typ, Int64Of(data[pos..pos + 8])), pos + 8) else Bad
  }

  function FloatOf(n: nat): Float64 {
    n % TWO64
  }

  function ReadColumn(data: Buffer, pos: nat): Read<Entry<Value>> {
    var n := ReadNumber(data, pos, 2);
    if n.Bad? then Bad
    else
      var name := ReadBytes(data, n.next, n.value);
      if name.Bad? || name.next + 2 > |data| then Bad
      else
        var typ := TypeOf(data[name.next]);
        if typ.None? then Bad
        else
          var v := ReadTypedValue(data, name.next + 2, typ.value);
          if v.Bad? then Bad
          else Got(Entry(name.value, v.value.(valid := data[name.next + 1] != 0)), v.next)
  }

  function ReadColumns(data: Buffer, pos: nat, n: nat): Read<seq<Entry<Value>>>
    decreases n
  {
    if n == 0 then Got([], pos)
    else
      var c := ReadColumn(data, pos);
      if c.Bad? then Bad
      else
        var more := ReadColumns(data, c.next, n - 1);
        if more.Bad? then Bad else Got([c.value] + more.value, more.next)
  }

  function ReadRow(data: Buffer, pos: nat): Read<BatchRow> {
    var n := ReadNumber(data, pos, 2);
    if n.Bad? then Bad
    else
      var key := ReadBytes(data, n.next, n.value);
      if key.Bad? then Bad
      else
        var version := ReadNumber(data, key.next, 8);
        if version.Bad? then Bad
        else
          var count := ReadNumber(data, version.next, 2);
          if count.Bad? then Bad
          else
            var cs := ReadColumns(data, count.next, count.value);
            if cs.Bad? then Bad else Got(BatchRow(key.value, version.value, ToMap(cs.value)), cs.next)
  }

  function ReadRows(data: Buffer, pos: nat, n: nat): Read<seq<BatchRow>>
    decreases n
  {
    if n == 0 then Got([], pos)
    else
      var r := ReadRow(data, pos);
      if r.Bad? then Bad
      else
        var more := ReadRows(data, r.next, n - 1);
        if more.Bad? then Bad else Got([r.value] + more.value, more.next)
  }

  /** The rows of a batch payload, None when any part of it is malformed. */
  function Decode(data: Buffer): Option<seq<BatchRow>> {
    var n := ReadNumber(data, 0, 2);
    if n.Bad? then None
    else
      var rows := ReadRows(data, n.next, n.value);
      if rows.Bad? then None else Some(rows.value)
  }

  /** The decoder's loop over rows. */
  method DeserializeBatchWriteRecord(data: Buffer) returns (rows: Option<seq<BatchRow>>)
    ensures rows == Decode(data)
  {
    hide ReadRow;
    if |data| < 2 {
      return None;
    }
    var n := ReadNumber(data, 0, 2);
    var out: seq<BatchRow>, off := [], n.next;
    ghost var all := ReadRows(data, n.next, n.value);
    for i := 0 to n.value
      invariant all.Bad? <==> ReadRows(data, off, n.value - i).Bad?
      invariant all.Got? ==> all.value == out + ReadRows(data, off, n.value - i).value
    {
      var r := ReadRow(data, off);
      if r.Bad? {
        return None;
      }
      if all.Got? {
        assert out + ([r.value] + ReadRows(data, r.next, n.value - i - 1).value) == out + [r.value] + ReadRows(data, r.next, n.value - i - 1).value;
      }
      out := out + [r.value];
      off := r.next;
    }
    assert out + [] == out;
    return Some(out);
  }

  // ----- round trip -----

  /** The value as the decoder rebuilds it: the fields its type does not use are zero. */
  function Norm(v: Value): Value {
    match v.typ
    case TypeNull => Value(TypeNull, v.valid, 0, 0, [], 0)
    case TypeBool => Value(TypeBool, v.valid, if v.num != 0 then 1 else 0, 0, [], 0)
    case TypeFloat64 => Value(TypeFloat64, v.valid, 0, v.flt, [], 0)
    case TypeString => Value(TypeString, v.valid, 0, 0, v.str, 0)
    case TypeTimestamp => Value(TypeTimestamp, v.valid, 0, 0, [], v.nanos)
    case _ => Value(v.typ, v.valid, v.num, 0, [], 0)
  }

  function NormColumns(cs: seq<Entry<Value>>): (r: seq<Entry<Value>>)
    ensures |r| == |cs| && forall i :: 0 <= i < |r| ==> r[i] == Entry(cs[i].key, Norm(cs[i].value))
  {
    seq(|cs|, i requires 0 <= i < |cs| => Entry(cs[i].key, Norm(cs[i].value)))
  }

  function RowOf(row: WriteRow, version: nat): BatchRow {
    BatchRow(row.key, version, ToMap(NormColumns(row.columns)))
  }

  function RowsOf(rows: seq<WriteRow>, version: nat): (r: seq<BatchRow>)
    ensures |r| == |rows| && forall i :: 0 <= i < |r| ==> r[i] == RowOf(rows[i], version + i)
  {
    seq(|rows|, i requires 0 <= i < |rows| => RowOf(rows[i], version + i))
  }

  predicate SizedText(v: Value) {
    v.typ.TypeString? ==> |v.str| < TWO16
  }

  predicate SizedColumn(c: Entry<Value>) {
    |c.key| < TWO16 && SizedText(c.value)
  }

  /** Lengths and counts within a row that the 16-bit fields can hold. */
  ghost predicate SizedRow(row: WriteRow) {
    |row.key| < TWO16 && |row.columns| < TWO16 && forall i :: 0 <= i < |row.columns| ==> SizedColumn(row.columns[i])
  }

  ghost predicate SizedBatch(rows: seq<WriteRow>, version: nat) {
    version + |rows| <= TWO64 && forall i :: 0 <= i < |rows| ==> SizedRow(rows[i])
  }

  ghost predicate HasNullType(cs: seq<Entry<Value>>) {
    exists i :: 0 <= i < |cs| && cs[i].value.typ.TypeNull?
  }

  ghost predicate Reads(r: Read<Value>, v: Value, end: nat) {
    r.Got? && r.next == end && r.value.(valid := v.valid) == Norm(v)
  }

  lemma ValueReads(data: Buffer, pos: nat, v: Value)
    requires Has(data, pos, ValueBytes(v)) && SizedText(v)
    ensures v.typ.TypeNull? ==> ReadTypedValue(data, pos, v.typ).Bad?
    ensures !v.typ.TypeNull? ==> Reads(ReadTypedValue(data, pos, v.typ), v, pos + |ValueBytes(v)|)
  {
    hide LE, FromLE, Int64Of, Int64Bytes;
    PowValues();
    match v.typ {
      case TypeNull =>
      case TypeBool => assert data[pos] == ValueBytes(v)[0];
      case TypeFloat64 => ReadsNumber(data, pos, v.flt, 8);
      case TypeString =>
        HasSplit(data, pos, LE(|v.str|, 2), v.str);
        ReadsNumber(data, pos, |v.str|, 2);
        ReadsBytes(data, pos + 2, v.str);
      case TypeTimestamp => Int64RoundTrip(v.nanos);
      case _ => Int64RoundTrip(v.num);
    }
  }

  lemma CodeOfType(t: DataType)
    ensures TypeOf(TypeCode(t)) == Some(t)
  {
  }

  lemma HasByte(data: Buffer, pos: nat, b: byte, rest: Buffer)
    requires Has(data, pos, [b] + rest)
    ensures pos < |data| && data[pos] == b && Has(data, pos + 1, rest)
  {
    HasSplit(data, pos, [b], rest);
    assert data[pos..pos + 1] == [b];
  }

  lemma ColumnReads(data: Buffer, pos: nat, c: Entry<Value>)
    requires Has(data, pos, ColumnBytes(c)) && SizedColumn(c)
    ensures ReadColumn(data, pos) ==
      if c.value.typ.TypeNull? then Bad else Got(Entry(c.key, Norm(c.value)), pos + |ColumnBytes(c)|)
  {
    hide Has, LE, FromLE, ValueBytes, ReadTypedValue, TypeCode, TypeOf, Norm;
    var flag: byte, code := if c.value.valid then 1 else 0, TypeCode(c.value.typ);
    var tail := [code] + ([flag] + ValueBytes(c.value));
    var at := pos + 2 + |c.key|;
    PowValues();
    HasSplit(data, pos, LE(|c.key|, 2), c.key + tail);
    HasSplit(data, pos + 2, c.key, tail);
    ReadsNumber(data, pos, |c.key|, 2);
    ReadsBytes(data, pos + 2, c.key);
    HasByte(data, at, code, [flag] + ValueBytes(c.value));
    HasByte(data, at + 1, flag, ValueBytes(c.value));
    CodeOfType(c.value.typ);
    ValueReads(data, at + 2, c.value);
  }

  lemma {:induction false} ColumnsRead(data: Buffer, pos: nat, cs: seq<Entry<Value>>)
    requires Has(data, pos, ColumnsBytes(cs)) && forall i :: 0 <= i < |cs| ==> SizedColumn(cs[i])
    ensures ReadColumns(data, pos, |cs|) ==
      if HasNullType(cs) then Bad else Got(NormColumns(cs), pos + |ColumnsBytes(cs)|)
    decreases |cs|
  {
    hide ColumnBytes, ReadColumn, Norm, SizedColumn;
    if cs != [] {
      HasSplit(data, pos, ColumnBytes(cs[0]), ColumnsBytes(cs[1..]));
      ColumnReads(data, pos, cs[0]);
      ColumnsRead(data, pos + |ColumnBytes(cs[0])|, cs[1..]);
      NullTypeCons(cs);
      assert NormColumns(cs) == [Entry(cs[0].key, Norm(cs[0].value))] + NormColumns(cs[1..]);
      hide HasNullType;
    }
  }

  lemma NullTypeCons(cs: seq<Entry<Value>>)
    requires cs != []
    ensures HasNullType(cs) <==> cs[0].value.typ.TypeNull? || HasNullType(cs[1..])
  {
    if i :| 0 <= i < |cs[1..]| && cs[1..][i].value.typ.TypeNull? { assert cs[i + 1].value.typ.TypeNull?; }
    if i :| 0 < i < |cs| && cs[i].value.typ.TypeNull? { assert cs[1..][i - 1].value.typ.TypeNull?; }
  }

  ghost predicate AnyNullType(rows: seq<WriteRow>) {
    exists i :: 0 <= i < |rows| && HasNullType(rows[i].columns)
  }

  lemma NullRowCons(rows: seq<WriteRow>)
    requires rows != []
    ensures AnyNullType(rows) <==> HasNullType(rows[0].columns) || AnyNullType(rows[1..])
  {
    hide HasNullType;
    if i :| 0 <= i < |rows[1..]| && HasNullType(rows[1..][i].columns) { assert HasNullType(rows[i + 1].columns); }
    if i :| 0 < i < |rows| && HasNullType(rows[i].columns) { assert HasNullType(rows[1..][i - 1].columns); }
  }

  lemma NoNullRow()
    ensures !AnyNullType([])
  {
  }

  lemma RowReads(data: Buffer, pos: nat, row: WriteRow, version: nat)
    requires Has(data, pos, RowBytes(row, version)) && SizedRow(row) && version < TWO64
    ensures ReadRow(data, pos) ==
      if HasNullType(row.columns) then Bad else Got(RowOf(row, version), pos + |RowBytes(row, version)|)
  {
    hide Has, LE, FromLE, ColumnsBytes, ReadColumns, HasNullType, ToMap, NormColumns;
    var cols := ColumnsBytes(row.columns);
    var at := pos + 2 + |row.key|;
    PowValues();
    HasSplit(data, pos, LE(|row.key|, 2), row.key + (LE(version, 8) + (LE(|row.columns|, 2) + cols)));
    HasSplit(data, pos + 2, row.key, LE(version, 8) + (LE(|row.columns|, 2) + cols));
    HasSplit(data, at, LE(version, 8), LE(|row.columns|, 2) + cols);
    HasSplit(data, at + 8, LE(|row.columns|, 2), cols);
    ReadsNumber(data, pos, |row.key|, 2);
    ReadsBytes(data, pos + 2, row.key);
    ReadsNumber(data, at, version, 8);
    ReadsNumber(data, at + 8, |row.columns|, 2);
    ColumnsRead(data, at + 10, row.columns);
  }

  lemma {:induction false} RowsRead(data: Buffer, pos: nat, rows: seq<WriteRow>, version: nat)
    requires Has(data, pos, RowsBytes(rows, version)) && version + |rows| <= TWO64
    requires forall i :: 0 <= i < |rows| ==> SizedRow(rows[i])
    ensures ReadRows(data, pos, |rows|) ==
      if AnyNullType(rows) then Bad
      else Got(RowsOf(rows, version), pos + |RowsBytes(rows, version)|)
    decreases |rows|
  {
    hide RowBytes, ReadRow, RowOf, SizedRow, HasNullType, AnyNullType;
    NoNullRow();
    if rows != [] {
      HasSplit(data, pos, RowBytes(rows[0], version), RowsBytes(rows[1..], version + 1));
      RowReads(data, pos, rows[0], version);
      RowsRead(data, pos + |RowBytes(rows[0], version)|, rows[1..], version + 1);
      assert RowsOf(rows, version) == [RowOf(rows[0], version)] + RowsOf(rows[1..], version + 1);
      NullRowCons(rows);
    }
  }

  /** The two low bytes of a number do not depend on the rest. */
  lemma LowBytes(q: nat, r: nat)
    requires r < 256
    ensures (256 * q + r) % 256 == r && (256 * q + r) / 256 == q
  {
  }

  lemma TwoBytes(n: nat)
    ensures LE(n, 2) == [(n % 256) as byte, (n / 256 % 256) as byte]
  {
    assert LE(n / 256, 1) == [(n / 256 % 256) as byte] + LE(n / 256 / 256, 0);
  }

  lemma LowSixteen(q: nat, r: nat)
    requires r < TWO16
    ensures (TWO16 * q + r) % TWO16 == r
  {
  }

  /** A number by its two low bytes and the rest. */
  lemma ByteParts(n: nat) returns (q: nat, b: nat, a: nat)
    ensures a < 256 && b < 256 && n == 256 * (256 * q + b) + a
  {
    var m := n / 256;
    q, b, a := m / 256, m % 256, n % 256;
  }

  lemma LowBytesOf(q: nat, b: nat, a: nat)
    requires a < 256 && b < 256
    ensures LE(256 * (256 * q + b) + a, 2) == [a as byte, b as byte]
  {
    hide LE;
    LowBytes(256 * q + b, a);
    LowBytes(q, b);
    TwoBytes(256 * (256 * q + b) + a);
  }

  /** The count field holds the count modulo 65536. */
  lemma CountWraps(n: nat)
    ensures LE(n, 2) == LE(n % TWO16, 2)
  {
    hide LE;
    var q, b, a := ByteParts(n);
    LowSixteen(q, 256 * b + a);
    assert n == TWO16 * q + (256 * b + a);
    LowBytesOf(q, b, a);
    LowBytesOf(0, b, a);
  }

  /** Decoding an encoded batch gives its rows and versions back, or, as soon as one value has
      type NULL, nothing at all: the batch is then skipped when the log is replayed. Of a batch of
      65536 rows or more only the rows its wrapped count covers are read. */
  lemma DecodeOfEncoded(rows: seq<WriteRow>, version: nat)
    requires SizedBatch(rows, version)
    ensures var kept := rows[..|rows| % TWO16];
      Decode(BatchBytes(rows, version)) == if AnyNullType(kept) then None else Some(RowsOf(kept, version))
  {
    hide LE, FromLE, RowsBytes, ReadRows, RowsOf, HasNullType, SizedRow;
    var data, n := BatchBytes(rows, version), |rows| % TWO16;
    PowValues();
    HasAll(data);
    HasSplit(data, 0, LE(|rows|, 2), RowsBytes(rows, version));
    CountWraps(|rows|);
    ReadsNumber(data, 0, n, 2);
    assert rows == rows[..n] + rows[n..];
    RowsConcat(rows[..n], rows[n..], version);
    HasSplit(data, 2, RowsBytes(rows[..n], version), RowsBytes(rows[n..], version + n));
    RowsRead(data, 2, rows[..n], version);
  }

  // ----- what a decoder can return -----

  /** Of a type the reader knows, its text measured in 16 bits. */
  predicate Readable(v: Value) {
    !v.typ.TypeNull? && SizedText(v)
  }

  ghost predicate ReadableColumns(cs: seq<Entry<Value>>) {
    forall i :: 0 <= i < |cs| ==> |cs[i].key| < TWO16 && Readable(cs[i].value)
  }

  ghost predicate ReadableRow(r: BatchRow) {
    |r.key| < TWO16 && |r.values| < TWO16 && forall k :: k in r.values ==> |k| < TWO16 && Readable(r.values[k])
  }

  lemma NumberIsSmall(data: Buffer, pos: nat)
    ensures var r := ReadNumber(data, pos, 2); r.Got? ==> r.value < TWO16
  {
    PowValues();
    if pos + 2 <= |data| { FromLEBound(data[pos..pos + 2]); }
  }

  lemma ColumnIsReadable(data: Buffer, pos: nat)
    ensures var r := ReadColumn(data, pos); r.Got? ==> |r.value.key| < TWO16 && Readable(r.value.value)
  {
    hide Int64Of, FromLE;
    NumberIsSmall(data, pos);
    var n := ReadNumber(data, pos, 2);
    if n.Got? {
      var name := ReadBytes(data, n.next, n.value);
      if name.Got? { NumberIsSmall(data, name.next + 2); }
    }
  }

  lemma {:induction false} ColumnsAreReadable(data: Buffer, pos: nat, n: nat)
    ensures var r := ReadColumns(data, pos, n); r.Got? ==> |r.value| == n && ReadableColumns(r.value)
    decreases n
  {
    hide ReadColumn, Readable;
    if n > 0 {
      ColumnIsReadable(data, pos);
      var c := ReadColumn(data, pos);
      if c.Got? { ColumnsAreReadable(data, c.next, n - 1); }
    }
  }

  lemma {:induction false} MapIsReadable(cs: seq<Entry<Value>>)
    requires ReadableColumns(cs)
    ensures |ToMap(cs)| <= |cs|
    ensures forall k :: k in ToMap(cs) ==> |k| < TWO16 && Readable(ToMap(cs)[k])
  {
    hide Readable;
    if cs != [] {
      var n := |cs| - 1;
      MapIsReadable(cs[..n]);
      var before := ToMap(cs[..n]);
      assert ToMap(cs).Keys == before.Keys + {cs[n].key};
      assert |ToMap(cs)| == |ToMap(cs).Keys| && |before| == |before.Keys|;
    }
  }

  lemma RowIsReadable(data: Buffer, pos: nat)
    ensures var r := ReadRow(data, pos); r.Got? ==> ReadableRow(r.value)
  {
    hide ReadColumns, Readable, ToMap, Number;
    NumberIsSmall(data, pos);
    var n := ReadNumber(data, pos, 2);
    if n.Got? {
      var key := ReadBytes(data, n.next, n.value);
      if key.Got? {
        NumberIsSmall(data, key.next + 8);
        var count := ReadNumber(data, key.next + 8, 2);
        if count.Got? {
          ColumnsAreReadable(data, count.next, count.value);
          var cs := ReadColumns(data, count.next, count.value);
          if cs.Got? { MapIsReadable(cs.value); }
        }
      }
    }
  }

  lemma {:induction false} RowsAreReadable(data: Buffer, pos: nat, n: nat)
    ensures var r := ReadRows(data, pos, n); r.Got? ==> |r.value| == n && forall i :: 0 <= i < n ==> ReadableRow(r.value[i])
    decreases n
  {
    hide ReadRow, ReadableRow;
    if n > 0 {
      RowIsReadable(data, pos);
      var row := ReadRow(data, pos);
      if row.Got? { RowsAreReadable(data, row.next, n - 1); }
    }
  }

  /** Whatever the bytes, a decoded batch has fewer than 65536 rows, all of them readable. */
  lemma DecodedIsReadable(data: Buffer)
    ensures var r := Decode(data); r.Some? ==> |r.value| < TWO16 && forall i :: 0 <= i < |r.value| ==> ReadableRow(r.value[i])
  {
    hide ReadRows, ReadableRow, Number;
    NumberIsSmall(data, 0);
    var n := ReadNumber(data, 0, 2);
    if n.Got? { RowsAreReadable(data, n.next, n.value); }
  }

  /** As many rows are decoded as the wrapped count says. */
  lemma DecodedCount(rows: seq<WriteRow>, version: nat)
    ensures var r := Decode(BatchBytes(rows, version)); r.Some? ==> |r.value| == |rows| % TWO16
  {
    hide LE, FromLE, RowsBytes, ReadRows, ReadableRow;
    var data := BatchBytes(rows, version);
    PowValues();
    HasAll(data);
    HasSplit(data, 0, LE(|rows|, 2), RowsBytes(rows, version));
    CountWraps(|rows|);
    ReadsNumber(data, 0, |rows| % TWO16, 2);
    RowsAreReadable(data, 2, |rows| % TWO16);
  }

  /** The columns of a map: no name twice. */
  ghost predicate DistinctColumns(cs: seq<Entry<Value>>) {
    forall i, j :: 0 <= i < j < |cs| ==> cs[i].key != cs[j].key
  }

  /** Lengths and counts fit the 16-bit fields and no value has type NULL. */
  ghost predicate Survives(rows: seq<WriteRow>) {
    |rows| < TWO16 && forall i :: 0 <= i < |rows| ==> SizedRow(rows[i]) && !HasNullType(rows[i].columns)
  }

  lemma NormReadable(v: Value)
    ensures Readable(Norm(v)) <==> Readable(v)
  {
  }

  lemma {:induction false} DistinctCount(cs: seq<Entry<Value>>)
    requires DistinctColumns(cs)
    ensures |ToMap(cs)| == |cs|
  {
    if cs != [] {
      var n := |cs| - 1;
      DistinctCount(cs[..n]);
      ToMapKeys(cs[..n], cs[n].key);
      assert ToMap(cs).Keys == ToMap(cs[..n]).Keys + {cs[n].key};
      assert |ToMap(cs)| == |ToMap(cs).Keys| && |ToMap(cs[..n])| == |ToMap(cs[..n]).Keys|;
    }
  }

  /** A row that came back was one the fields can hold. */
  lemma ReadableCameBack(row: WriteRow, version: nat)
    requires DistinctColumns(row.columns) && ReadableRow(RowOf(row, version))
    ensures SizedRow(row) && !HasNullType(row.columns)
  {
    hide Readable, Norm, ToMap;
    var cs := NormColumns(row.columns);
    assert DistinctColumns(cs);
    DistinctCount(cs);
    forall i | 0 <= i < |cs| ensures |row.columns[i].key| < TWO16 && Readable(row.columns[i].value) {
      DistinctLookup(cs, i);
      NormReadable(row.columns[i].value);
    }
    ReadableIsSized(row.columns);
  }

  lemma ReadableIsSized(cs: seq<Entry<Value>>)
    requires ReadableColumns(cs)
    ensures !HasNullType(cs) && forall i :: 0 <= i < |cs| ==> SizedColumn(cs[i])
  {
  }

  /** Exactly these batches come back from the log as they were written: fewer than 65536 rows, lengths
      and column counts below 65536, no value of type NULL. */
  lemma SurvivesReplayIff(rows: seq<WriteRow>, version: nat)
    requires version + |rows| <= TWO64 && forall i :: 0 <= i < |rows| ==> DistinctColumns(rows[i].columns)
    ensures Decode(BatchBytes(rows, version)) == Some(RowsOf(rows, version)) <==> Survives(rows)
  {
    hide HasNullType, SizedRow, Decode, BatchBytes, ReadableRow, DistinctColumns, RowOf;
    var r := Decode(BatchBytes(rows, version));
    if Survives(rows) {
      assert rows[..|rows|] == rows;
      DecodeOfEncoded(rows, version);
      NoneHasNullType(rows);
    } else if r == Some(RowsOf(rows, version)) {
      DecodedIsReadable(BatchBytes(rows, version));
      forall i | 0 <= i < |rows| ensures SizedRow(rows[i]) && !HasNullType(rows[i].columns) {
        assert RowsOf(rows, version)[i] == RowOf(rows[i], version + i);
        ReadableCameBack(rows[i], version + i);
      }
      assert false;
    }
  }

  lemma NoneHasNullType(rows: seq<WriteRow>)
    requires forall i :: 0 <= i < |rows| ==> !HasNullType(rows[i].columns)
    ensures !AnyNullType(rows)
  {
  }

  /** The same columns in another order decode to the same map. */
  lemma OrderDoesNotMatter(a: seq<Entry<Value>>, b: seq<Entry<Value>>)
    requires |a| == |b| && (forall i, j :: 0 <= i < j < |a| ==> a[i].key != a[j].key)
    requires forall i, j :: 0 <= i < j < |b| ==> b[i].key != b[j].key
    requires forall e :: e in a <==> e in b
    ensures ToMap(NormColumns(a)) == ToMap(NormColumns(b))
  {
    hide ToMap, Norm;
    var x, y := NormColumns(a), NormColumns(b);
    forall k ensures k in ToMap(x) <==> k in ToMap(y)
      ensures k in ToMap(x) && k in ToMap(y) ==> ToMap(x)[k] == ToMap(y)[k]
    {
      SameLookups(a, b, k);
      SameLookups(b, a, k);
    }
  }

  lemma SameLookups(a: seq<Entry<Value>>, b: seq<Entry<Value>>, k: Key)
    requires forall i, j :: 0 <= i < j < |a| ==> a[i].key != a[j].key
    requires forall i, j :: 0 <= i < j < |b| ==> b[i].key != b[j].key
    requires forall e :: e in a ==> e in b
    ensures k in ToMap(NormColumns(a)) ==> k in ToMap(NormColumns(b)) && ToMap(NormColumns(a))[k] == ToMap(NormColumns(b))[k]
  {
    hide ToMap, Norm;
    var x, y := NormColumns(a), NormColumns(b);
    ToMapKeys(x, k);
    if k in ToMap(x) {
      var i :| 0 <= i < |x| && x[i].key == k;
      assert a[i] in b;
      var j :| 0 <= j < |b| && b[j] == a[i];
      DistinctLookup(x, i);
      DistinctLookup(y, j);
    }
  }

  /** With distinct keys the map holds every entry. */
  lemma {:induction false} DistinctLookup(s: seq<Entry<Value>>, i: nat)
    requires i < |s| && forall j, k :: 0 <= j < k < |s| ==> s[j].key != s[k].key
    ensures s[i].key in ToMap(s) && ToMap(s)[s[i].key] == s[i].value
  {
    if i < |s| - 1 { DistinctLookup(s[..|s| - 1], i); }
  }
}
