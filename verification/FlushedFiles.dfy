/** From a memtable to its segment file and back: columns encoded, written, read and decoded. */
module FlushedFiles {
  import opened Keys
  import opened SortedEntries
  import opened Values
  import opened Bytes
  import opened MemTables
  import opened LsmModel
  import Bits = Bitmaps
  import Codecs = ColumnCodecs
  import Files = SegmentFiles
  import Ints = SegmentStatistics
  import WalCodec

  const PLAIN: byte := 0
  const DICT: byte := 1
  const RLE: byte := 2
  const BITMAP: byte := 3

  function ColumnOf(rows: seq<Entry<Cells>>, meta: seq<ColumnMeta>, c: nat): (r: seq<Value>)
    requires Shaped(rows, meta) && c < |meta|
    ensures |r| == |rows| && forall i :: 0 <= i < |rows| ==> r[i] == rows[i].value[c]
  {
    seq(|rows|, i requires 0 <= i < |rows| => rows[i].value[c])
  }

  ghost predicate CanonicalColumn(vals: seq<Value>, typ: DataType) {
    forall i :: 0 <= i < |vals| ==> Kept(typ, vals[i]) == vals[i]
  }

  /** A type the flusher can encode, and few enough rows for 32-bit positions. */
  ghost predicate Encodable(vals: seq<Value>, typ: DataType) {
    !typ.TypeNull? && CanonicalColumn(vals, typ) && |vals| * 4 < TWO32
  }

  // ----- NULL marks -----

  method NullBitmap(vals: seq<Value>) returns (nulls: Bits.Bitmap)
    requires Bits.Fits(|vals|)
    ensures fresh(nulls) && nulls.Valid() && nulls.Contents() == Ints.NullRows(vals)
  {
    nulls := new Bits.Bitmap(|vals|);
    for i := 0 to |vals|
      invariant fresh(nulls) && nulls.Valid() && |nulls.Contents()| == |vals|
      invariant forall j :: 0 <= j < |vals| ==> nulls.Contents()[j] == (j < i && !vals[j].valid)
    {
      hide Bits.Packed, Bits.Unpack;
      if !vals[i].valid {
        nulls.Set(i);
      }
    }
    assert nulls.Contents() == Ints.NullRows(vals);
  }

  /** The bytes of the marks, none when there is no mark. */
  function NullBytes(vals: seq<Value>): Buffer {
    if true in Ints.NullRows(vals) then Bits.PackBytes(Ints.NullRows(vals)) else []
  }

  method EncodeNulls(vals: seq<Value>) returns (nulls: Buffer)
    requires Bits.Fits(|vals|)
    ensures nulls == NullBytes(vals)
  {
    var bm := NullBitmap(vals);
    hide Bits.PackBytes, Bits.Packed, Bits.Unpack;
    var empty := bm.IsEmpty();
    if empty {
      return [];
    }
    nulls := bm.ToBytes();
  }

  /** Is row `i` marked in the decoded marks? */
  predicate Marked(nulls: Buffer, i: nat) {
    Codecs.IsNull(Bits.BitsOf(nulls), i)
  }

  lemma MarksRead(vals: seq<Value>, i: nat)
    requires i < |vals|
    ensures Marked(NullBytes(vals), i) <==> !vals[i].valid
  {
    hide Bits.BitOf, Bits.PackBytes;
    var marks := Ints.NullRows(vals);
    assert marks[i] == !vals[i].valid;
    if true in marks {
      Bits.BytesKeepBits(marks);
      assert Bits.BitsOf(Bits.PackBytes(marks))[i] == marks[i];
    } else {
      assert marks[i] in marks;
    }
  }

  // ----- BOOL columns -----

  /** Whether some row of word `i` is true. */
  predicate AnyTrue(vals: seq<Value>, i: nat) {
    exists j :: 64 * i <= j < 64 * i + 64 && j < |vals| && IsTrue(vals[j])
  }

  /** The column vector packs 64 rows to a word. */
  method PackBools(vals: seq<Value>) returns (words: seq<Bits.Word>)
    ensures |words| == (|vals| + 63) / 64
    ensures forall w, b :: 0 <= w < |words| && 0 <= b < 64 ==> words[w][b] == (64 * w + b < |vals| && IsTrue(vals[64 * w + b]))
  {
    words := Bits.Zeros((|vals| + 63) / 64);
    for i := 0 to |vals|
      invariant |words| == (|vals| + 63) / 64
      invariant forall w, b :: 0 <= w < |words| && 0 <= b < 64 ==> words[w][b] == (64 * w + b < i && IsTrue(vals[64 * w + b]))
    {
      if IsTrue(vals[i]) {
        words := words[i / 64 := Bits.BitOr(words[i / 64], Bits.OneBit(i % 64))];
      }
    }
  }

  lemma WordIsAny(vals: seq<Value>, word: Bits.Word, w: nat)
    requires forall b :: 0 <= b < 64 ==> word[b] == (64 * w + b < |vals| && IsTrue(vals[64 * w + b]))
    ensures word != Bits.ZeroWord() <==> AnyTrue(vals, w)
  {
    if word != Bits.ZeroWord() {
      var b :| 0 <= b < 64 && word[b];
      assert IsTrue(vals[64 * w + b]);
    }
    if j :| 64 * w <= j < 64 * w + 64 && j < |vals| && IsTrue(vals[j]) {
      assert word[j - 64 * w];
      assert !Bits.ZeroWord()[j - 64 * w];
    }
  }

  function AnyTrues(vals: seq<Value>): (r: seq<bool>)
    ensures |r| == |vals| && forall i :: 0 <= i < |vals| ==> r[i] == AnyTrue(vals, i)
  {
    seq(|vals|, i requires 0 <= i < |vals| => AnyTrue(vals, i))
  }

  /** The bitmap encoder, which tests one word for each row while there are words left. */
  method EncodeBitmap(words: seq<Bits.Word>, rowCount: nat, ghost vals: seq<Value>) returns (data: Buffer)
    requires rowCount == |vals| && Bits.Fits(rowCount) && |words| == (rowCount + 63) / 64
    requires forall w, b :: 0 <= w < |words| && 0 <= b < 64 ==> words[w][b] == (64 * w + b < |vals| && IsTrue(vals[64 * w + b]))
    ensures data == Bits.PackBytes(AnyTrues(vals))
  {
    hide AnyTrue, Bits.Packed, Bits.Unpack;
    var bm := new Bits.Bitmap(rowCount);
    var i := 0;
    while i < rowCount && i < |words|
      invariant i <= rowCount && i <= |words|
      invariant fresh(bm) && bm.Valid() && |bm.Contents()| == rowCount
      invariant forall j :: 0 <= j < rowCount ==> bm.Contents()[j] == (j < i && AnyTrue(vals, j))
    {
      WordIsAny(vals, words[i], i);
      if words[i] != Bits.ZeroWord() {
        bm.Set(i);
      }
      i := i + 1;
    }
    forall j | i <= j < rowCount ensures !AnyTrue(vals, j) { NoWordLeft(vals, j); }
    assert bm.Contents() == AnyTrues(vals);
    data := bm.ToBytes();
  }

  lemma NoWordLeft(vals: seq<Value>, j: nat)
    requires j >= (|vals| + 63) / 64
    ensures !AnyTrue(vals, j)
  {
  }

  /** The bitmap decoder. */
  method DecodeBitmap(data: Buffer, rowCount: nat) returns (bools: seq<bool>)
    requires Bits.Fits(8 * |data|)
    ensures |bools| == rowCount && forall i :: 0 <= i < rowCount ==> bools[i] == Codecs.IsNull(Bits.BitsOf(data), i)
  {
    hide Bits.Packed, Bits.Unpack, Bits.BitOf;
    var bm := new Bits.Bitmap.FromBytes(data);
    bools := [];
    for i := 0 to rowCount
      invariant |bools| == i && forall j :: 0 <= j < i ==> bools[j] == Codecs.IsNull(Bits.BitsOf(data), j)
      invariant bm.Valid() && bm.Contents() == Bits.BitsOf(data)
    {
      bools := bools + [bm.Get(i)];
    }
  }

  // ----- one column -----

  function Texts(vals: seq<Value>): (r: seq<Str>)
    ensures |r| == |vals|
  {
    seq(|vals|, i requires 0 <= i < |vals| => if vals[i].valid then vals[i].str else [])
  }

  /** The eight bytes of a float or a timestamp, as a signed number. */
  function WordValue(typ: DataType, v: Value): (n: int)
    ensures Codecs.Is64(n)
  {
    if !v.valid then 0 else if typ.TypeFloat64? then Signed(v.flt) else v.nanos
  }

  function WordValues(typ: DataType, vals: seq<Value>): (r: seq<int>)
    ensures |r| == |vals| && forall i :: 0 <= i < |vals| ==> Codecs.Is64(r[i])
  {
    seq(|vals|, i requires 0 <= i < |vals| => WordValue(typ, vals[i]))
  }

  function DictOf(col: Files.Column): Codecs.DictColumn {
    Codecs.DictColumn(col.rowCount, col.dict, col.data)
  }

  /** The encoded column stands for these values. */
  ghost predicate Holds(col: Files.Column, typ: DataType, vals: seq<Value>) {
    && col.rowCount == |vals| && col.typ == WalCodec.TypeCode(typ)
    && if typ.TypeBool? then
         col.encoding == BITMAP && col.data == Bits.PackBytes(AnyTrues(vals)) && col.nulls == NullBytes(vals)
       else if typ.TypeString? then
         col.encoding == DICT && Codecs.DictHolds(DictOf(col), Texts(vals), Ints.NullRows(vals))
       else if typ.IsIntFamily() then
         if col.encoding == RLE then Ints.Encodes(Ints.EncodedInts(true, col.data, []), Ints.Nums(vals), Ints.NullRows(vals))
         else col.encoding == PLAIN && col.data == Codecs.WordsBytes(Ints.Nums(vals)) && col.nulls == NullBytes(vals)
       else col.encoding == PLAIN && col.data == Codecs.WordsBytes(WordValues(typ, vals)) && col.nulls == NullBytes(vals)
  }

  /** BOOL columns become bitmaps, strings dictionaries, integers runs when that is shorter, the rest words. */
  method EncodeColumn(typ: DataType, vals: seq<Value>) returns (col: Files.Column)
    requires Encodable(vals, typ)
    ensures Holds(col, typ, vals)
  {
    hide Bits.PackBytes, Codecs.WordsBytes, Codecs.DictHolds, Codecs.RunsIn, Codecs.Expand, Codecs.Plain, CanonicalColumn, AnyTrue, NullBytes;
    var n, code := |vals|, WalCodec.TypeCode(typ);
    if typ.TypeBool? {
      var words := PackBools(vals);
      var data := EncodeBitmap(words, n, vals);
      var nulls := EncodeNulls(vals);
      return Files.Column(BITMAP, code, n, nulls, data, [], []);
    }
    if typ.TypeString? {
      var enc := Codecs.EncodeDict(Texts(vals), Ints.NullRows(vals));
      DictSize(enc, Texts(vals), Ints.NullRows(vals));
      return Files.Column(DICT, code, n, [], enc.data, [], enc.dict);
    }
    var nulls := EncodeNulls(vals);
    if typ.IsIntFamily() {
      var enc := Ints.EncodeInts(Ints.Nums(vals), Ints.NullRows(vals));
      if enc.rle {
        return Files.Column(RLE, code, n, [], enc.data, [], []);
      }
      return Files.Column(PLAIN, code, n, nulls, enc.data, [], []);
    }
    col := Files.Column(PLAIN, code, n, nulls, Codecs.WordsBytes(WordValues(typ, vals)), [], []);
  }

  lemma DictSize(enc: Codecs.DictColumn, strs: seq<Str>, nulls: seq<bool>)
    requires Codecs.DictHolds(enc, strs, nulls)
    ensures enc.rowCount == |strs|
  {
    hide Codecs.SlotHolds;
  }

  /** What a reader takes from row `i` of a column: its mark, and otherwise the value by the column's type. */
  ghost function CellFrom(col: Files.Column, i: nat): Value {
    match WalCodec.TypeOf(col.typ)
    case None => NewNull
    case Some(typ) =>
      if col.encoding == DICT then TextFrom(col, i)
      else if col.encoding == RLE then RunFrom(col, typ, i)
      else if Marked(col.nulls, i) then NewNull
      else if col.encoding == BITMAP then (if i < col.rowCount then NewBool(Codecs.IsNull(Bits.BitsOf(col.data), i)) else NewNull)
      else if i < |col.data| / 8 then WordFrom(typ, Codecs.WordsIn(col.data, |col.data| / 8)[i])
      else NewNull
  }

  ghost function TextFrom(col: Files.Column, i: nat): Value {
    if !Codecs.FullData(DictOf(col), col.rowCount) then NewNull
    else
      match Codecs.DecodedRows(DictOf(col), col.rowCount)
      case None => NewNull
      case Some(d) => if i < |d.strs| && !d.nulls[i] then NewString(d.strs[i]) else NewNull
  }

  function RunFrom(col: Files.Column, typ: DataType, i: nat): Value {
    var d := Codecs.Cut(Codecs.Expand(Codecs.RunsIn(col.data, |col.data| / 16)), col.rowCount);
    if i < |d.ints| && i < |d.nulls| && !d.nulls[i] then NewIntFamilyValue(typ, AsInt64(d.ints[i])) else NewNull
  }

  function AsInt64(n: int): Int64 {
    if Codecs.Is64(n) then n else 0
  }

  function WordFrom(typ: DataType, n: int): Value {
    if typ.IsIntFamily() then NewIntFamilyValue(typ, AsInt64(n))
    else if typ.TypeFloat64? then NewFloat64(n % TWO64)
    else if typ.TypeTimestamp? then NewTimestamp(AsInt64(n))
    else NewNull
  }

  /** What comes back in row `i` of a column of values. */
  function ValueBack(vals: seq<Value>, typ: DataType, i: nat): Value
    requires i < |vals|
  {
    if typ.TypeBool? && vals[i].valid then NewBool(AnyTrue(vals, i)) else vals[i]
  }

  lemma BoolReads(col: Files.Column, vals: seq<Value>, i: nat)
    requires Holds(col, TypeBool, vals) && i < |vals| && CanonicalColumn(vals, TypeBool)
    ensures CellFrom(col, i) == ValueBack(vals, TypeBool, i)
  {
    hide Bits.BitOf, Bits.PackBytes, NullBytes, AnyTrue, Marked;
    MarksRead(vals, i);
    Bits.BytesKeepBits(AnyTrues(vals));
    assert Bits.BitsOf(col.data)[i] == AnyTrues(vals)[i];
    assert Kept(TypeBool, vals[i]) == vals[i];
  }

  lemma TextReads(col: Files.Column, vals: seq<Value>, i: nat)
    requires Holds(col, TypeString, vals) && i < |vals| && Encodable(vals, TypeString)
    ensures CellFrom(col, i) == vals[i]
  {
    hide Codecs.DictHolds, Codecs.DecodedRows, Codecs.FullData;
    var strs, nulls := Texts(vals), Ints.NullRows(vals);
    Codecs.DictRoundTrip(DictOf(col), strs, nulls, |vals|);
    assert Kept(TypeString, vals[i]) == vals[i];
  }

  lemma WordReads(data: Buffer, xs: seq<int>, i: nat)
    requires (forall j :: 0 <= j < |xs| ==> Codecs.Is64(xs[j])) && data == Codecs.WordsBytes(xs) && i < |xs|
    ensures i < |data| / 8 == |xs| && Codecs.WordsIn(data, |data| / 8)[i] == xs[i]
  {
    HasAll(data);
    Codecs.WordsRoundTrip(data, xs);
  }

  lemma SignedBack(x: Float64)
    ensures Signed(x) % TWO64 == x
  {
    if x >= TWO63 { assert (x - TWO64) % TWO64 == x; }
  }

  lemma PlainReads(col: Files.Column, typ: DataType, vals: seq<Value>, i: nat)
    requires Holds(col, typ, vals) && col.encoding == PLAIN && i < |vals| && Encodable(vals, typ)
    ensures CellFrom(col, i) == vals[i]
  {
    hide Codecs.WordsBytes, Codecs.WordsIn, NullBytes, Marked;
    var v := vals[i];
    MarksRead(vals, i);
    WalCodec.CodeOfType(typ);
    assert Kept(typ, v) == v;
    if typ.IsIntFamily() {
      WordReads(col.data, Ints.Nums(vals), i);
    } else {
      WordReads(col.data, WordValues(typ, vals), i);
      SignedBack(v.flt);
    }
  }

  lemma RunReads(col: Files.Column, typ: DataType, vals: seq<Value>, i: nat)
    requires Holds(col, typ, vals) && col.encoding == RLE && typ.IsIntFamily() && i < |vals| && Encodable(vals, typ)
    ensures CellFrom(col, i) == vals[i]
  {
    hide Codecs.Expand, Codecs.RunsIn;
    WalCodec.CodeOfType(typ);
    assert Kept(typ, vals[i]) == vals[i];
    var plain := Codecs.Plain(Ints.Nums(vals), Ints.NullRows(vals));
    assert |plain.ints| == |vals| && Codecs.Cut(plain, |vals|) == plain;
  }

  /** Every value of an encoded column comes back, BOOL values as the packed words have them. */
  lemma ColumnReadsBack(col: Files.Column, typ: DataType, vals: seq<Value>, i: nat)
    requires Holds(col, typ, vals) && i < |vals| && Encodable(vals, typ)
    ensures CellFrom(col, i) == ValueBack(vals, typ, i)
  {
    hide CellFrom, AnyTrue, CanonicalColumn;
    if typ.TypeBool? {
      BoolReads(col, vals, i);
    } else if typ.TypeString? {
      TextReads(col, vals, i);
    } else if typ.IsIntFamily() && col.encoding == RLE {
      RunReads(col, typ, vals, i);
    } else {
      PlainReads(col, typ, vals, i);
    }
  }

  // ----- all columns, and the file -----

  ghost predicate EncodableRows(rows: seq<Entry<Cells>>, meta: seq<ColumnMeta>) {
    CanonicalRows(rows, meta) && |rows| * 4 < TWO32 && forall c :: 0 <= c < |meta| ==> !meta[c].typ.TypeNull?
  }

  ghost predicate AllHold(cols: seq<Files.Column>, rows: seq<Entry<Cells>>, meta: seq<ColumnMeta>)
    requires Shaped(rows, meta)
  {
    |cols| == |meta| && forall c :: 0 <= c < |meta| ==> Holds(cols[c], meta[c].typ, ColumnOf(rows, meta, c))
  }

  lemma ColumnIsEncodable(rows: seq<Entry<Cells>>, meta: seq<ColumnMeta>, c: nat)
    requires EncodableRows(rows, meta) && c < |meta|
    ensures Encodable(ColumnOf(rows, meta, c), meta[c].typ)
  {
    forall i | 0 <= i < |rows| ensures Kept(meta[c].typ, rows[i].value[c]) == rows[i].value[c] { assert Canonical(rows[i].value, meta); }
  }

  /** One encoded column for each column of the table. */
  method EncodeColumns(rows: seq<Entry<Cells>>, meta: seq<ColumnMeta>) returns (cols: seq<Files.Column>)
    requires EncodableRows(rows, meta)
    ensures AllHold(cols, rows, meta)
  {
    hide Holds, Encodable, CanonicalRows;
    cols := [];
    for c := 0 to |meta|
      invariant |cols| == c && forall d :: 0 <= d < c ==> Holds(cols[d], meta[d].typ, ColumnOf(rows, meta, d))
    {
      ColumnIsEncodable(rows, meta, c);
      var col := EncodeColumn(meta[c].typ, ColumnOf(rows, meta, c));
      cols := cols + [col];
    }
  }

  /** The rows a reader finds in a loaded file. */
  ghost function RowsFrom(x: Files.Loaded): seq<Entry<Cells>> {
    seq(|x.keys|, i requires 0 <= i < |x.keys| => Entry(x.keys[i], seq(|x.columns|, c requires 0 <= c < |x.columns| => CellFrom(x.columns[c], i))))
  }

  function KeysOfRows(rows: seq<Entry<Cells>>): (r: seq<Key>)
    ensures |r| == |rows| && forall i :: 0 <= i < |rows| ==> r[i] == rows[i].key
  {
    seq(|rows|, i requires 0 <= i < |rows| => rows[i].key)
  }

  lemma CellReadsBack(cols: seq<Files.Column>, rows: seq<Entry<Cells>>, meta: seq<ColumnMeta>, i: nat, c: nat)
    requires EncodableRows(rows, meta) && AllHold(cols, rows, meta) && i < |rows| && c < |meta|
    ensures CellFrom(cols[c], i) == RowBack(rows, i, meta)[c]
  {
    hide Holds, CellFrom, Encodable;
    ColumnIsEncodable(rows, meta, c);
    ColumnReadsBack(cols[c], meta[c].typ, ColumnOf(rows, meta, c), i);
    assert Shaped(rows, meta);
    if WordSet(rows, c, i) {
      var j :| 64 * i <= j < 64 * i + 64 && j < |rows| && c < |rows[j].value| && IsTrue(rows[j].value[c]);
      assert IsTrue(ColumnOf(rows, meta, c)[j]);
    }
  }

  /** The rows of a memtable or of a compaction, encoded into columns and written to a file with their keys,
      read and decoded: the file gives back exactly the rows the model says, BOOL columns included. */
  lemma WrittenRowsReadBack(rows: seq<Entry<Cells>>, meta: seq<ColumnMeta>, x: Files.Segment)
    requires EncodableRows(rows, meta) && AllHold(x.columns, rows, meta)
    requires Files.SizedSegment(x) && Files.WithinLimits(x.footer)
    requires x.footer.rawKeys == Files.KeysBytes(KeysOfRows(rows)) && forall i :: 0 <= i < |rows| ==> |rows[i].key| < TWO32
    ensures var file := Files.Deserialize(Files.FileBytes(x)); file.Some? && RowsFrom(file.value) == Encoded(rows, meta)
  {
    hide Files.Deserialize, Files.FileBytes, Files.WithinLimits, Files.KeysBytes, Files.KeysOf, Holds, CellFrom, CellBack;
    Files.SegmentRoundTrip(x);
    Files.BuiltSegmentKeys(x, KeysOfRows(rows));
    var loaded := Files.Deserialize(Files.FileBytes(x)).value;
    assert loaded.columns == x.columns && loaded.keys == KeysOfRows(rows);
    forall i | 0 <= i < |rows| ensures RowsFrom(loaded)[i] == Encoded(rows, meta)[i] {
      forall c | 0 <= c < |meta| ensures RowsFrom(loaded)[i].value[c] == RowBack(rows, i, meta)[c] { CellReadsBack(x.columns, rows, meta, i, c); }
      assert RowsFrom(loaded)[i].value == RowBack(rows, i, meta);
    }
  }

  /** A flushed memtable's file gives its rows in storage form if and only if none of its BOOL columns holds a
      true value below the first row. */
  lemma FlushedFileIsExactIff(mem: seq<Entry<Row>>, meta: seq<ColumnMeta>, x: Files.Segment)
    requires |mem| * 4 < TWO32 && (forall c :: 0 <= c < |meta| ==> !meta[c].typ.TypeNull?) && AllHold(x.columns, StoredRows(mem, meta), meta)
    requires Files.SizedSegment(x) && Files.WithinLimits(x.footer)
    requires x.footer.rawKeys == Files.KeysBytes(KeysOfRows(StoredRows(mem, meta))) && forall i :: 0 <= i < |mem| ==> |mem[i].key| < TWO32
    ensures var file := Files.Deserialize(Files.FileBytes(x));
      file.Some? && RowsFrom(file.value) == FlushedRows(mem, meta) && (RowsFrom(file.value) == StoredRows(mem, meta) <==> FlushKeeps(mem, meta))
  {
    hide Files.Deserialize, Files.FileBytes, Files.SizedSegment, Files.WithinLimits, Files.KeysBytes, AllHold, RowsFrom,
      CanonicalRows, KeepsBools, Store;
    StoredAreCanonical(mem, meta);
    WrittenRowsReadBack(StoredRows(mem, meta), meta, x);
    EncodedIff(StoredRows(mem, meta), meta);
  }
}
