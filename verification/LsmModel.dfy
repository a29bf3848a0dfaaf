/** What the LSM engine stands for: one map from keys to cells, layered over segments and
    memtables. */
module LsmModel {
  import opened Keys
  import opened SortedEntries
  import opened Values
  import opened MemTables
  import opened Merges

  datatype ColumnMeta = ColumnMeta(id: nat, name: Str, typ: DataType)

  /** An immutable sorted segment; a row holds one value per column position. */
  datatype Segment = Segment(id: nat, minKey: Key, maxKey: Key, rows: seq<Entry<Cells>>)

  /** What a reader sees under a key: a row in storage form, or a tombstone. */
  datatype Cell = Live(cells: Cells) | Deleted

  ghost predicate DistinctNames(meta: seq<ColumnMeta>) {
    forall i, j :: 0 <= i < j < |meta| ==> meta[i].name != meta[j].name
  }

  function KeptColumn(columns: map<Str, Value>, col: ColumnMeta): Value {
    if col.name in columns then Kept(col.typ, columns[col.name]) else NewNull
  }

  /** A row in storage form: one value per column, a missing column being NULL. */
  function Store(columns: map<Str, Value>, meta: seq<ColumnMeta>): Cells {
    seq(|meta|, i requires 0 <= i < |meta| => KeptColumn(columns, meta[i]))
  }

  function ValueOf(columns: map<Str, Value>, name: Str): Value {
    if name in columns then columns[name] else NewNull
  }

  /** Column by column, the cells show what was given for the column, NULL where nothing was. */
  ghost predicate RowShows(columns: map<Str, Value>, cells: Cells, meta: seq<ColumnMeta>) {
    |cells| == |meta| && forall c :: 0 <= c < |meta| ==> Shows(meta[c].typ, ValueOf(columns, meta[c].name), cells[c])
  }

  /** The storage form of a row shows the row. */
  lemma StoreShows(columns: map<Str, Value>, meta: seq<ColumnMeta>)
    ensures RowShows(columns, Store(columns, meta), meta)
  {
    hide Shows, Kept;
    forall c | 0 <= c < |meta| ensures Shows(meta[c].typ, ValueOf(columns, meta[c].name), Store(columns, meta)[c]) {
      KeptShows(meta[c].typ, ValueOf(columns, meta[c].name));
      NullShows(meta[c].typ);
    }
  }

  lemma NullShows(typ: DataType)
    ensures Shows(typ, NewNull, NewNull)
  {
  }

  function ReadBack(cells: Cells, meta: seq<ColumnMeta>): map<Str, Value>
    requires |cells| == |meta|
  {
    if meta == [] then map[]
    else
      var n := |meta| - 1;
      ReadBack(cells[..n], meta[..n])[meta[n].name := cells[n]]
  }

  /** Cells a segment can hold: values their columns would keep unchanged. */
  ghost predicate Canonical(cells: Cells, meta: seq<ColumnMeta>) {
    |cells| == |meta| && forall i :: 0 <= i < |meta| ==> Kept(meta[i].typ, cells[i]) == cells[i]
  }

  lemma StoreIsCanonical(columns: map<Str, Value>, meta: seq<ColumnMeta>)
    ensures Canonical(Store(columns, meta), meta)
  {
  }

  lemma {:induction false} ReadBackColumn(cells: Cells, meta: seq<ColumnMeta>, i: nat)
    requires |cells| == |meta| && DistinctNames(meta) && i < |meta|
    ensures meta[i].name in ReadBack(cells, meta) && ReadBack(cells, meta)[meta[i].name] == cells[i]
  {
    var n := |meta| - 1;
    if i < n { ReadBackColumn(cells[..n], meta[..n], i); }
  }

  /** Reading a stored row back and storing it again changes nothing. */
  lemma StoreReadBack(cells: Cells, meta: seq<ColumnMeta>)
    requires Canonical(cells, meta) && DistinctNames(meta)
    ensures Store(ReadBack(cells, meta), meta) == cells
  {
    forall i | 0 <= i < |meta| ensures Store(ReadBack(cells, meta), meta)[i] == cells[i] {
      ReadBackColumn(cells, meta, i);
    }
  }

  // ----- BOOL columns -----

  predicate IsTrue(v: Value) {
    v.valid && v.num != 0
  }

  /** Whether word `i` of the packed column `c`, 64 rows to a word, has a bit set. */
  predicate WordSet(rows: seq<Entry<Cells>>, c: nat, i: nat) {
    exists j :: 64 * i <= j < 64 * i + 64 && j < |rows| && c < |rows[j].value| && IsTrue(rows[j].value[c])
  }

  /** What comes back in row `i`: the encoder takes the packed words of a BOOL column for one word a row. */
  function CellBack(rows: seq<Entry<Cells>>, i: nat, c: nat, typ: DataType): Value
    requires i < |rows| && c < |rows[i].value|
  {
    var v := rows[i].value[c];
    if typ.TypeBool? && v.valid then NewBool(WordSet(rows, c, i)) else v
  }

  predicate Shaped(rows: seq<Entry<Cells>>, meta: seq<ColumnMeta>) {
    forall i :: 0 <= i < |rows| ==> |rows[i].value| == |meta|
  }

  function RowBack(rows: seq<Entry<Cells>>, i: nat, meta: seq<ColumnMeta>): Cells
    requires Shaped(rows, meta) && i < |rows|
  {
    seq(|meta|, c requires 0 <= c < |meta| => CellBack(rows, i, c, meta[c].typ))
  }

  /** The rows a segment gives back when these were encoded into it. */
  function Encoded(rows: seq<Entry<Cells>>, meta: seq<ColumnMeta>): (r: seq<Entry<Cells>>)
    requires Shaped(rows, meta)
    ensures |r| == |rows| && forall i :: 0 <= i < |rows| ==> r[i] == Entry(rows[i].key, RowBack(rows, i, meta))
  {
    seq(|rows|, i requires 0 <= i < |rows| => Entry(rows[i].key, RowBack(rows, i, meta)))
  }

  ghost predicate CanonicalRows(rows: seq<Entry<Cells>>, meta: seq<ColumnMeta>)
    ensures CanonicalRows(rows, meta) ==> Shaped(rows, meta)
  {
    forall i :: 0 <= i < |rows| ==> Canonical(rows[i].value, meta)
  }

  /** Below its first row no BOOL column holds a true value. */
  predicate KeepsBools(rows: seq<Entry<Cells>>, meta: seq<ColumnMeta>)
    requires Shaped(rows, meta)
  {
    forall i, c :: 0 < i < |rows| && 0 <= c < |meta| && meta[c].typ.TypeBool? ==> !IsTrue(rows[i].value[c])
  }

  /** A true value in row i > 0 can only come back if word i is set, by a true value still further down. */
  lemma {:induction false} NoneTrueFrom(rows: seq<Entry<Cells>>, meta: seq<ColumnMeta>, c: nat, i: nat)
    requires Shaped(rows, meta) && Encoded(rows, meta) == rows && c < |meta| && meta[c].typ.TypeBool? && 0 < i < |rows|
    ensures !IsTrue(rows[i].value[c])
    decreases |rows| - i
  {
    if IsTrue(rows[i].value[c]) {
      assert RowBack(rows, i, meta)[c] == rows[i].value[c];
      var j :| 64 * i <= j < 64 * i + 64 && j < |rows| && c < |rows[j].value| && IsTrue(rows[j].value[c]);
      NoneTrueFrom(rows, meta, c, j);
    }
  }

  lemma CellComesBack(rows: seq<Entry<Cells>>, meta: seq<ColumnMeta>, i: nat, c: nat)
    requires CanonicalRows(rows, meta) && KeepsBools(rows, meta) && i < |rows| && c < |meta|
    ensures CellBack(rows, i, c, meta[c].typ) == rows[i].value[c]
  {
    assert Canonical(rows[i].value, meta);
    var v := rows[i].value[c];
    assert Kept(meta[c].typ, v) == v;
    if meta[c].typ.TypeBool? && i == 0 && IsTrue(v) { assert WordSet(rows, c, 0); }
  }

  /** The exact condition: rows in storage form come back from a segment unchanged if and only if no BOOL
      column holds a true value below its first row. */
  lemma EncodedIff(rows: seq<Entry<Cells>>, meta: seq<ColumnMeta>)
    requires CanonicalRows(rows, meta)
    ensures Encoded(rows, meta) == rows <==> KeepsBools(rows, meta)
  {
    hide CellBack, CanonicalRows, IsTrue;
    if KeepsBools(rows, meta) {
      forall i | 0 <= i < |rows| ensures Encoded(rows, meta)[i] == rows[i] {
        forall c | 0 <= c < |meta| ensures RowBack(rows, i, meta)[c] == rows[i].value[c] { CellComesBack(rows, meta, i, c); }
        assert RowBack(rows, i, meta) == rows[i].value;
      }
    }
    if Encoded(rows, meta) == rows {
      forall i, c | 0 < i < |rows| && 0 <= c < |meta| && meta[c].typ.TypeBool? ensures !IsTrue(rows[i].value[c]) {
        NoneTrueFrom(rows, meta, c, i);
      }
    }
  }

  /** A column of false and true comes back as true and false. */
  lemma TwoRowsSwap(k: Key, j: Key, id: nat, name: Str)
    ensures Encoded([Entry(k, [NewBool(false)]), Entry(j, [NewBool(true)])], [ColumnMeta(id, name, TypeBool)]) ==
      [Entry(k, [NewBool(true)]), Entry(j, [NewBool(false)])]
  {
    var rows, meta := [Entry(k, [NewBool(false)]), Entry(j, [NewBool(true)])], [ColumnMeta(id, name, TypeBool)];
    assert IsTrue(rows[1].value[0]) && WordSet(rows, 0, 0) && !WordSet(rows, 0, 1);
    assert RowBack(rows, 0, meta) == [NewBool(true)] && RowBack(rows, 1, meta) == [NewBool(false)];
  }

  /** Encoding changes no key and leaves values a segment can hold. */
  lemma EncodedFacts(rows: seq<Entry<Cells>>, meta: seq<ColumnMeta>)
    requires CanonicalRows(rows, meta)
    ensures CanonicalRows(Encoded(rows, meta), meta)
    ensures Sorted(Encoded(rows, meta)) <==> Sorted(rows)
  {
    hide Less, WordSet;
    var t := Encoded(rows, meta);
    forall i | 0 <= i < |t| ensures Canonical(t[i].value, meta) { assert Canonical(rows[i].value, meta); }
    if Sorted(t) {
      forall i, j | 0 <= i < j < |rows| ensures Less(rows[i].key, rows[j].key) { assert Less(t[i].key, t[j].key); }
    }
  }

  /** A row with its BOOL values hidden, unless `all` is to be seen; which of them are NULL stays visible. */
  function Face(all: bool, cells: Cells, meta: seq<ColumnMeta>): Cells {
    seq(|cells|, c requires 0 <= c < |cells| =>
      if !all && c < |meta| && meta[c].typ.TypeBool? && cells[c].valid then NewBool(false) else cells[c])
  }

  /** Encoding changes nothing but BOOL values, and not those either if they are kept. */
  lemma EncodedFace(all: bool, rows: seq<Entry<Cells>>, meta: seq<ColumnMeta>, i: nat)
    requires CanonicalRows(rows, meta) && (all ==> KeepsBools(rows, meta)) && i < |rows|
    ensures Face(all, RowBack(rows, i, meta), meta) == Face(all, rows[i].value, meta)
  {
    hide WordSet, CanonicalRows;
    if all {
      EncodedIff(rows, meta);
      assert Encoded(rows, meta)[i].value == rows[i].value;
    }
  }

  function Look(all: bool, meta: seq<ColumnMeta>): Cell -> Cell {
    (c: Cell) => if c.Live? then Live(Face(all, c.cells, meta)) else Deleted
  }

  /** Contents with their BOOL values hidden, unless `all`. */
  function Seen(all: bool, v: map<Key, Cell>, meta: seq<ColumnMeta>): map<Key, Cell> {
    MapValues(v, Look(all, meta))
  }

  function Observed(row: Row, meta: seq<ColumnMeta>): Cell {
    if row.tombstone then Deleted else Live(Store(row.columns, meta))
  }

  /** A live cell that shows the row. */
  ghost predicate ReadsAs(columns: map<Str, Value>, cell: Cell, meta: seq<ColumnMeta>) {
    cell.Live? && RowShows(columns, cell.cells, meta)
  }

  lemma LiveReadsAs(columns: map<Str, Value>, meta: seq<ColumnMeta>)
    ensures ReadsAs(columns, Live(Store(columns, meta)), meta)
  {
    hide RowShows, Store;
    StoreShows(columns, meta);
  }

  /** A row that was read and one that was written, both shown by the same cell, hold the same in every column
      the cell is not NULL in, and in the others neither holds a value of the column. */
  lemma ReadIsWritten(written: map<Str, Value>, read: map<Str, Value>, cell: Cell, meta: seq<ColumnMeta>, c: nat)
    requires ReadsAs(written, cell, meta) && ReadsAs(read, cell, meta) && c < |meta|
    ensures var typ, v, w := meta[c].typ, ValueOf(written, meta[c].name), ValueOf(read, meta[c].name);
      if v.valid && !typ.TypeNull? && (v.typ == typ || (v.typ.IsIntFamily() && typ.IsIntFamily())) then
        && w.valid && (w.typ == typ || (w.typ.IsIntFamily() && typ.IsIntFamily()))
        && (typ.TypeBool? ==> (w.num != 0 <==> v.num != 0)) && (typ.IsIntFamily() ==> w.num == v.num)
        && (typ.TypeFloat64? ==> w.flt == v.flt) && (typ.TypeString? ==> w.str == v.str) && (typ.TypeTimestamp? ==> w.nanos == v.nanos)
      else !(w.valid && !typ.TypeNull? && (w.typ == typ || (w.typ.IsIntFamily() && typ.IsIntFamily())))
  {
    var typ, v, w := meta[c].typ, ValueOf(written, meta[c].name), ValueOf(read, meta[c].name);
    assert Shows(typ, v, cell.cells[c]) && Shows(typ, w, cell.cells[c]);
  }

  function MapEntries<V, W>(s: seq<Entry<V>>, f: V -> W): (r: seq<Entry<W>>)
    ensures |r| == |s|
    ensures forall i :: 0 <= i < |s| ==> r[i] == Entry(s[i].key, f(s[i].value))
  {
    seq(|s|, i requires 0 <= i < |s| => Entry(s[i].key, f(s[i].value)))
  }

  function MapValues<V, W>(m: map<Key, V>, f: V -> W): map<Key, W> {
    map k | k in m :: f(m[k])
  }

  lemma {:induction false} ToMapOfMapped<V, W>(s: seq<Entry<V>>, f: V -> W)
    ensures ToMap(MapEntries(s, f)) == MapValues(ToMap(s), f)
  {
    if s != [] {
      var n := |s| - 1;
      assert MapEntries(s, f)[..n] == MapEntries(s[..n], f);
      ToMapOfMapped(s[..n], f);
    }
  }

  lemma MappedSorted<V, W>(s: seq<Entry<V>>, f: V -> W)
    ensures Sorted(s) <==> Sorted(MapEntries(s, f))
  {
    hide Less;
    var t := MapEntries(s, f);
    if Sorted(t) {
      forall i, j | 0 <= i < j < |s| ensures Less(s[i].key, s[j].key) { assert Less(t[i].key, t[j].key); }
    }
  }

  function MapSources<V, W>(s: Sources<V>, f: V -> W): (r: Sources<W>)
    ensures |r| == |s| && forall i :: 0 <= i < |s| ==> r[i] == MapEntries(s[i], f)
  {
    seq(|s|, i requires 0 <= i < |s| => MapEntries(s[i], f))
  }

  lemma {:induction false} MergedOfMapped<V, W>(s: Sources<V>, f: V -> W)
    ensures Merged(MapSources(s, f)) == MapValues(Merged(s), f)
  {
    hide ToMap, MapValues;
    if s == [] {
      EmptyMapped<V, W>(f);
    } else {
      var n := |s| - 1;
      assert MapSources(s, f)[..n] == MapSources(s[..n], f);
      MergedOfMapped(s[..n], f);
      ToMapOfMapped(s[n], f);
      MapValuesUnion(Merged(s[..n]), ToMap(s[n]), f);
    }
  }

  lemma EmptyMapped<V, W>(f: V -> W)
    ensures MapValues(map[], f) == map[]
  {
  }

  lemma MapValuesUnion<V, W>(a: map<Key, V>, b: map<Key, V>, f: V -> W)
    ensures MapValues(a + b, f) == MapValues(a, f) + MapValues(b, f)
  {
  }

  lemma MergedSnoc<V>(s: Sources<V>, x: seq<Entry<V>>)
    ensures Merged(s + [x]) == Merged(s) + ToMap(x)
  {
    assert (s + [x])[..|s + [x]| - 1] == s;
  }

  lemma {:induction false} MergedConcat<V>(s: Sources<V>, t: Sources<V>)
    ensures Merged(s + t) == Merged(s) + Merged(t)
  {
    hide ToMap;
    if t == [] {
      assert s + t == s;
    } else {
      var n := |t| - 1;
      assert s + t == s + t[..n] + [t[n]];
      MergedConcat(s, t[..n]);
      MergedSnoc(s + t[..n], t[n]);
      UnionAssociative(Merged(s), Merged(t[..n]), ToMap(t[n]));
    }
  }

  lemma UnionAssociative<V>(a: map<Key, V>, b: map<Key, V>, c: map<Key, V>)
    ensures a + b + c == a + (b + c)
  {
  }

  /** A segment's rows as the engine reads them: the version is the segment's id. */
  function SegmentRow(id: nat, cells: Cells, meta: seq<ColumnMeta>): Row {
    Row(id, if |cells| == |meta| then ReadBack(cells, meta) else map[], false)
  }

  function SegmentRows(seg: Segment, meta: seq<ColumnMeta>): seq<Entry<Row>> {
    MapEntries(seg.rows, (c: Cells) => SegmentRow(seg.id, c, meta))
  }

  function SegmentSources(segs: seq<Segment>, meta: seq<ColumnMeta>): Sources<Row> {
    seq(|segs|, i requires 0 <= i < |segs| => SegmentRows(segs[i], meta))
  }

  /** All data, oldest first: segments, frozen memtables, the active memtable. */
  function AllSources(segs: seq<Segment>, immutable: Sources<Row>, active: seq<Entry<Row>>, meta: seq<ColumnMeta>): Sources<Row> {
    SegmentSources(segs, meta) + immutable + [active]
  }

  /** The engine's contents: the newest source decides what is seen under a key. */
  function View(sources: Sources<Row>, meta: seq<ColumnMeta>): map<Key, Cell> {
    MapValues(Merged(sources), (r: Row) => Observed(r, meta))
  }

  lemma ViewAfterPut(s: Sources<Row>, active: seq<Entry<Row>>, meta: seq<ColumnMeta>, k: Key, row: Row)
    requires Sorted(active)
    ensures View(s + [Upsert(active, k, row)], meta) == View(s + [active], meta)[k := Observed(row, meta)]
  {
    hide Upsert, Merged, Observed;
    MergedSnoc(s, active);
    MergedSnoc(s, Upsert(active, k, row));
    UpsertSorted(active, k, row);
    assert Merged(s + [Upsert(active, k, row)]) == Merged(s + [active])[k := row];
  }

  lemma ViewAfterRotate(s: Sources<Row>, active: seq<Entry<Row>>, meta: seq<ColumnMeta>)
    ensures View(s + [active] + [[]], meta) == View(s + [active], meta)
  {
    hide Merged;
    MergedSnoc(s + [active], []);
  }

  /** Replacing one source by rows that look the same to readers. */
  lemma ViewOfMerged(s: Sources<Row>, meta: seq<ColumnMeta>)
    ensures View(s, meta) == Merged(MapSources(s, (r: Row) => Observed(r, meta)))
  {
    MergedOfMapped(s, (r: Row) => Observed(r, meta));
  }

  function NullCells(meta: seq<ColumnMeta>): Cells {
    Store(map[], meta)
  }

  /** A flushed tombstone comes back as a row of NULLs. */
  function Revive(meta: seq<ColumnMeta>): Cell -> Cell {
    (c: Cell) => if c.Deleted? then Live(NullCells(meta)) else c
  }

  /** A memtable's rows in storage form. */
  function StoredRows(mem: seq<Entry<Row>>, meta: seq<ColumnMeta>): (r: seq<Entry<Cells>>)
    ensures |r| == |mem| && Shaped(r, meta)
    ensures forall i :: 0 <= i < |mem| ==> r[i] == Entry(mem[i].key, Store(mem[i].value.columns, meta))
  {
    MapEntries(mem, (r: Row) => Store(r.columns, meta))
  }

  /** The segment a memtable is flushed to. */
  function FlushedRows(mem: seq<Entry<Row>>, meta: seq<ColumnMeta>): seq<Entry<Cells>> {
    Encoded(StoredRows(mem, meta), meta)
  }

  /** The memtable's BOOL columns come back from its segment. */
  predicate FlushKeeps(mem: seq<Entry<Row>>, meta: seq<ColumnMeta>) {
    KeepsBools(StoredRows(mem, meta), meta)
  }

  lemma StoredAreCanonical(mem: seq<Entry<Row>>, meta: seq<ColumnMeta>)
    ensures CanonicalRows(StoredRows(mem, meta), meta)
  {
    forall i | 0 <= i < |mem| ensures Canonical(StoredRows(mem, meta)[i].value, meta) { StoreIsCanonical(mem[i].value.columns, meta); }
  }

  /** A flushed row shows the row of the memtable, BOOL columns apart. */
  lemma FlushedShows(mem: seq<Entry<Row>>, meta: seq<ColumnMeta>, i: nat)
    requires i < |mem|
    ensures |FlushedRows(mem, meta)| == |mem| && FlushedRows(mem, meta)[i].key == mem[i].key
    ensures CellsShow(FlushKeeps(mem, meta), mem[i].value.columns, FlushedRows(mem, meta)[i].value, meta)
  {
    hide CellsShow, RowBack, Face, Store, KeepsBools, CanonicalRows;
    var rows, all := StoredRows(mem, meta), FlushKeeps(mem, meta);
    StoredAreCanonical(mem, meta);
    EncodedFace(all, rows, meta, i);
    FaceShows(all, mem[i].value.columns, RowBack(rows, i, meta), meta);
  }

  /** Tombstones carry no columns. */
  ghost predicate BareTombstones(mem: seq<Entry<Row>>) {
    forall i :: 0 <= i < |mem| ==> (mem[i].value.tombstone ==> mem[i].value.columns == map[])
  }

  ghost predicate CanonicalSegment(seg: Segment, meta: seq<ColumnMeta>) {
    CanonicalRows(seg.rows, meta)
  }

  lemma SegmentLooksLive(seg: Segment, meta: seq<ColumnMeta>)
    requires DistinctNames(meta) && CanonicalSegment(seg, meta)
    ensures MapEntries(SegmentRows(seg, meta), (r: Row) => Observed(r, meta)) == MapEntries(seg.rows, (c: Cells) => Live(c))
  {
    var a, b := MapEntries(SegmentRows(seg, meta), (r: Row) => Observed(r, meta)), MapEntries(seg.rows, (c: Cells) => Live(c));
    forall i | 0 <= i < |seg.rows| ensures a[i] == b[i] {
      assert Canonical(seg.rows[i].value, meta);
      StoreReadBack(seg.rows[i].value, meta);
    }
  }

  /** A flushed memtable looks the same except that its tombstones became NULL rows and its BOOL values
      may have changed. */
  lemma FlushedLooksAlike(all: bool, mem: seq<Entry<Row>>, seg: Segment, meta: seq<ColumnMeta>)
    requires DistinctNames(meta) && BareTombstones(mem) && seg.rows == FlushedRows(mem, meta)
    requires all ==> FlushKeeps(mem, meta)
    ensures MapEntries(MapEntries(SegmentRows(seg, meta), (r: Row) => Observed(r, meta)), Look(all, meta)) ==
      MapEntries(MapEntries(MapEntries(mem, (r: Row) => Observed(r, meta)), Look(all, meta)), Revive(meta))
  {
    hide Encoded, StoredRows, RowBack, Face, Store, CanonicalRows;
    var f, stored := (r: Row) => Observed(r, meta), StoredRows(mem, meta);
    StoredAreCanonical(mem, meta);
    EncodedFacts(stored, meta);
    SegmentLooksLive(seg, meta);
    var x, y := MapEntries(SegmentRows(seg, meta), f), MapEntries(MapEntries(mem, f), Look(all, meta));
    forall i | 0 <= i < |mem| ensures MapEntries(x, Look(all, meta))[i] == MapEntries(y, Revive(meta))[i] {
      EncodedFace(all, stored, meta, i);
      NullFace(all, meta);
    }
  }

  lemma NullFace(all: bool, meta: seq<ColumnMeta>)
    ensures Face(all, NullCells(meta), meta) == NullCells(meta)
  {
  }

  function RowSources(segs: seq<Segment>): (r: Sources<Cells>)
    ensures |r| == |segs| && forall i :: 0 <= i < |segs| ==> r[i] == segs[i].rows
  {
    seq(|segs|, i requires 0 <= i < |segs| => segs[i].rows)
  }

  /** The view of a list of segments is their merged rows, all live. */
  lemma ViewOfSegments(segs: seq<Segment>, meta: seq<ColumnMeta>)
    requires DistinctNames(meta) && forall i :: 0 <= i < |segs| ==> CanonicalSegment(segs[i], meta)
    ensures View(SegmentSources(segs, meta), meta) == MapValues(Merged(RowSources(segs)), (c: Cells) => Live(c))
  {
    hide Merged, Observed;
    var s := SegmentSources(segs, meta);
    ViewOfMerged(s, meta);
    MergedOfMapped(RowSources(segs), (c: Cells) => Live(c));
    var a, b := MapSources(s, (r: Row) => Observed(r, meta)), MapSources(RowSources(segs), (c: Cells) => Live(c));
    forall i | 0 <= i < |segs| ensures a[i] == b[i] {
      SegmentLooksLive(segs[i], meta);
    }
    assert a == b;
  }

  lemma ViewConcat(s: Sources<Row>, t: Sources<Row>, meta: seq<ColumnMeta>)
    ensures View(s + t, meta) == View(s, meta) + View(t, meta)
  {
    hide Merged, Observed, MapValues;
    MergedConcat(s, t);
    MapValuesUnion(Merged(s), Merged(t), (r: Row) => Observed(r, meta));
  }

  /** Flushing memtables turns the tombstones they hold into NULL rows. */
  lemma ViewOfFlushed(all: bool, mems: Sources<Row>, segs: seq<Segment>, meta: seq<ColumnMeta>)
    requires DistinctNames(meta) && |mems| == |segs|
    requires forall i :: 0 <= i < |mems| ==> BareTombstones(mems[i]) && segs[i].rows == FlushedRows(mems[i], meta)
    requires all ==> forall i :: 0 <= i < |mems| ==> FlushKeeps(mems[i], meta)
    ensures Seen(all, View(SegmentSources(segs, meta), meta), meta) == MapValues(Seen(all, View(mems, meta), meta), Revive(meta))
  {
    hide Merged, Observed, FlushedRows, BareTombstones, MapValues, Revive, Look, FlushKeeps;
    var f, g := (r: Row) => Observed(r, meta), Look(all, meta);
    var s := SegmentSources(segs, meta);
    ViewOfMerged(s, meta);
    ViewOfMerged(mems, meta);
    MergedOfMapped(MapSources(s, f), g);
    MergedOfMapped(MapSources(mems, f), g);
    MergedOfMapped(MapSources(MapSources(mems, f), g), Revive(meta));
    var a, b := MapSources(MapSources(s, f), g), MapSources(MapSources(MapSources(mems, f), g), Revive(meta));
    forall i | 0 <= i < |segs| ensures a[i] == b[i] { FlushedLooksAlike(all, mems[i], segs[i], meta); }
    assert a == b;
  }

  /** The same keys, each cell kept or, if it was a tombstone, perhaps revived. */
  ghost predicate Between(v: map<Key, Cell>, w: map<Key, Cell>, meta: seq<ColumnMeta>) {
    && w.Keys == v.Keys
    && forall k :: k in v ==> w[k] == v[k] || w[k] == Revive(meta)(v[k])
  }

  ghost predicate AllLive(v: map<Key, Cell>) {
    forall k :: k in v ==> v[k].Live?
  }

  lemma FlushedPartRevives(a: map<Key, Cell>, d: map<Key, Cell>, rest: map<Key, Cell>, meta: seq<ColumnMeta>)
    ensures Between(a + d + rest, a + MapValues(d, Revive(meta)) + rest, meta)
    ensures AllLive(a) && rest == map[] ==> a + MapValues(d, Revive(meta)) + rest == MapValues(a + d + rest, Revive(meta))
  {
  }

  /** What readers see of a range: the live cells under keys in it. */
  function Visible(v: map<Key, Cell>, start: Key, end: Key): map<Key, Cells> {
    map k | k in v && Within(k, start, end) && v[k].Live? :: v[k].cells
  }

  /** Two contents under the same keys, the second all live, show the same of every range exactly when they
      are the same. */
  lemma SameVisibleIff(v: map<Key, Cell>, w: map<Key, Cell>)
    requires AllLive(w) && w.Keys == v.Keys
    ensures (forall start, end :: Visible(w, start, end) == Visible(v, start, end)) <==> w == v
  {
    hide Less;
    if w != v {
      var k :| k in v && w[k] != v[k];
      LessIrreflexive(k);
      assert k in Visible(w, k, k) && Visible(w, k, k)[k] == w[k].cells;
      assert k in Visible(v, k, k) ==> v[k] == Live(Visible(v, k, k)[k]);
    }
  }

  lemma SegmentSourcesConcat(a: seq<Segment>, b: seq<Segment>, meta: seq<ColumnMeta>)
    ensures SegmentSources(a + b, meta) == SegmentSources(a, meta) + SegmentSources(b, meta)
  {
  }

  lemma SegmentsAreLive(segs: seq<Segment>, meta: seq<ColumnMeta>)
    requires DistinctNames(meta) && forall i :: 0 <= i < |segs| ==> CanonicalSegment(segs[i], meta)
    ensures AllLive(View(SegmentSources(segs, meta), meta))
  {
    hide Merged, Observed, View;
    ViewOfSegments(segs, meta);
  }

  lemma ViewOfLayers(segs: seq<Segment>, mems: Sources<Row>, meta: seq<ColumnMeta>)
    ensures View(AllSources(segs, mems, [], meta), meta) == View(SegmentSources(segs, meta), meta) + View(mems, meta)
  {
    hide Merged, Observed, View;
    ViewConcat(SegmentSources(segs, meta), mems, meta);
    EmptyView(meta);
    ViewConcat(SegmentSources(segs, meta) + mems, [[]], meta);
  }

  lemma EmptyView(meta: seq<ColumnMeta>)
    ensures View([[]], meta) == map[] && View([], meta) == map[]
  {
  }

  lemma SeenUnion(all: bool, a: map<Key, Cell>, b: map<Key, Cell>, meta: seq<ColumnMeta>)
    ensures Seen(all, a + b, meta) == Seen(all, a, meta) + Seen(all, b, meta)
  {
    hide MapValues;
    MapValuesUnion(a, b, Look(all, meta));
  }

  /** What a flush that may fail half way does to the contents `v`. */
  ghost predicate Flushed(v: map<Key, Cell>, ok: bool, w: map<Key, Cell>, meta: seq<ColumnMeta>) {
    if ok then w == MapValues(v, Revive(meta)) else Between(v, w, meta)
  }

  /** Flushing the first `|added|` of the frozen memtables: readers see the same but for tombstones, which
      come back as NULL rows, and for BOOL values, unless every flushed table keeps its own. */
  lemma FlushEffect(all: bool, segs: seq<Segment>, added: seq<Segment>, mems: Sources<Row>, meta: seq<ColumnMeta>)
    requires DistinctNames(meta) && (forall i :: 0 <= i < |segs| ==> CanonicalSegment(segs[i], meta))
    requires |added| <= |mems|
    requires forall i :: 0 <= i < |added| ==> BareTombstones(mems[i]) && added[i].rows == FlushedRows(mems[i], meta)
    requires all ==> forall i :: 0 <= i < |added| ==> FlushKeeps(mems[i], meta)
    ensures var v, w := View(AllSources(segs, mems, [], meta), meta), View(AllSources(segs + added, mems[|added|..], [], meta), meta);
      Flushed(Seen(all, v, meta), |added| == |mems|, Seen(all, w, meta), meta)
  {
    hide Merged, Observed, View, AllSources, FlushedRows, BareTombstones, MapValues, Between, AllLive, Seen, FlushKeeps;
    var n := |added|;
    var a, d, rest := View(SegmentSources(segs, meta), meta), View(mems[..n], meta), View(mems[n..], meta);
    var e := View(SegmentSources(added, meta), meta);
    ViewOfLayers(segs, mems, meta);
    ViewOfLayers(segs + added, mems[n..], meta);
    SegmentSourcesConcat(segs, added, meta);
    ViewConcat(SegmentSources(segs, meta), SegmentSources(added, meta), meta);
    assert mems == mems[..n] + mems[n..];
    ViewConcat(mems[..n], mems[n..], meta);
    ViewOfFlushed(all, mems[..n], added, meta);
    UnionAssociative(a, d, rest);
    SeenUnion(all, a + d, rest, meta);
    SeenUnion(all, a, d, meta);
    SeenUnion(all, a + e, rest, meta);
    SeenUnion(all, a, e, meta);
    FlushedPartRevives(Seen(all, a, meta), Seen(all, d, meta), Seen(all, rest, meta), meta);
    SegmentsAreLive(segs, meta);
    SeenIsLive(all, a, meta);
    if n == |mems| {
      assert mems[n..] == [];
      EmptyView(meta);
      assert Seen(all, map[], meta) == map[] by { EmptyMapped<Cell, Cell>(Look(all, meta)); SeenMeans(all, map[], meta); }
    }
  }

  lemma SeenMeans(all: bool, v: map<Key, Cell>, meta: seq<ColumnMeta>)
    ensures Seen(all, v, meta) == MapValues(v, Look(all, meta))
  {
  }

  lemma SeenIsLive(all: bool, v: map<Key, Cell>, meta: seq<ColumnMeta>)
    requires AllLive(v)
    ensures AllLive(Seen(all, v, meta))
  {
  }

  /** Row `q` of memtable `i` decides its key. */
  ghost predicate Newest(mems: Sources<Row>, i: nat, q: nat) {
    && i < |mems| && q < |mems[i]|
    && forall j :: i < j < |mems| ==> !HasKey(mems[j], mems[i][q].key)
  }

  /** Not a tombstone, and read back from its segment as it was: see `CellBack`. */
  ghost predicate ReadsBack(mem: seq<Entry<Row>>, q: nat, meta: seq<ColumnMeta>) {
    q < |mem| && !mem[q].value.tombstone && RowBack(StoredRows(mem, meta), q, meta) == Store(mem[q].value.columns, meta)
  }

  /** Every deciding row reads back. */
  ghost predicate NothingLost(mems: Sources<Row>, meta: seq<ColumnMeta>) {
    forall i: nat, q: nat :: Newest(mems, i, q) ==> ReadsBack(mems[i], q, meta)
  }

  lemma {:induction false} NewestExists(mems: Sources<Row>, k: Key) returns (i: nat, q: nat)
    requires k in Merged(mems)
    ensures Newest(mems, i, q) && mems[i][q].key == k
  {
    hide ToMap;
    var n := |mems| - 1;
    ToMapKeys(mems[n], k);
    if HasKey(mems[n], k) {
      i := n;
      q :| 0 <= q < |mems[n]| && mems[n][q].key == k;
    } else {
      i, q := NewestExists(mems[..n], k);
    }
  }

  /** What the deciding row looks like before and after its table is flushed. */
  lemma NewestDecides(mems: Sources<Row>, added: seq<Segment>, meta: seq<ColumnMeta>, i: nat, q: nat)
    requires DistinctNames(meta) && |added| == |mems| && Newest(mems, i, q)
    requires forall j :: 0 <= j < |mems| ==> Sorted(mems[j]) && added[j].rows == FlushedRows(mems[j], meta)
    ensures var k := mems[i][q].key;
      && k in View(mems, meta) && View(mems, meta)[k] == Observed(mems[i][q].value, meta)
      && k in View(SegmentSources(added, meta), meta)
      && View(SegmentSources(added, meta), meta)[k] == Live(RowBack(StoredRows(mems[i], meta), q, meta))
  {
    hide ToMap, Merged, Observed, RowBack, Store, Sorted, SegmentSources, CanonicalRows;
    var k, rows := mems[i][q].key, RowSources(added);
    SortedAt(mems[i], q);
    forall j | i < j < |mems| ensures k !in ToMap(mems[j]) && k !in ToMap(rows[j]) {
      ToMapKeys(mems[j], k);
      ToMapKeys(rows[j], k);
      assert !HasKey(mems[j], k);
      forall p | 0 <= p < |rows[j]| ensures rows[j][p].key != k { assert mems[j][p].key == rows[j][p].key; }
    }
    MergedAt(mems, i, k);
    forall j | 0 <= j < |mems| ensures CanonicalSegment(added[j], meta) && Sorted(added[j].rows) { FlushedFacts(mems[j], meta); }
    SortedAt(rows[i], q);
    MergedAt(rows, i, k);
    ViewOfSegments(added, meta);
  }

  lemma FlushedFacts(mem: seq<Entry<Row>>, meta: seq<ColumnMeta>)
    ensures CanonicalRows(FlushedRows(mem, meta), meta) && (Sorted(FlushedRows(mem, meta)) <==> Sorted(mem))
  {
    hide CanonicalRows, Less;
    StoredAreCanonical(mem, meta);
    EncodedFacts(StoredRows(mem, meta), meta);
    MappedSorted(mem, (r: Row) => Store(r.columns, meta));
  }

  lemma FlushedKeys(mems: Sources<Row>, added: seq<Segment>, meta: seq<ColumnMeta>)
    requires DistinctNames(meta) && |added| == |mems|
    requires forall j :: 0 <= j < |mems| ==> BareTombstones(mems[j]) && added[j].rows == FlushedRows(mems[j], meta)
    ensures View(SegmentSources(added, meta), meta).Keys == View(mems, meta).Keys
  {
    hide Merged, Observed, FlushedRows, Look, View;
    ViewOfFlushed(false, mems, added, meta);
    var e, d := View(SegmentSources(added, meta), meta), View(mems, meta);
    assert Seen(false, e, meta).Keys == e.Keys && Seen(false, d, meta).Keys == d.Keys;
  }

  /** A complete flush is invisible exactly when no deciding row is a tombstone and every deciding row reads
      back as it was. */
  lemma FlushInvisibleIff(segs: seq<Segment>, added: seq<Segment>, mems: Sources<Row>, meta: seq<ColumnMeta>)
    requires DistinctNames(meta) && (forall i :: 0 <= i < |segs| ==> CanonicalSegment(segs[i], meta))
    requires |added| == |mems|
    requires forall i :: 0 <= i < |mems| ==> Sorted(mems[i]) && BareTombstones(mems[i]) && added[i].rows == FlushedRows(mems[i], meta)
    ensures var v, w := View(AllSources(segs, mems, [], meta), meta), View(AllSources(segs + added, [], [], meta), meta);
      (forall start, end :: Visible(w, start, end) == Visible(v, start, end)) <==> NothingLost(mems, meta)
  {
    hide Merged, Observed, View, AllSources, FlushedRows, BareTombstones, AllLive, Visible, NothingLost, Sorted;
    var a, d, e := View(SegmentSources(segs, meta), meta), View(mems, meta), View(SegmentSources(added, meta), meta);
    ViewOfLayers(segs, mems, meta);
    ViewOfLayers(segs + added, [], meta);
    EmptyView(meta);
    SegmentSourcesConcat(segs, added, meta);
    ViewConcat(SegmentSources(segs, meta), SegmentSources(added, meta), meta);
    FlushedKeys(mems, added, meta);
    forall i | 0 <= i < |added| ensures CanonicalSegment(added[i], meta) { FlushedFacts(mems[i], meta); }
    SegmentsAreLive(segs, meta);
    SegmentsAreLive(added, meta);
    LiveUnion(a, e);
    assert View(AllSources(segs + added, [], [], meta), meta) == a + e;
    SameVisibleIff(a + d, a + e);
    UpperSame(a, d, e);
    SameLayersIff(mems, added, meta);
  }

  lemma LiveUnion(a: map<Key, Cell>, e: map<Key, Cell>)
    requires AllLive(a) && AllLive(e)
    ensures AllLive(a + e)
  {
  }

  lemma UpperSame(a: map<Key, Cell>, d: map<Key, Cell>, e: map<Key, Cell>)
    requires e.Keys == d.Keys
    ensures (a + e == a + d <==> e == d) && (a + e).Keys == (a + d).Keys
  {
    if a + e == a + d {
      forall k | k in e ensures e[k] == d[k] { assert (a + e)[k] == (a + d)[k]; }
    }
  }

  lemma SameLayersIff(mems: Sources<Row>, added: seq<Segment>, meta: seq<ColumnMeta>)
    requires DistinctNames(meta) && |added| == |mems|
    requires forall i :: 0 <= i < |mems| ==> Sorted(mems[i]) && BareTombstones(mems[i]) && added[i].rows == FlushedRows(mems[i], meta)
    ensures View(SegmentSources(added, meta), meta) == View(mems, meta) <==> NothingLost(mems, meta)
  {
    hide Merged, View, FlushedRows, BareTombstones, Sorted, RowBack, Store, Newest, SegmentSources;
    var d, e := View(mems, meta), View(SegmentSources(added, meta), meta);
    FlushedKeys(mems, added, meta);
    if NothingLost(mems, meta) {
      forall k | k in d ensures e[k] == d[k] {
        KeyOfView(mems, meta, k);
        var i, q := NewestExists(mems, k);
        NewestDecides(mems, added, meta, i, q);
      }
    }
    if e == d {
      forall i: nat, q: nat | Newest(mems, i, q) ensures i < |mems| && ReadsBack(mems[i], q, meta) {
        NewestIsThere(mems, i, q);
        NewestDecides(mems, added, meta, i, q);
      }
    }
  }

  lemma NewestIsThere(mems: Sources<Row>, i: nat, q: nat)
    requires Newest(mems, i, q)
    ensures i < |mems| && q < |mems[i]|
  {
  }

  lemma KeyOfView(mems: Sources<Row>, meta: seq<ColumnMeta>, k: Key)
    ensures k in View(mems, meta) <==> k in Merged(mems)
  {
    hide Merged;
  }

  /** Compaction replaces the segments by one that holds their merged rows, encoded again. */
  lemma CompactEffect(all: bool, segs: seq<Segment>, rows: seq<Entry<Cells>>, merged: Segment, mems: Sources<Row>, active: seq<Entry<Row>>, meta: seq<ColumnMeta>)
    requires DistinctNames(meta) && (forall i :: 0 <= i < |segs| ==> CanonicalSegment(segs[i], meta))
    requires CanonicalRows(rows, meta) && ToMap(rows) == Merged(RowSources(segs)) && merged.rows == Encoded(rows, meta)
    requires all ==> KeepsBools(rows, meta)
    ensures Seen(all, View(AllSources([merged], mems, active, meta), meta), meta) == Seen(all, View(AllSources(segs, mems, active, meta), meta), meta)
  {
    hide Observed, View, ToMap, Merged, SegmentSources, Seen, Encoded, CanonicalRows, KeepsBools, MapValues;
    var live := (c: Cells) => Live(c);
    EncodedFacts(rows, meta);
    ViewOfSegments(segs, meta);
    ViewOfSegments([merged], meta);
    assert Merged(RowSources([merged])) == ToMap(merged.rows) by { SingleMerged(merged.rows); assert RowSources([merged]) == [merged.rows]; }
    EncodedSeen(all, rows, meta);
    var upper := View(mems + [active], meta);
    ViewConcat(SegmentSources(segs, meta), mems + [active], meta);
    ViewConcat(SegmentSources([merged], meta), mems + [active], meta);
    assert AllSources(segs, mems, active, meta) == SegmentSources(segs, meta) + (mems + [active]);
    assert AllSources([merged], mems, active, meta) == SegmentSources([merged], meta) + (mems + [active]);
    SeenUnion(all, MapValues(ToMap(rows), live), upper, meta);
    SeenUnion(all, MapValues(ToMap(merged.rows), live), upper, meta);
  }

  lemma EncodedSeen(all: bool, rows: seq<Entry<Cells>>, meta: seq<ColumnMeta>)
    requires CanonicalRows(rows, meta) && (all ==> KeepsBools(rows, meta))
    ensures Seen(all, MapValues(ToMap(Encoded(rows, meta)), (c: Cells) => Live(c)), meta) ==
      Seen(all, MapValues(ToMap(rows), (c: Cells) => Live(c)), meta)
  {
    hide ToMap, MapValues, RowBack, Face, CanonicalRows, KeepsBools;
    var live, coded := (c: Cells) => Live(c), Encoded(rows, meta);
    ToMapOfMapped(coded, live);
    ToMapOfMapped(rows, live);
    ToMapOfMapped(MapEntries(coded, live), Look(all, meta));
    ToMapOfMapped(MapEntries(rows, live), Look(all, meta));
    var x, y := MapEntries(MapEntries(coded, live), Look(all, meta)), MapEntries(MapEntries(rows, live), Look(all, meta));
    forall i | 0 <= i < |rows| ensures x[i] == y[i] { EncodedFace(all, rows, meta, i); }
    assert x == y;
  }

  lemma SingleMerged<V>(rows: seq<Entry<V>>)
    ensures Merged([rows]) == ToMap(rows)
  {
    MergedSnoc([], rows);
    assert [] + [rows] == [rows];
  }

  /** Merged rows are canonical when every input row is. */
  lemma MergedRowsCanonical(segs: seq<Segment>, rows: seq<Entry<Cells>>, meta: seq<ColumnMeta>)
    requires forall i :: 0 <= i < |segs| ==> CanonicalSegment(segs[i], meta) && Sorted(segs[i].rows)
    requires Sorted(rows) && ToMap(rows) == Merged(RowSources(segs))
    ensures CanonicalRows(rows, meta)
  {
    hide Merged, ToMap, Sorted, Less;
    forall i | 0 <= i < |rows| ensures Canonical(rows[i].value, meta) {
      SortedAt(rows, i);
      MergedFrom(RowSources(segs), rows[i].key);
      var j :| 0 <= j < |segs| && rows[i].key in ToMap(segs[j].rows) && Merged(RowSources(segs))[rows[i].key] == ToMap(segs[j].rows)[rows[i].key];
      ToMapKeys(segs[j].rows, rows[i].key);
      var q :| 0 <= q < |segs[j].rows| && segs[j].rows[q].key == rows[i].key;
      SortedAt(segs[j].rows, q);
    }
  }

  /** Every merged value comes from one of the sources. */
  lemma {:induction false} MergedFrom<V>(s: Sources<V>, k: Key)
    requires k in Merged(s)
    ensures exists j :: 0 <= j < |s| && k in ToMap(s[j]) && Merged(s)[k] == ToMap(s[j])[k]
  {
    var n := |s| - 1;
    if k !in ToMap(s[n]) {
      MergedFrom(s[..n], k);
      var j :| 0 <= j < n && k in ToMap(s[..n][j]) && Merged(s[..n])[k] == ToMap(s[..n][j])[k];
      assert s[j] == s[..n][j];
    }
  }

  // ----- runs -----

  datatype Op =
    | Write(key: Key, columns: map<Str, Value>)
    | WriteBatch(rows: seq<Entry<map<Str, Value>>>)
    | Delete(key: Key)
    | Rotate
    | Flush
    | Compact

  function ApplyBatch(v: map<Key, Cell>, rows: seq<Entry<map<Str, Value>>>, meta: seq<ColumnMeta>): map<Key, Cell> {
    if rows == [] then v
    else
      var n := |rows| - 1;
      ApplyBatch(v, rows[..n], meta)[rows[n].key := Live(Store(rows[n].value, meta))]
  }

  predicate NoEmptyKeys<V>(rows: seq<Entry<V>>) {
    forall i :: 0 <= i < |rows| ==> rows[i].key != []
  }

  /** What a flush or a compaction does to what is seen. */
  ghost predicate Rewritten(all: bool, v: map<Key, Cell>, op: Op, ok: bool, w: map<Key, Cell>, meta: seq<ColumnMeta>) {
    if op.Flush? then Flushed(Seen(all, v, meta), ok, Seen(all, w, meta), meta) else Seen(all, w, meta) == Seen(all, v, meta)
  }

  /** What one operation, which may report failure, does to the contents; `kept` says that what it encoded
      into segments kept its BOOL columns. */
  ghost predicate Effect(v: map<Key, Cell>, op: Op, ok: bool, kept: bool, w: map<Key, Cell>, meta: seq<ColumnMeta>) {
    match op
    case Write(k, columns) => ok == (k != []) && w == if ok then v[k := Live(Store(columns, meta))] else v
    case WriteBatch(rows) => ok == NoEmptyKeys(rows) && w == if ok then ApplyBatch(v, rows, meta) else v
    case Delete(k) => ok == (k != []) && w == if ok then v[k := Deleted] else v
    case Rotate => w == v
    case _ => forall all: bool :: (all ==> kept) ==> Rewritten(all, v, op, ok, w, meta)
  }

  /** A run: the contents before the first operation and after each one. */
  ghost predicate IsRun(views: seq<map<Key, Cell>>, ops: seq<Op>, oks: seq<bool>, kepts: seq<bool>, meta: seq<ColumnMeta>) {
    && |views| == |ops| + 1 && |oks| == |kepts| == |ops|
    && forall i :: 0 <= i < |ops| ==> Effect(views[i], ops[i], oks[i], kepts[i], views[i + 1], meta)
  }

  ghost predicate KeptFrom(kepts: seq<bool>, i: nat) {
    forall j :: i <= j < |kepts| ==> kepts[j]
  }

  ghost predicate Touches(op: Op, k: Key) {
    match op
    case Write(key, _) => key == k
    case WriteBatch(rows) => HasKey(rows, k)
    case Delete(key) => key == k
    case _ => false
  }

  lemma {:induction false} BatchElsewhere(v: map<Key, Cell>, rows: seq<Entry<map<Str, Value>>>, meta: seq<ColumnMeta>, k: Key)
    requires forall i :: 0 <= i < |rows| ==> rows[i].key != k
    ensures k in ApplyBatch(v, rows, meta) <==> k in v
    ensures k in v ==> ApplyBatch(v, rows, meta)[k] == v[k]
  {
    if rows != [] {
      BatchElsewhere(v, rows[..|rows| - 1], meta, k);
    }
  }

  /** The last row of a batch under a key decides. */
  lemma {:induction false} BatchSets(v: map<Key, Cell>, rows: seq<Entry<map<Str, Value>>>, meta: seq<ColumnMeta>, q: nat)
    requires q < |rows| && forall j :: q < j < |rows| ==> rows[j].key != rows[q].key
    ensures var w := ApplyBatch(v, rows, meta); rows[q].key in w && w[rows[q].key] == Live(Store(rows[q].value, meta))
  {
    var n := |rows| - 1;
    if q < n { BatchSets(v, rows[..n], meta, q); }
  }

  /** The operation leaves these columns under the key. */
  ghost predicate Sets(op: Op, k: Key, columns: map<Str, Value>) {
    match op
    case Write(key, c) => key == k && c == columns
    case WriteBatch(rows) =>
      exists q :: 0 <= q < |rows| && rows[q] == Entry(k, columns) && forall j :: q < j < |rows| ==> rows[j].key != k
    case _ => false
  }

  lemma {:induction false} LastRowOf(rows: seq<Entry<map<Str, Value>>>, k: Key) returns (q: nat)
    requires HasKey(rows, k)
    ensures q < |rows| && rows[q].key == k && forall j :: q < j < |rows| ==> rows[j].key != k
  {
    var n := |rows| - 1;
    if rows[n].key == k {
      q := n;
    } else {
      var i :| 0 <= i < |rows| && rows[i].key == k;
      assert rows[..n][i].key == k;
      q := LastRowOf(rows[..n], k);
    }
  }

  /** What touches a key sets its columns or deletes it. */
  lemma TouchSets(op: Op, k: Key) returns (columns: map<Str, Value>)
    requires Touches(op, k)
    ensures op != Delete(k) ==> Sets(op, k, columns)
  {
    match op {
      case Write(_, c) => columns := c;
      case WriteBatch(rows) =>
        var q := LastRowOf(rows, k);
        columns := rows[q].value;
        assert rows[q] == Entry(k, columns);
      case _ => columns := map[];
    }
  }

  /** No operation of the run from `i` on has touched the key and succeeded. */
  ghost predicate Untouched(ops: seq<Op>, oks: seq<bool>, i: nat, k: Key)
    requires |oks| == |ops|
  {
    forall j :: i <= j < |ops| && oks[j] ==> !Touches(ops[j], k)
  }

  /** Operation `i` is the last to have touched the key and succeeded. */
  ghost predicate LastTouch(ops: seq<Op>, oks: seq<bool>, i: nat, k: Key)
    requires |oks| == |ops|
  {
    i < |ops| && oks[i] && Touches(ops[i], k) && Untouched(ops, oks, i + 1, k)
  }

  /** A step that does not touch a key keeps its absence and its live cell; a tombstone it may revive. */
  lemma StepElsewhere(all: bool, v: map<Key, Cell>, op: Op, ok: bool, kept: bool, w: map<Key, Cell>, meta: seq<ColumnMeta>, k: Key)
    requires Effect(v, op, ok, kept, w, meta) && (ok ==> !Touches(op, k)) && (all ==> kept)
    ensures k in w <==> k in v
    ensures k in v ==>
      || Look(all, meta)(w[k]) == Look(all, meta)(v[k])
      || (op.Flush? && Look(all, meta)(w[k]) == Revive(meta)(Look(all, meta)(v[k])))
    ensures k in v && op.Flush? && ok ==> Look(all, meta)(w[k]) == Revive(meta)(Look(all, meta)(v[k]))
  {
    hide Store, Look, Revive, Effect;
    match op {
      case WriteBatch(rows) =>
        BatchEffect(v, rows, ok, kept, w, meta);
        if ok { BatchElsewhere(v, op.rows, meta, k); }
      case Flush => RewriteEffect(all, v, op, ok, kept, w, meta); RewrittenAt(all, v, op, ok, w, meta, k);
      case Compact => RewriteEffect(all, v, op, ok, kept, w, meta); RewrittenAt(all, v, op, ok, w, meta, k);
      case _ => PlainEffect(v, op, ok, kept, w, meta);
    }
  }

  lemma BatchEffect(v: map<Key, Cell>, rows: seq<Entry<map<Str, Value>>>, ok: bool, kept: bool, w: map<Key, Cell>, meta: seq<ColumnMeta>)
    requires Effect(v, WriteBatch(rows), ok, kept, w, meta)
    ensures w == if ok then ApplyBatch(v, rows, meta) else v
  {
    hide ApplyBatch, Rewritten;
  }

  lemma RewriteEffect(all: bool, v: map<Key, Cell>, op: Op, ok: bool, kept: bool, w: map<Key, Cell>, meta: seq<ColumnMeta>)
    requires Effect(v, op, ok, kept, w, meta) && (all ==> kept) && (op.Flush? || op.Compact?)
    ensures Rewritten(all, v, op, ok, w, meta)
  {
    hide Rewritten;
  }

  lemma PlainEffect(v: map<Key, Cell>, op: Op, ok: bool, kept: bool, w: map<Key, Cell>, meta: seq<ColumnMeta>)
    requires Effect(v, op, ok, kept, w, meta) && !op.WriteBatch? && !op.Flush? && !op.Compact?
    ensures forall k :: (ok ==> !Touches(op, k)) ==> (k in w <==> k in v) && (k in v ==> w[k] == v[k])
  {
    hide Rewritten, Store;
  }

  lemma RewrittenAt(all: bool, v: map<Key, Cell>, op: Op, ok: bool, w: map<Key, Cell>, meta: seq<ColumnMeta>, k: Key)
    requires Rewritten(all, v, op, ok, w, meta)
    ensures k in w <==> k in v
    ensures k in v ==>
      || Look(all, meta)(w[k]) == Look(all, meta)(v[k])
      || (op.Flush? && Look(all, meta)(w[k]) == Revive(meta)(Look(all, meta)(v[k])))
    ensures k in v && op.Flush? && ok ==> Look(all, meta)(w[k]) == Revive(meta)(Look(all, meta)(v[k]))
  {
    hide Look, Revive;
    var x, y := Seen(all, v, meta), Seen(all, w, meta);
    assert (k in x <==> k in v) && (k in y <==> k in w);
    assert k in x <==> k in y;
  }

  lemma LookIsLive(all: bool, c: Cell, meta: seq<ColumnMeta>)
    ensures Look(all, meta)(c).Live? <==> c.Live?
    ensures Look(all, meta)(c) == Live(NullCells(meta)) <==> c == Live(NullCells(meta))
  {
    if c.Live? {
      var f := Face(all, c.cells, meta);
      if f == NullCells(meta) {
        forall i | 0 <= i < |meta| ensures c.cells[i] == NullCells(meta)[i] { assert f[i] == NewNull; }
        assert c.cells == NullCells(meta);
      }
      NullFace(all, meta);
    }
  }

  /** A live cell survives every operation that does not touch its key. */
  lemma {:induction false} LiveCellStays(all: bool, views: seq<map<Key, Cell>>, ops: seq<Op>, oks: seq<bool>, kepts: seq<bool>, meta: seq<ColumnMeta>, i: nat, k: Key)
    requires IsRun(views, ops, oks, kepts, meta) && i < |views| && (all ==> KeptFrom(kepts, i))
    requires k in views[i] && views[i][k].Live? && Untouched(ops, oks, i, k)
    ensures k in views[|ops|] && Look(all, meta)(views[|ops|][k]) == Look(all, meta)(views[i][k])
    decreases |ops| - i
  {
    hide Effect, Look, NullCells;
    if i < |ops| {
      StepElsewhere(all, views[i], ops[i], oks[i], kepts[i], views[i + 1], meta, k);
      LookIsLive(all, views[i][k], meta);
      LookIsLive(all, views[i + 1][k], meta);
      LiveCellStays(all, views, ops, oks, kepts, meta, i + 1, k);
    }
  }

  /** A key that nothing touches stays absent. */
  lemma {:induction false} AbsentStays(views: seq<map<Key, Cell>>, ops: seq<Op>, oks: seq<bool>, kepts: seq<bool>, meta: seq<ColumnMeta>, i: nat, k: Key)
    requires IsRun(views, ops, oks, kepts, meta) && i < |views|
    requires k !in views[i] && Untouched(ops, oks, i, k)
    ensures k !in views[|ops|]
    decreases |ops| - i
  {
    hide Effect;
    if i < |ops| {
      StepElsewhere(false, views[i], ops[i], oks[i], kepts[i], views[i + 1], meta, k);
      AbsentStays(views, ops, oks, kepts, meta, i + 1, k);
    }
  }

  /** Over every run, the columns last set under a key, by a write or by a row of a batch, are what
      is seen at the end: rotation, flush and compaction never lose or change them, apart from BOOL
      values, which they keep as long as what is encoded keeps its BOOL columns. */
  lemma LastWriteIsSeen(all: bool, views: seq<map<Key, Cell>>, ops: seq<Op>, oks: seq<bool>, kepts: seq<bool>, meta: seq<ColumnMeta>, i: nat, k: Key, columns: map<Str, Value>)
    requires IsRun(views, ops, oks, kepts, meta) && LastTouch(ops, oks, i, k) && (all ==> KeptFrom(kepts, i))
    requires Sets(ops[i], k, columns)
    ensures k in views[|ops|] && Look(all, meta)(views[|ops|][k]) == Live(Face(all, Store(columns, meta), meta))
    ensures all ==> views[|ops|][k] == Live(Store(columns, meta))
    ensures views[|ops|][k].Live? && CellsShow(all, columns, views[|ops|][k].cells, meta)
  {
    assert Effect(views[i], ops[i], oks[i], kepts[i], views[i + 1], meta);
    hide Store, Untouched;
    if ops[i].WriteBatch? {
      var rows := ops[i].rows;
      var q :| 0 <= q < |rows| && rows[q] == Entry(k, columns) && forall j :: q < j < |rows| ==> rows[j].key != k;
      BatchSets(views[i], rows, meta, q);
    }
    assert views[i + 1][k] == Live(Store(columns, meta));
    hide Effect;
    LiveCellStays(all, views, ops, oks, kepts, meta, i + 1, k);
    if all { FaceOfAll(views[|ops|][k], meta); }
    FaceShows(all, columns, views[|ops|][k].cells, meta);
  }

  /** The cells show the row, BOOL columns perhaps apart, of which NULL is shown in any case. */
  ghost predicate CellsShow(all: bool, columns: map<Str, Value>, cells: Cells, meta: seq<ColumnMeta>) {
    && |cells| == |meta|
    && forall c :: 0 <= c < |meta| ==>
         if all || !meta[c].typ.TypeBool? then Shows(meta[c].typ, ValueOf(columns, meta[c].name), cells[c])
         else cells[c].valid <==> ValueOf(columns, meta[c].name).valid && ValueOf(columns, meta[c].name).typ.TypeBool?
  }

  lemma FaceShows(all: bool, columns: map<Str, Value>, cells: Cells, meta: seq<ColumnMeta>)
    requires Face(all, cells, meta) == Face(all, Store(columns, meta), meta)
    ensures CellsShow(all, columns, cells, meta)
  {
    hide Store, Shows;
    StoreShows(columns, meta);
    var x, y, stored := Face(all, cells, meta), Face(all, Store(columns, meta), meta), Store(columns, meta);
    assert |cells| == |x| == |y| == |meta|;
    forall c | 0 <= c < |meta|
      ensures if all || !meta[c].typ.TypeBool? then Shows(meta[c].typ, ValueOf(columns, meta[c].name), cells[c])
        else cells[c].valid <==> ValueOf(columns, meta[c].name).valid && ValueOf(columns, meta[c].name).typ.TypeBool?
    {
      assert x[c] == y[c];
      ShownValid(meta[c].typ, ValueOf(columns, meta[c].name), stored[c]);
    }
  }

  lemma ShownValid(typ: DataType, v: Value, cell: Value)
    requires Shows(typ, v, cell)
    ensures typ.TypeBool? ==> (cell.valid <==> v.valid && v.typ.TypeBool?)
  {
  }

  lemma FaceOfAll(c: Cell, meta: seq<ColumnMeta>)
    ensures Look(true, meta)(c) == c
    ensures c.Live? ==> Face(true, c.cells, meta) == c.cells
  {
    if c.Live? { assert Face(true, c.cells, meta) == c.cells; }
  }

  ghost predicate FlushedFrom(ops: seq<Op>, oks: seq<bool>, i: nat)
    requires |oks| == |ops|
  {
    exists j :: i <= j < |ops| && ops[j].Flush? && oks[j]
  }

  lemma TombstoneStep(v: map<Key, Cell>, op: Op, ok: bool, kept: bool, w: map<Key, Cell>, meta: seq<ColumnMeta>, k: Key)
    requires Effect(v, op, ok, kept, w, meta) && (ok ==> !Touches(op, k)) && k in v && v[k] == Deleted
    ensures k in w && (w[k] == Deleted || (op.Flush? && w[k] == Live(NullCells(meta))))
    ensures op.Flush? && ok ==> w[k] == Live(NullCells(meta))
  {
    hide Effect, NullCells;
    StepElsewhere(false, v, op, ok, kept, w, meta, k);
    LookIsLive(false, w[k], meta);
  }

  lemma {:induction false} TombstoneStays(views: seq<map<Key, Cell>>, ops: seq<Op>, oks: seq<bool>, kepts: seq<bool>, meta: seq<ColumnMeta>, i: nat, k: Key)
    requires IsRun(views, ops, oks, kepts, meta) && i < |views|
    requires k in views[i] && views[i][k] == Deleted && Untouched(ops, oks, i, k)
    ensures k in views[|ops|]
    ensures views[|ops|][k] == Deleted || views[|ops|][k] == Live(NullCells(meta))
    ensures FlushedFrom(ops, oks, i) ==> views[|ops|][k] == Live(NullCells(meta))
    ensures (forall j :: i <= j < |ops| ==> !ops[j].Flush?) ==> views[|ops|][k] == Deleted
    decreases |ops| - i
  {
    hide Effect, NullCells;
    if i < |ops| {
      TombstoneStep(views[i], ops[i], oks[i], kepts[i], views[i + 1], meta, k);
      if views[i + 1][k] == Deleted {
        assert !(ops[i].Flush? && oks[i]);
        TombstoneStays(views, ops, oks, kepts, meta, i + 1, k);
      } else {
        LiveCellStays(false, views, ops, oks, kepts, meta, i + 1, k);
        LookIsLive(false, views[i + 1][k], meta);
        LookIsLive(false, views[|ops|][k], meta);
      }
    }
  }

  /** A delete hides its key, with every older version, until a flush: without one the key stays
      hidden, after a complete one it is seen again, as a row of NULLs. */
  lemma DeleteHidesUntilFlush(views: seq<map<Key, Cell>>, ops: seq<Op>, oks: seq<bool>, kepts: seq<bool>, meta: seq<ColumnMeta>, i: nat, k: Key)
    requires IsRun(views, ops, oks, kepts, meta) && LastTouch(ops, oks, i, k)
    requires ops[i] == Delete(k)
    ensures k in views[|ops|]
    ensures views[|ops|][k] == Deleted || views[|ops|][k] == Live(NullCells(meta))
    ensures FlushedFrom(ops, oks, i + 1) ==> views[|ops|][k] == Live(NullCells(meta))
    ensures (forall j :: i < j < |ops| ==> !ops[j].Flush?) ==> views[|ops|][k] == Deleted
  {
    assert Effect(views[i], ops[i], oks[i], kepts[i], views[i + 1], meta);
    TombstoneStays(views, ops, oks, kepts, meta, i + 1, k);
  }

  lemma {:induction false} LastTouchExists(ops: seq<Op>, oks: seq<bool>, n: nat, k: Key) returns (i: nat)
    requires |oks| == |ops| && n <= |ops| && Untouched(ops, oks, n, k) && !Untouched(ops, oks, 0, k)
    ensures LastTouch(ops, oks, i, k)
  {
    hide Touches;
    if oks[n - 1] && Touches(ops[n - 1], k) { i := n - 1; } else { i := LastTouchExists(ops, oks, n - 1, k); }
  }

  /** The keys of the final contents: those there before and those touched with success. */
  lemma FinalKeys(views: seq<map<Key, Cell>>, ops: seq<Op>, oks: seq<bool>, kepts: seq<bool>, meta: seq<ColumnMeta>, k: Key)
    requires IsRun(views, ops, oks, kepts, meta)
    ensures k in views[|ops|] <==> k in views[0] || exists i :: 0 <= i < |ops| && oks[i] && Touches(ops[i], k)
  {
    hide Effect, Touches, Store, Untouched, LastTouch;
    if Untouched(ops, oks, 0, k) {
      KeyStays(views, ops, oks, kepts, meta, 0, k);
      UntouchedMeans(ops, oks, k);
    } else {
      UntouchedMeans(ops, oks, k);
      NothingLeft(ops, oks, k);
      var i := LastTouchExists(ops, oks, |ops|, k);
      LastTouched(false, views, ops, oks, kepts, meta, i, k);
    }
  }

  lemma UntouchedMeans(ops: seq<Op>, oks: seq<bool>, k: Key)
    requires |oks| == |ops|
    ensures Untouched(ops, oks, 0, k) <==> !exists i :: 0 <= i < |ops| && oks[i] && Touches(ops[i], k)
  {
    hide Touches;
  }

  lemma NothingLeft(ops: seq<Op>, oks: seq<bool>, k: Key)
    requires |oks| == |ops|
    ensures Untouched(ops, oks, |ops|, k)
  {
  }

  lemma {:induction false} KeyStays(views: seq<map<Key, Cell>>, ops: seq<Op>, oks: seq<bool>, kepts: seq<bool>, meta: seq<ColumnMeta>, i: nat, k: Key)
    requires IsRun(views, ops, oks, kepts, meta) && i < |views| && Untouched(ops, oks, i, k)
    ensures k in views[|ops|] <==> k in views[i]
    decreases |ops| - i
  {
    hide Effect;
    if i < |ops| {
      StepElsewhere(false, views[i], ops[i], oks[i], kepts[i], views[i + 1], meta, k);
      KeyStays(views, ops, oks, kepts, meta, i + 1, k);
    }
  }

  lemma LastTouched(all: bool, views: seq<map<Key, Cell>>, ops: seq<Op>, oks: seq<bool>, kepts: seq<bool>, meta: seq<ColumnMeta>, i: nat, k: Key)
    requires IsRun(views, ops, oks, kepts, meta) && LastTouch(ops, oks, i, k) && (all ==> KeptFrom(kepts, i))
    ensures k in views[|ops|]
    ensures ops[i] == Delete(k) ||
      exists columns :: Sets(ops[i], k, columns) && Look(all, meta)(views[|ops|][k]) == Live(Face(all, Store(columns, meta), meta))
  {
    hide Effect, Store, Untouched;
    if ops[i] == Delete(k) {
      DeleteHidesUntilFlush(views, ops, oks, kepts, meta, i, k);
    } else {
      var columns := TouchSets(ops[i], k);
      LastWriteIsSeen(all, views, ops, oks, kepts, meta, i, k, columns);
    }
  }

  /** The row a run leaves under a key for readers: the last columns set, or NULLs where a flush has
      brought a deleted key back. */
  ghost predicate LeavesRow(all: bool, ops: seq<Op>, oks: seq<bool>, meta: seq<ColumnMeta>, k: Key, cells: Cells)
    requires |oks| == |ops|
  {
    exists i: nat :: LastTouch(ops, oks, i, k) &&
      if ops[i] == Delete(k) then FlushedFrom(ops, oks, i + 1) && cells == NullCells(meta)
      else exists columns :: Sets(ops[i], k, columns) && cells == Face(all, Store(columns, meta), meta)
  }

  /** What readers see of any range after a run that began empty and whose flushes were complete:
      exactly the keys under which the run leaves a row, with that row, its BOOL values hidden unless
      everything encoded kept its BOOL columns. */
  lemma RunIsVisible(all: bool, views: seq<map<Key, Cell>>, ops: seq<Op>, oks: seq<bool>, kepts: seq<bool>, meta: seq<ColumnMeta>, start: Key, end: Key, k: Key, cells: Cells)
    requires IsRun(views, ops, oks, kepts, meta) && views[0] == map[] && (all ==> KeptFrom(kepts, 0))
    requires forall j :: 0 <= j < |ops| && ops[j].Flush? ==> oks[j]
    ensures var seen := Visible(views[|ops|], start, end);
      && ((k in seen && Face(all, seen[k], meta) == cells) <==> Within(k, start, end) && LeavesRow(all, ops, oks, meta, k, cells))
      && (k in seen ==> ShowsLast(all, ops, oks, meta, k, seen[k]))
  {
    hide Effect, CellsShow, Touches, Store, Sets, NullCells, Within, Untouched, FlushedFrom, Face;
    FinalKeys(views, ops, oks, kepts, meta, k);
    UntouchedMeans(ops, oks, k);
    if Untouched(ops, oks, 0, k) {
      NoLastTouch(ops, oks, k);
    } else {
      NothingLeft(ops, oks, k);
      var i := LastTouchExists(ops, oks, |ops|, k);
      OneLastTouch(ops, oks, i, k);
      LastTouched(all, views, ops, oks, kepts, meta, i, k);
      if ops[i] == Delete(k) {
        DeleteHidesUntilFlush(views, ops, oks, kepts, meta, i, k);
        FlushesComplete(ops, oks, i + 1);
        NullFace(all, meta);
        NullsAreNull(meta);
      } else {
        var columns :| Sets(ops[i], k, columns) && Look(all, meta)(views[|ops|][k]) == Live(Face(all, Store(columns, meta), meta));
        OneSet(ops[i], k, columns);
        FaceShows(all, columns, views[|ops|][k].cells, meta);
      }
    }
  }

  /** The last successful operation on the key set columns the cells show, or deleted it, and the cells are
      NULLs that a later flush has brought back. */
  ghost predicate ShowsLast(all: bool, ops: seq<Op>, oks: seq<bool>, meta: seq<ColumnMeta>, k: Key, cells: Cells)
    requires |oks| == |ops|
  {
    exists i: nat :: LastTouch(ops, oks, i, k) &&
      if ops[i] == Delete(k) then FlushedFrom(ops, oks, i + 1) && |cells| == |meta| && forall c :: 0 <= c < |meta| ==> cells[c] == NewNull
      else exists columns :: Sets(ops[i], k, columns) && CellsShow(all, columns, cells, meta)
  }

  lemma NullsAreNull(meta: seq<ColumnMeta>)
    ensures |NullCells(meta)| == |meta| && forall c :: 0 <= c < |meta| ==> NullCells(meta)[c] == NewNull
  {
  }

  lemma NoLastTouch(ops: seq<Op>, oks: seq<bool>, k: Key)
    requires |oks| == |ops| && Untouched(ops, oks, 0, k)
    ensures forall i: nat :: !LastTouch(ops, oks, i, k)
  {
    hide Touches;
  }

  lemma OneLastTouch(ops: seq<Op>, oks: seq<bool>, i: nat, k: Key)
    requires |oks| == |ops| && LastTouch(ops, oks, i, k)
    ensures forall j: nat :: LastTouch(ops, oks, j, k) ==> j == i
  {
    hide Touches;
  }

  lemma FlushesComplete(ops: seq<Op>, oks: seq<bool>, i: nat)
    requires |oks| == |ops| && forall j :: 0 <= j < |ops| && ops[j].Flush? ==> oks[j]
    ensures FlushedFrom(ops, oks, i) || forall j :: i <= j < |ops| ==> !ops[j].Flush?
  {
  }

  lemma OneSet(op: Op, k: Key, columns: map<Str, Value>)
    requires Sets(op, k, columns)
    ensures forall c :: Sets(op, k, c) ==> c == columns
  {
  }
}
