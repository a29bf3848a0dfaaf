/** Crash recovery: an engine with its files, any number of crashes, and what a replay of the log over
    the segments restores. */
module Recovery {
  import opened Keys
  import opened SortedEntries
  import opened Values
  import opened Bytes
  import opened MemTables
  import opened Merges
  import opened LsmModel
  import opened WriteAheadLogs
  import opened LogRecords
  import WalCodec

  /** The durable state of an engine that syncs every write. `rows` are all rows ever logged, in order,
      of which the first `aside` are in files that rotation set aside; the first `flushed` are in segments.
      Frozen memtable `j` holds the rows from `cuts[j]` on, the active one those from `activeFrom` up to
      `applied`. */
  datatype State = State(
    file: seq<Record>,
    rows: seq<LogRow>,
    aside: nat,
    segs: seq<Segment>,
    frozen: Sources<Row>,
    active: seq<Entry<Row>>,
    flushing: Option<nat>,
    lastSegId: nat,
    nextVersion: nat,
    flushed: nat,
    cuts: seq<nat>,
    activeFrom: nat,
    applied: nat)

  const Start: State := State([], [], 0, [], [], [], None, 0, 0, 0, [], 0, 0)

  datatype Step =
    | Append(tp: byte, batch: seq<WalCodec.WriteRow>, deleted: bool)  // log a write, a delete or a batch and sync
    | Refuse(n: nat)                              // a failed append, which has taken its versions
    | ApplyRows                                   // put the logged rows into the active memtable
    | Rotate
    | RotateLog                                   // the full log file is set aside
    | BeginFlush
    | FlushOne(seg: Segment)
    | FailFlush
    | WriteCheckpoint
    | CompactWrite(merged: seq<Entry<Cells>>, seg: Segment)  // the merged segment reaches the disk
    | CompactDelete(i: nat)                       // one merged segment's file is removed
    | Restart(last: nat)                          // a crash, then a replay of the log

  function Payload(batch: seq<WalCodec.WriteRow>, s: State): Buffer {
    WalCodec.BatchBytes(batch, s.nextVersion + 1)
  }

  function LogRead(s: State, f: CheckpointFormat): seq<LogRow> {
    RowsOf(LogOf(s.file, f))
  }

  ghost predicate Next(s: State, step: Step, t: State, meta: seq<ColumnMeta>, f: CheckpointFormat) {
    var total := |s.rows|;
    match step
    case Append(tp, batch, deleted) =>
      && s.applied == total && s.flushing.None?
      && WellFormed(tp, batch, deleted) && s.nextVersion + |batch| < TWO64 && |Payload(batch, s)| <= MAX_PAYLOAD
      && t == s.(file := s.file + [Record(tp, Payload(batch, s))], rows := s.rows + Stamp(batch, s.nextVersion + 1, deleted),
        nextVersion := s.nextVersion + |batch|)
    case Refuse(n) =>
      t == s.(nextVersion := s.nextVersion + n)
    case ApplyRows =>
      && s.flushing.None? && Sorted(t.active) && s.applied <= total
      && ToMap(t.active) == ToMap(s.active) + Written(s.rows[s.applied..])
      && t == s.(active := t.active, applied := total)
    case Rotate =>
      && s.flushing.None?
      && t == s.(frozen := s.frozen + [s.active], cuts := s.cuts + [s.activeFrom], active := [], activeFrom := s.applied)
    case RotateLog =>
      t == s.(file := [], aside := total)
    case BeginFlush =>
      && s.applied == total && s.flushing.None? && s.frozen != [] && s.active == [] && s.activeFrom == s.applied
      && t == s.(flushing := Some(if s.nextVersion > 0 then s.nextVersion - 1 else 0))
    case FlushOne(seg) =>
      && s.flushing.Some? && s.frozen != [] && |s.cuts| == |s.frozen|
      && seg.rows == FlushedRows(s.frozen[0], meta) && seg.id == s.lastSegId + 1
      && t == s.(segs := s.segs + [seg], lastSegId := seg.id, frozen := s.frozen[1..], cuts := s.cuts[1..],
        flushed := CutAfter(s.cuts, s.activeFrom))
    case FailFlush =>
      s.flushing.Some? && t == s.(flushing := None)
    case WriteCheckpoint =>
      && s.flushing.Some? && s.frozen == [] && |f.write(s.flushing.value)| <= MAX_PAYLOAD
      && t == s.(file := s.file + [Record(TYPE_CHECKPOINT, f.write(s.flushing.value))], flushing := None)
    case CompactWrite(merged, seg) =>
      && seg.id == s.lastSegId + 1 && Sorted(merged) && ToMap(merged) == Merged(RowSources(s.segs))
      && Shaped(merged, meta) && seg.rows == Encoded(merged, meta)
      && t == s.(segs := s.segs + [seg], lastSegId := seg.id)
    case CompactDelete(i) =>
      && i + 1 < |s.segs|
      && ToMap(s.segs[i].rows).Keys <= ToMap(s.segs[|s.segs| - 1].rows).Keys
      && t == s.(segs := s.segs[..i] + s.segs[i + 1..])
    case Restart(last) =>
      var kept := Newer(LogRead(s, f), last);
      && IsLastCheckpoint(LogOf(s.file, f), last)
      && Sorted(t.active) && ToMap(t.active) == Written(kept) && |kept| <= total
      && t == s.(frozen := [], cuts := [], active := t.active, flushing := None, nextVersion := MaxVersion(kept) + 1,
        activeFrom := total - |kept|, applied := total)
  }

  /** What a step encodes into a segment keeps its BOOL columns. */
  ghost predicate KeepsStep(s: State, step: Step, meta: seq<ColumnMeta>) {
    match step
    case FlushOne(_) => s.frozen != [] ==> FlushKeeps(s.frozen[0], meta)
    case CompactWrite(merged, _) => Shaped(merged, meta) ==> KeepsBools(merged, meta)
    case _ => true
  }

  /** The version the first write after a restart gets. */
  ghost function FirstVersionAfter(log: seq<LogRecord>, last: nat): nat {
    MaxVersion(Newer(RowsOf(log), last)) + 2
  }

  /** Some row newer than the checkpoint is replayed, or the checkpoint is below 2. */
  ghost predicate SafeRestart(log: seq<LogRecord>, last: nat) {
    last < 2 || exists i :: 0 <= i < |RowsOf(log)| && RowsOf(log)[i].version > last
  }

  /** Versions restart from the replayed rows only, not from the checkpoint. The first
      write after a restart will itself be replayed by the next restart exactly when some
      row newer than the checkpoint was replayed, or the checkpoint is below 2. */
  lemma NextWriteSurvivesIff(log: seq<LogRecord>, last: nat)
    ensures FirstVersionAfter(log, last) > last <==> SafeRestart(log, last)
  {
    hide MaxVersion, Newer, RowsOf;
    var rows := RowsOf(log);
    MaxOfNewer(rows, last);
    NothingWritten();
    if i :| 0 <= i < |rows| && rows[i].version > last {
      assert MaxVersion(Newer(rows, last)) > last;
    } else {
      assert forall i :: 0 <= i < |rows| ==> rows[i].version <= last;
      assert Newer(rows, last) == [];
    }
  }

  /** A step the recovery theorem allows: what is appended can be read back, a restart finds every unflushed
      row in the current file and continues above its checkpoint, and, where BOOL values are to be
      seen, what is encoded keeps them. */
  ghost predicate Sound(all: bool, s: State, step: Step, meta: seq<ColumnMeta>, f: CheckpointFormat) {
    && (step.Append? ==> WalCodec.Survives(step.batch))
    && (step.Restart? ==> s.aside <= s.flushed && SafeRestart(LogOf(s.file, f), step.last))
    && (all ==> KeepsStep(s, step, meta))
  }

  // ----- contents -----

  /** Row maps in storage form. */
  function StoredMap(m: map<Key, Row>, meta: seq<ColumnMeta>): map<Key, Cells> {
    MapValues(m, (r: Row) => Store(r.columns, meta))
  }

  /** With BOOL values hidden, unless `all`. */
  function Faces(all: bool, m: map<Key, Cells>, meta: seq<ColumnMeta>): map<Key, Cells> {
    MapValues(m, (c: Cells) => Face(all, c, meta))
  }

  lemma StoredUnion(a: map<Key, Row>, b: map<Key, Row>, meta: seq<ColumnMeta>)
    ensures StoredMap(a + b, meta) == StoredMap(a, meta) + StoredMap(b, meta)
  {
    MapValuesUnion(a, b, (r: Row) => Store(r.columns, meta));
  }

  lemma FacesUnion(all: bool, a: map<Key, Cells>, b: map<Key, Cells>, meta: seq<ColumnMeta>)
    ensures Faces(all, a + b, meta) == Faces(all, a, meta) + Faces(all, b, meta)
  {
    MapValuesUnion(a, b, (c: Cells) => Face(all, c, meta));
  }

  lemma AllFaces(m: map<Key, Cells>, meta: seq<ColumnMeta>)
    ensures Faces(true, m, meta) == m
  {
    forall k | k in m ensures Face(true, m[k], meta) == m[k] {
    }
  }

  /** Encoding leaves everything but BOOL values, and those too when they are kept. */
  lemma EncodedFaces(all: bool, rows: seq<Entry<Cells>>, meta: seq<ColumnMeta>)
    requires CanonicalRows(rows, meta) && (all ==> KeepsBools(rows, meta))
    ensures Faces(all, ToMap(Encoded(rows, meta)), meta) == Faces(all, ToMap(rows), meta)
  {
    hide ToMap, RowBack, Face, CanonicalRows, KeepsBools, MapValues;
    var g := (c: Cells) => Face(all, c, meta);
    ToMapOfMapped(Encoded(rows, meta), g);
    ToMapOfMapped(rows, g);
    var x, y := MapEntries(Encoded(rows, meta), g), MapEntries(rows, g);
    forall i | 0 <= i < |rows| ensures x[i] == y[i] { EncodedFace(all, rows, meta, i); }
    assert x == y;
  }

  lemma FlushedFaces(all: bool, mem: seq<Entry<Row>>, meta: seq<ColumnMeta>)
    requires all ==> FlushKeeps(mem, meta)
    ensures Faces(all, ToMap(FlushedRows(mem, meta)), meta) == Faces(all, StoredMap(ToMap(mem), meta), meta)
  {
    hide ToMap, Encoded, CanonicalRows, KeepsBools, Faces;
    StoredAreCanonical(mem, meta);
    EncodedFaces(all, StoredRows(mem, meta), meta);
    ToMapOfMapped(mem, (r: Row) => Store(r.columns, meta));
  }

  lemma KeptNorm(typ: DataType, v: Value)
    ensures Kept(typ, WalCodec.Norm(v)) == Kept(typ, v)
  {
  }

  /** A row as it is read back is stored like the row that was logged. */
  lemma StoreOfRead(columns: map<Str, Value>, meta: seq<ColumnMeta>)
    ensures Store(NormMap(columns), meta) == Store(columns, meta)
  {
    hide Kept, WalCodec.Norm;
    forall i | 0 <= i < |meta| ensures KeptColumn(NormMap(columns), meta[i]) == KeptColumn(columns, meta[i]) {
      if meta[i].name in columns { KeptNorm(meta[i].typ, columns[meta[i].name]); }
    }
  }

  lemma {:induction false} ReadIsStoredAlike(rows: seq<LogRow>, meta: seq<ColumnMeta>)
    ensures StoredMap(Written(AllRead(rows)), meta) == StoredMap(Written(rows), meta)
  {
    hide ToMap, AsEntries, NormMap, Store;
    var g := (r: Row) => Store(r.columns, meta);
    ToMapOfMapped(AsEntries(rows), g);
    ToMapOfMapped(AsEntries(AllRead(rows)), g);
    var x, y := MapEntries(AsEntries(AllRead(rows)), g), MapEntries(AsEntries(rows), g);
    forall i | 0 <= i < |rows| ensures x[i] == y[i] { StoreOfRead(rows[i].columns, meta); }
    assert x == y;
  }

  /** Rows put over contents that already hold the first of them. */
  lemma WindowOver(rows: seq<LogRow>, a: nat, m: nat, b: nat)
    requires a <= m <= b <= |rows|
    ensures Written(rows[..m]) + Written(rows[a..b]) == Written(rows[..b])
  {
    hide Written;
    assert rows[..m] == rows[..a] + rows[a..m] && rows[a..b] == rows[a..m] + rows[m..b];
    assert rows[..b] == rows[..a] + rows[a..b];
    WrittenConcat(rows[..a], rows[a..m]);
    WrittenConcat(rows[a..m], rows[m..b]);
    WrittenConcat(rows[..a], rows[a..b]);
    UnionAbsorbs(Written(rows[..a]), Written(rows[a..m]), Written(rows[m..b]));
  }

  lemma UnionAbsorbs<V>(a: map<Key, V>, b: map<Key, V>, c: map<Key, V>)
    ensures (a + b) + (b + c) == a + (b + c)
  {
  }

  // ----- the invariant -----

  /** The rows of the current file by version. */
  ghost predicate Increasing(rows: seq<LogRow>) {
    && (forall i :: 0 <= i < |rows| ==> rows[i].version > 0)
    && (forall i, j :: 0 <= i < j < |rows| ==> rows[i].version < rows[j].version)
  }

  ghost predicate NoneAbove(rows: seq<LogRow>, version: nat) {
    forall i :: 0 <= i < |rows| ==> rows[i].version <= version
  }

  /** Checkpoints claim flushed rows only, and no version still to come. */
  ghost predicate GoodCheckpoints(log: seq<LogRecord>, rows: seq<LogRow>, from: nat, nextVersion: nat) {
    forall c :: 0 <= c < |log| && log[c].Checkpoint? ==>
      log[c].flushedVersion <= nextVersion && forall i :: from <= i < |rows| ==> rows[i].version > log[c].flushedVersion
  }

  function CutAfter(cuts: seq<nat>, to: nat): nat {
    if |cuts| > 1 then cuts[1] else to
  }

  /** Each frozen memtable holds what its window of the log wrote; the windows follow one
      another up to the active memtable. */
  ghost predicate FrozenHolds(frozen: Sources<Row>, cuts: seq<nat>, from: nat, to: nat, rows: seq<LogRow>, meta: seq<ColumnMeta>)
    requires to <= |rows|
  {
    && |cuts| == |frozen|
    && if frozen == [] then from == to
       else
         var end := CutAfter(cuts, to);
         && from == cuts[0] <= end <= to
         && StoredMap(ToMap(frozen[0]), meta) == StoredMap(Written(rows[from..end]), meta)
         && FrozenHolds(frozen[1..], cuts[1..], end, to, rows, meta)
  }

  /** The first row a memtable holds, and the end of the oldest memtable's window. */
  function From(s: State): nat {
    if s.cuts == [] then s.activeFrom else s.cuts[0]
  }

  function OldestEnd(s: State): nat {
    if s.cuts == [] then s.applied else CutAfter(s.cuts, s.activeFrom)
  }

  function Max(a: nat, b: nat): nat {
    if a > b then a else b
  }

  ghost predicate LogInv(s: State, f: CheckpointFormat) {
    && s.aside <= |s.rows|
    && LogRead(s, f) == AllRead(s.rows[s.aside..])
    && Increasing(s.rows[s.aside..]) && NoneAbove(s.rows[s.aside..], s.nextVersion)
    && GoodCheckpoints(LogOf(s.file, f), s.rows, Max(s.flushed, s.aside), s.nextVersion)
    && !TooLarge(s.file)
  }

  ghost predicate Inv(all: bool, s: State, meta: seq<ColumnMeta>, f: CheckpointFormat) {
    && LogInv(s, f)
    && s.activeFrom <= s.applied <= |s.rows|
    && From(s) <= s.flushed <= OldestEnd(s) && s.flushed <= |s.rows|
    && Faces(all, Merged(RowSources(s.segs)), meta) == Faces(all, StoredMap(Written(s.rows[..s.flushed]), meta), meta)
    && FrozenHolds(s.frozen, s.cuts, From(s), s.activeFrom, s.rows, meta)
    && StoredMap(ToMap(s.active), meta) == StoredMap(Written(s.rows[s.activeFrom..s.applied]), meta)
    && (s.flushing.Some? ==> s.applied == |s.rows| && s.activeFrom == s.applied && s.flushing.value <= s.nextVersion)
  }

  lemma NothingLogged(f: CheckpointFormat)
    ensures LogOf([], f) == [] && RowsOf([]) == [] && AllRead([]) == []
  {
  }

  lemma StartIsGood(all: bool, meta: seq<ColumnMeta>, f: CheckpointFormat)
    ensures Inv(all, Start, meta, f)
  {
    NothingLogged(f);
    assert RowSources([]) == [];
  }

  /** Longer logs do not change what the windows hold. */
  lemma {:induction false} FrozenUnderAppend(frozen: Sources<Row>, cuts: seq<nat>, from: nat, to: nat, rows: seq<LogRow>, more: seq<LogRow>, meta: seq<ColumnMeta>)
    requires to <= |rows| && FrozenHolds(frozen, cuts, from, to, rows, meta)
    ensures FrozenHolds(frozen, cuts, from, to, rows + more, meta)
  {
    hide Written, ToMap, StoredMap;
    if frozen != [] {
      assert (rows + more)[from..CutAfter(cuts, to)] == rows[from..CutAfter(cuts, to)];
      FrozenUnderAppend(frozen[1..], cuts[1..], CutAfter(cuts, to), to, rows, more, meta);
    }
  }

  /** Freezing the active memtable appends one window. */
  lemma {:induction false} FrozenUnderRotate(frozen: Sources<Row>, cuts: seq<nat>, from: nat, mid: nat, to: nat, rows: seq<LogRow>, active: seq<Entry<Row>>, meta: seq<ColumnMeta>)
    requires mid <= to <= |rows| && FrozenHolds(frozen, cuts, from, mid, rows, meta)
    requires StoredMap(ToMap(active), meta) == StoredMap(Written(rows[mid..to]), meta)
    ensures FrozenHolds(frozen + [active], cuts + [mid], from, to, rows, meta)
  {
    hide Written, ToMap, StoredMap;
    if frozen == [] {
      assert (frozen + [active])[1..] == [] && (cuts + [mid])[1..] == [];
    } else {
      assert (frozen + [active])[1..] == frozen[1..] + [active] && (cuts + [mid])[1..] == cuts[1..] + [mid];
      FrozenUnderRotate(frozen[1..], cuts[1..], CutAfter(cuts, mid), mid, to, rows, active, meta);
    }
  }

  lemma FrozenBounds(frozen: Sources<Row>, cuts: seq<nat>, from: nat, to: nat, rows: seq<LogRow>, meta: seq<ColumnMeta>)
    requires to <= |rows| && FrozenHolds(frozen, cuts, from, to, rows, meta)
    ensures from <= to && (cuts != [] ==> cuts[0] <= CutAfter(cuts, to))
  {
    hide Written, ToMap, StoredMap;
  }

  /** What is appended reads back as the rows it adds. */
  lemma LogUnderAppend(s: State, tp: byte, batch: seq<WalCodec.WriteRow>, deleted: bool, t: State, meta: seq<ColumnMeta>, f: CheckpointFormat)
    requires LogInv(s, f) && Next(s, Append(tp, batch, deleted), t, meta, f) && WalCodec.Survives(batch)
    ensures LogInv(t, f)
  {
    hide RowsOf, WellFormed, WalCodec.Survives, WalCodec.BatchBytes, RecordOf, AllRead;
    var rec, more := Record(tp, Payload(batch, s)), Stamp(batch, s.nextVersion + 1, deleted);
    RecordReadsIff(tp, batch, s.nextVersion + 1, deleted, f);
    AppendedIsWrite(tp, batch, deleted, rec.payload, f);
    LogGrows(s, rec, more, t, f);
  }

  lemma AppendedIsWrite(tp: byte, batch: seq<WalCodec.WriteRow>, deleted: bool, payload: Buffer, f: CheckpointFormat)
    requires WellFormed(tp, batch, deleted)
    ensures RecordOf(Record(tp, payload), f).WriteRecord?
  {
    hide WalCodec.Decode, WalCodec.DistinctColumns;
  }

  /** A record that reads back as the rows it adds keeps the log in order. */
  lemma LogGrows(s: State, rec: Record, more: seq<LogRow>, t: State, f: CheckpointFormat)
    requires LogInv(s, f) && RecordOf(rec, f).WriteRecord? && RowsIn(RecordOf(rec, f)) == AllRead(more) && |rec.payload| <= MAX_PAYLOAD
    requires forall i :: 0 <= i < |more| ==> more[i].version == s.nextVersion + 1 + i
    requires t.file == s.file + [rec] && t.rows == s.rows + more && t.aside == s.aside && t.flushed == s.flushed
    requires t.nextVersion == s.nextVersion + |more|
    ensures LogInv(t, f)
  {
    hide RowsOf, RecordOf, AsRead;
    LogAfter(s.file, rec, f);
    assert t.rows[t.aside..] == s.rows[s.aside..] + more;
    assert AllRead(t.rows[t.aside..]) == AllRead(s.rows[s.aside..]) + AllRead(more);
    CheckpointsUnderAppend(s, more, t, f);
  }

  lemma CheckpointsUnderAppend(s: State, more: seq<LogRow>, t: State, f: CheckpointFormat)
    requires s.aside == t.aside && s.flushed == t.flushed && s.aside <= |s.rows| && t.rows == s.rows + more
    requires GoodCheckpoints(LogOf(s.file, f), s.rows, Max(s.flushed, s.aside), s.nextVersion) && s.nextVersion <= t.nextVersion
    requires forall i :: 0 <= i < |more| ==> more[i].version > s.nextVersion
    requires |t.file| == |s.file| + 1 && t.file[..|s.file|] == s.file && RecordOf(t.file[|s.file|], f).WriteRecord?
    ensures GoodCheckpoints(LogOf(t.file, f), t.rows, Max(t.flushed, t.aside), t.nextVersion)
  {
    hide RecordOf;
    var log := LogOf(t.file, f);
    forall c | 0 <= c < |log| && log[c].Checkpoint?
      ensures log[c].flushedVersion <= t.nextVersion
      ensures forall i :: Max(t.flushed, t.aside) <= i < |t.rows| ==> t.rows[i].version > log[c].flushedVersion
    {
      assert log[c] == LogOf(s.file, f)[c];
    }
  }

  lemma InvAppend(all: bool, s: State, step: Step, t: State, meta: seq<ColumnMeta>, f: CheckpointFormat)
    requires Inv(all, s, meta, f) && step.Append? && Next(s, step, t, meta, f) && WalCodec.Survives(step.batch)
    ensures Inv(all, t, meta, f)
  {
    hide Merged, Written, StoredMap, ToMap, LogInv, FrozenHolds, WellFormed, Faces, Payload, WalCodec.Survives, AllRead, Stamp;
    LogUnderAppend(s, step.tp, step.batch, step.deleted, t, meta, f);
    var rows, more := s.rows, Stamp(step.batch, s.nextVersion + 1, step.deleted);
    assert (rows + more)[..s.flushed] == rows[..s.flushed];
    assert (rows + more)[s.activeFrom..s.applied] == rows[s.activeFrom..s.applied];
    FrozenUnderAppend(s.frozen, s.cuts, From(s), s.activeFrom, rows, more, meta);
  }

  lemma InvRefuse(all: bool, s: State, n: nat, t: State, meta: seq<ColumnMeta>, f: CheckpointFormat)
    requires Inv(all, s, meta, f) && Next(s, Refuse(n), t, meta, f)
    ensures Inv(all, t, meta, f)
  {
    hide Merged, Written, StoredMap, ToMap, FrozenHolds, Faces, RowsOf, RecordOf;
  }

  lemma InvRotateLog(all: bool, s: State, t: State, meta: seq<ColumnMeta>, f: CheckpointFormat)
    requires Inv(all, s, meta, f) && Next(s, RotateLog, t, meta, f)
    ensures Inv(all, t, meta, f)
  {
    hide Merged, Written, StoredMap, ToMap, FrozenHolds, Faces, RecordOf;
    NothingLogged(f);
    assert t.rows[t.aside..] == [];
  }

  lemma InvApply(all: bool, s: State, t: State, meta: seq<ColumnMeta>, f: CheckpointFormat)
    requires Inv(all, s, meta, f) && Next(s, ApplyRows, t, meta, f)
    ensures Inv(all, t, meta, f)
  {
    hide Merged, StoredMap, ToMap, LogInv, FrozenHolds, AsEntries, Faces, Written;
    var rows := s.rows;
    assert rows[s.activeFrom..|rows|] == rows[s.activeFrom..s.applied] + rows[s.applied..];
    WrittenConcat(rows[s.activeFrom..s.applied], rows[s.applied..]);
    StoredUnion(ToMap(s.active), Written(rows[s.applied..]), meta);
    StoredUnion(Written(rows[s.activeFrom..s.applied]), Written(rows[s.applied..]), meta);
    SameLog(s, t, f);
  }

  lemma SameLog(s: State, t: State, f: CheckpointFormat)
    requires LogInv(s, f) && t.file == s.file && t.rows == s.rows && t.aside == s.aside
    requires t.nextVersion == s.nextVersion && t.flushed >= s.flushed
    ensures LogInv(t, f)
  {
    hide RowsOf, RecordOf;
  }

  lemma InvRotate(all: bool, s: State, t: State, meta: seq<ColumnMeta>, f: CheckpointFormat)
    requires Inv(all, s, meta, f) && Next(s, Step.Rotate, t, meta, f)
    ensures Inv(all, t, meta, f)
  {
    hide Merged, StoredMap, ToMap, LogInv, FrozenHolds, Written, Faces;
    var rows := s.rows;
    assert rows[s.applied..s.applied] == [];
    NothingWritten();
    FrozenUnderRotate(s.frozen, s.cuts, From(s), s.activeFrom, s.applied, rows, s.active, meta);
    LengthsAgree(s.frozen, s.cuts, From(s), s.activeFrom, rows, meta);
    SameLog(s, t, f);
  }

  lemma LengthsAgree(frozen: Sources<Row>, cuts: seq<nat>, from: nat, to: nat, rows: seq<LogRow>, meta: seq<ColumnMeta>)
    requires to <= |rows| && FrozenHolds(frozen, cuts, from, to, rows, meta)
    ensures |cuts| == |frozen|
  {
    hide StoredMap, Written, ToMap;
  }

  lemma InvFlushOne(all: bool, s: State, seg: Segment, t: State, meta: seq<ColumnMeta>, f: CheckpointFormat)
    requires Inv(all, s, meta, f) && Next(s, FlushOne(seg), t, meta, f) && (all ==> KeepsStep(s, FlushOne(seg), meta))
    ensures Inv(all, t, meta, f)
  {
    hide Merged, StoredMap, Written, ToMap, FlushedRows, LogInv, Faces, FlushKeeps;
    var rows, a, m, b := s.rows, From(s), s.flushed, OldestEnd(s);
    FrozenBounds(t.frozen, t.cuts, b, s.activeFrom, rows, meta);
    WindowOver(rows, a, m, b);
    StoredUnion(Written(rows[..m]), Written(rows[a..b]), meta);
    FlushedFaces(all, s.frozen[0], meta);
    assert RowSources(t.segs) == RowSources(s.segs) + [seg.rows];
    MergedSnoc(RowSources(s.segs), seg.rows);
    FacesUnion(all, Merged(RowSources(s.segs)), ToMap(seg.rows), meta);
    FacesUnion(all, StoredMap(Written(rows[..m]), meta), StoredMap(Written(rows[a..b]), meta), meta);
    SameLog(s, t, f);
  }

  lemma InvMark(all: bool, s: State, t: State, meta: seq<ColumnMeta>, f: CheckpointFormat)
    requires RoundTrips(f) && Inv(all, s, meta, f) && Next(s, WriteCheckpoint, t, meta, f)
    ensures Inv(all, t, meta, f)
  {
    hide Merged, StoredMap, Written, ToMap, Faces, RowsOf, RoundTrips;
    var rec := Record(TYPE_CHECKPOINT, f.write(s.flushing.value));
    LogAfter(s.file, rec, f);
    CheckpointReads(s.flushing.value, f);
    var log := LogOf(t.file, f);
    forall c | 0 <= c < |log| && log[c].Checkpoint?
      ensures log[c].flushedVersion <= t.nextVersion
      ensures forall i :: Max(t.flushed, t.aside) <= i < |t.rows| ==> t.rows[i].version > log[c].flushedVersion
    {
      if c < |s.file| { assert log[c] == LogOf(s.file, f)[c]; }
    }
    hide RecordOf;
    assert LogInv(t, f);
    hide LogInv;
  }

  lemma CheckpointReads(v: nat, f: CheckpointFormat)
    requires RoundTrips(f)
    ensures RecordOf(Record(TYPE_CHECKPOINT, f.write(v)), f) == Checkpoint(v)
  {
  }

  lemma InvCompact(all: bool, s: State, step: Step, t: State, meta: seq<ColumnMeta>, f: CheckpointFormat)
    requires Inv(all, s, meta, f) && Next(s, step, t, meta, f) && (step.CompactWrite? || step.CompactDelete?)
    requires step.CompactWrite? ==> CanonicalRows(step.merged, meta)
    requires all ==> KeepsStep(s, step, meta)
    ensures Inv(all, t, meta, f)
  {
    hide StoredMap, Written, ToMap, LogInv, Merged, FrozenHolds, Faces, Encoded, KeepsBools, Shaped, CanonicalRows;
    SameLog(s, t, f);
    if step.CompactWrite? {
      var before := Merged(RowSources(s.segs));
      assert RowSources(t.segs) == RowSources(s.segs) + [step.seg.rows];
      MergedSnoc(RowSources(s.segs), step.seg.rows);
      IsShaped(step.merged, meta);
      EncodedFaces(all, step.merged, meta);
      FacesUnion(all, before, ToMap(step.seg.rows), meta);
      assert Faces(all, Merged(RowSources(t.segs)), meta) == Faces(all, before, meta) + Faces(all, before, meta);
    } else {
      ShadowedSourceIsIdle(RowSources(s.segs), step.i);
      assert RowSources(t.segs) == RowSources(s.segs)[..step.i] + RowSources(s.segs)[step.i + 1..];
    }
  }

  lemma IsShaped(rows: seq<Entry<Cells>>, meta: seq<ColumnMeta>)
    requires CanonicalRows(rows, meta)
    ensures Shaped(rows, meta)
  {
  }

  /** A source whose keys all stand in the newest source can be dropped. */
  lemma ShadowedSourceIsIdle<V>(src: Sources<V>, i: nat)
    requires i + 1 < |src| && ToMap(src[i]).Keys <= ToMap(src[|src| - 1]).Keys
    ensures Merged(src[..i] + src[i + 1..]) == Merged(src)
  {
    hide ToMap, Merged;
    var n := |src| - 1;
    var before, between := src[..i], src[i + 1..n];
    assert src == before + [src[i]] + between + [src[n]] && before + src[i + 1..] == before + between + [src[n]];
    MergedSnoc(before + [src[i]] + between, src[n]);
    MergedSnoc(before + between, src[n]);
    MergedConcat(before + [src[i]], between);
    MergedSnoc(before, src[i]);
    MergedConcat(before, between);
    Shadowed(Merged(before), ToMap(src[i]), Merged(between), ToMap(src[n]));
  }

  lemma Shadowed<V>(a: map<Key, V>, x: map<Key, V>, b: map<Key, V>, top: map<Key, V>)
    requires x.Keys <= top.Keys
    ensures a + b + top == a + x + b + top
  {
  }

  // ----- restart -----

  /** The rows from `p` on are newer, those before are not. */
  ghost predicate CutsAt(rows: seq<LogRow>, last: nat, p: nat) {
    && p <= |rows|
    && (forall i :: 0 <= i < p ==> rows[i].version <= last)
    && (forall i :: p <= i < |rows| ==> rows[i].version > last)
  }

  lemma {:induction false} NewerFromCut(rows: seq<LogRow>, last: nat, p: nat)
    requires CutsAt(rows, last, p)
    ensures Newer(AllRead(rows), last) == AllRead(rows[p..])
  {
    hide AsRead, Newer, AllRead;
    if p == |rows| {
      NoneReadNewer(rows, last);
      assert rows[p..] == [];
    } else {
      var n := |rows| - 1;
      assert CutsAt(rows[..n], last, p);
      NewerFromCut(rows[..n], last, p);
      NewerOfLast(rows, last);
      assert rows[p..] == rows[..n][p..] + [rows[n]];
      ReadConcat(rows[..n][p..], [rows[n]]);
    }
  }

  lemma NoneReadNewer(rows: seq<LogRow>, last: nat)
    requires forall i :: 0 <= i < |rows| ==> rows[i].version <= last
    ensures Newer(AllRead(rows), last) == [] == AllRead([])
  {
    hide AsRead, Newer;
    forall i | 0 <= i < |rows| ensures AllRead(rows)[i].version <= last { ReadVersion(rows[i]); }
    NoneNewer(AllRead(rows), last);
  }

  lemma ReadConcat(a: seq<LogRow>, b: seq<LogRow>)
    ensures AllRead(a + b) == AllRead(a) + AllRead(b)
  {
    hide AsRead;
  }

  lemma NewerOfLast(rows: seq<LogRow>, last: nat)
    requires rows != [] && rows[|rows| - 1].version > last
    ensures Newer(AllRead(rows), last) == Newer(AllRead(rows[..|rows| - 1]), last) + AllRead([rows[|rows| - 1]])
  {
    hide AsRead;
    var n := |rows| - 1;
    ReadVersion(rows[n]);
    assert AllRead(rows)[..n] == AllRead(rows[..n]);
    assert AllRead([rows[n]]) == [AsRead(rows[n])];
  }

  lemma ReadVersion(r: LogRow)
    ensures AsRead(r).version == r.version && AsRead(r).key == r.key && !AsRead(r).deleted
  {
  }

  lemma CutExists(rows: seq<LogRow>, last: nat) returns (p: nat)
    requires Increasing(rows)
    ensures CutsAt(rows, last, p)
  {
    p := |rows|;
    while p > 0 && rows[p - 1].version > last
      invariant p <= |rows| && forall i :: p <= i < |rows| ==> rows[i].version > last
    {
      p := p - 1;
    }
  }

  /** What a replay keeps are the last rows of the file, from at most the first unflushed one. */
  lemma NewerIsTail(s: State, last: nat, f: CheckpointFormat) returns (q: nat)
    requires LogInv(s, f) && IsLastCheckpoint(LogOf(s.file, f), last)
    ensures s.aside <= q <= |s.rows| && q <= Max(s.flushed, s.aside)
    ensures Newer(LogRead(s, f), last) == AllRead(s.rows[q..]) && CutsAt(s.rows[s.aside..], last, q - s.aside)
  {
    hide RowsOf, RecordOf, Newer, AsRead;
    var rows := s.rows[s.aside..];
    var p := CutExists(rows, last);
    q := s.aside + p;
    NewerFromCut(rows, last, p);
    assert rows[p..] == s.rows[q..];
    if p > 0 {
      assert rows[p - 1] == s.rows[q - 1] && rows[p - 1].version <= last;
      assert last > 0;
      var c :| 0 <= c < |s.file| && LogOf(s.file, f)[c] == Checkpoint(last);
    }
  }

  lemma {:induction false} MaxIsUpper(rows: seq<LogRow>)
    ensures NoneAbove(rows, MaxVersion(rows))
  {
    if rows != [] { MaxIsUpper(rows[..|rows| - 1]); }
  }

  lemma LogUnderRestart(s: State, last: nat, q: nat, t: State, f: CheckpointFormat)
    requires LogInv(s, f) && IsLastCheckpoint(LogOf(s.file, f), last) && FirstVersionAfter(LogOf(s.file, f), last) > last
    requires s.aside <= q <= |s.rows| && Newer(LogRead(s, f), last) == AllRead(s.rows[q..]) && CutsAt(s.rows[s.aside..], last, q - s.aside)
    requires t.file == s.file && t.rows == s.rows && t.aside == s.aside && t.flushed == s.flushed
    requires t.nextVersion == MaxVersion(Newer(LogRead(s, f), last)) + 1
    ensures LogInv(t, f)
  {
    hide RowsOf, RecordOf, Newer, AsRead, MaxVersion;
    MaxIsUpper(AllRead(s.rows[q..]));
    var rows := s.rows[s.aside..];
    forall i | 0 <= i < |rows| ensures rows[i].version <= t.nextVersion {
      ReadVersion(rows[i]);
      if i >= q - s.aside { assert rows[i] == s.rows[q..][i - (q - s.aside)]; }
    }
  }

  lemma InvRestart(all: bool, s: State, last: nat, t: State, meta: seq<ColumnMeta>, f: CheckpointFormat)
    requires Inv(all, s, meta, f) && Next(s, Restart(last), t, meta, f)
    requires s.aside <= s.flushed && SafeRestart(LogOf(s.file, f), last)
    ensures Inv(all, t, meta, f)
  {
    hide LogInv, Merged, StoredMap, Written, ToMap, Newer, MaxVersion, RowsOf, AllRead, Faces, FrozenHolds, CutsAt, SafeRestart;
    var q := NewerIsTail(s, last, f);
    NextWriteSurvivesIff(LogOf(s.file, f), last);
    LogUnderRestart(s, last, q, t, f);
    assert |AllRead(s.rows[q..])| == |s.rows| - q;
    ReadIsStoredAlike(s.rows[q..], meta);
    NoWindows(t.activeFrom, t.rows, meta);
    assert s.rows[q..|s.rows|] == s.rows[q..];
  }

  lemma NoWindows(from: nat, rows: seq<LogRow>, meta: seq<ColumnMeta>)
    requires from <= |rows|
    ensures FrozenHolds([], [], from, from, rows, meta)
  {
  }

  // ----- runs -----

  /** Segments and memtables in the form every step leaves them. */
  ghost predicate Layered(s: State, meta: seq<ColumnMeta>) {
    && (forall i :: 0 <= i < |s.segs| ==> Sorted(s.segs[i].rows) && CanonicalSegment(s.segs[i], meta))
    && (forall i :: 0 <= i < |s.frozen| ==> Sorted(s.frozen[i]) && BareMap(ToMap(s.frozen[i])))
    && Sorted(s.active) && BareMap(ToMap(s.active)) && BareRows(s.rows)
  }

  ghost predicate BareMap(m: map<Key, Row>) {
    forall k :: k in m && m[k].tombstone ==> m[k].columns == map[]
  }

  ghost predicate BareRows(rows: seq<LogRow>) {
    forall i :: 0 <= i < |rows| && rows[i].deleted ==> rows[i].columns == map[]
  }

  lemma {:induction false} BareWritten(rows: seq<LogRow>)
    requires BareRows(rows)
    ensures BareMap(Written(rows))
  {
    hide Written;
    if rows == [] {
      NothingWritten();
    } else {
      var n := |rows| - 1;
      BareWritten(rows[..n]);
      assert rows == rows[..n] + [rows[n]];
      WrittenConcat(rows[..n], [rows[n]]);
      OneWritten(rows[n]);
    }
  }

  ghost predicate NoTombstone(m: map<Key, Row>) {
    forall k :: k in m ==> !m[k].tombstone
  }

  lemma {:induction false} NotDeleted(rows: seq<LogRow>)
    requires forall i :: 0 <= i < |rows| ==> !rows[i].deleted
    ensures NoTombstone(Written(rows))
  {
    hide Written;
    if rows == [] {
      NothingWritten();
    } else {
      var n := |rows| - 1;
      NotDeleted(rows[..n]);
      assert rows == rows[..n] + [rows[n]];
      WrittenConcat(rows[..n], [rows[n]]);
      OneWritten(rows[n]);
    }
  }

  lemma {:induction false} ReadRowsAreLive(log: seq<LogRecord>)
    requires forall c :: 0 <= c < |log| && log[c].WriteRecord? ==> forall i :: 0 <= i < |log[c].rows| ==> !log[c].rows[i].deleted
    ensures forall i :: 0 <= i < |RowsOf(log)| ==> !RowsOf(log)[i].deleted
  {
    if log != [] { ReadRowsAreLive(log[..|log| - 1]); }
  }

  lemma {:induction false} NewerSubset(rows: seq<LogRow>, last: nat)
    requires forall i :: 0 <= i < |rows| ==> !rows[i].deleted
    ensures forall i :: 0 <= i < |Newer(rows, last)| ==> !Newer(rows, last)[i].deleted
  {
    if rows != [] { NewerSubset(rows[..|rows| - 1], last); }
  }

  /** A replayed memtable holds no tombstone. */
  lemma ReplayedIsLive(file: seq<Record>, last: nat, f: CheckpointFormat)
    ensures NoTombstone(Written(Newer(RowsOf(LogOf(file, f)), last)))
  {
    hide RowsOf, Newer, Written, WalCodec.Decode;
    ReadRowsAreLive(LogOf(file, f));
    NewerSubset(RowsOf(LogOf(file, f)), last);
    NotDeleted(Newer(RowsOf(LogOf(file, f)), last));
  }

  lemma MergedIsCanonical(s: State, merged: seq<Entry<Cells>>, meta: seq<ColumnMeta>)
    requires Layered(s, meta) && Sorted(merged) && ToMap(merged) == Merged(RowSources(s.segs))
    ensures CanonicalRows(merged, meta)
  {
    hide Sorted, ToMap, Merged, BareMap, CanonicalRows, BareRows;
    MergedRowsCanonical(s.segs, merged, meta);
  }

  lemma LayeredApply(s: State, t: State, meta: seq<ColumnMeta>)
    requires Layered(s, meta) && s.applied <= |s.rows| && Sorted(t.active) && t == s.(active := t.active, applied := t.applied)
    requires ToMap(t.active) == ToMap(s.active) + Written(s.rows[s.applied..])
    ensures Layered(t, meta)
  {
    hide Sorted, ToMap, Written, CanonicalSegment;
    BareWritten(s.rows[s.applied..]);
  }

  lemma LayeredSegment(s: State, rows: seq<Entry<Cells>>, seg: Segment, t: State, meta: seq<ColumnMeta>)
    requires Layered(s, meta) && CanonicalRows(rows, meta) && Sorted(rows) && seg.rows == Encoded(rows, meta)
    requires t.segs == s.segs + [seg] && t.active == s.active && t.rows == s.rows && (t.frozen == s.frozen || (s.frozen != [] && t.frozen == s.frozen[1..]))
    ensures Layered(t, meta)
  {
    hide Sorted, ToMap, Encoded, CanonicalRows, BareMap, BareRows;
    EncodedFacts(rows, meta);
  }

  lemma LayeredStep(s: State, step: Step, t: State, meta: seq<ColumnMeta>, f: CheckpointFormat)
    requires Layered(s, meta) && Next(s, step, t, meta, f)
    ensures Layered(t, meta)
  {
    hide Sorted, ToMap, Written, Newer, RowsOf, CanonicalSegment, Encoded, CanonicalRows, Merged, BareMap, FlushedRows, Shaped, Stamp,
      WellFormed, BareRows, StoredRows, IsLastCheckpoint, LogOf, Payload;
    match step {
      case Append(tp, batch, deleted) => BareAppend(s.rows, tp, batch, s.nextVersion + 1, deleted);
      case ApplyRows => LayeredApply(s, t, meta);
      case Rotate => NothingIsLayered(); assert s.cuts == s.cuts;
      case FlushOne(seg) => LayeredFlush(s, seg, t, meta);
      case CompactWrite(merged, seg) =>
        MergedIsCanonical(s, merged, meta);
        LayeredSegment(s, merged, seg, t, meta);
      case Restart(last) => LayeredRestart(s, last, t, meta, f);
      case _ =>
    }
  }

  lemma NothingIsLayered()
    ensures Sorted<Row>([]) && BareMap(ToMap([]))
  {
  }

  lemma BareAppend(rows: seq<LogRow>, tp: byte, batch: seq<WalCodec.WriteRow>, version: nat, deleted: bool)
    requires BareRows(rows) && WellFormed(tp, batch, deleted)
    ensures BareRows(rows + Stamp(batch, version, deleted))
  {
    hide WalCodec.DistinctColumns;
    if deleted {
      forall i | 0 <= i < |batch| ensures ToMap(batch[i].columns) == map[] { }
    }
  }

  lemma LayeredFlush(s: State, seg: Segment, t: State, meta: seq<ColumnMeta>)
    requires Layered(s, meta) && s.frozen != [] && seg.rows == FlushedRows(s.frozen[0], meta)
    requires t.segs == s.segs + [seg] && t.active == s.active && t.rows == s.rows && t.frozen == s.frozen[1..]
    ensures Layered(t, meta)
  {
    hide Sorted, ToMap, Encoded, CanonicalRows, BareMap, BareRows;
    StoredAreCanonical(s.frozen[0], meta);
    MappedSorted(s.frozen[0], (r: Row) => Store(r.columns, meta));
    LayeredSegment(s, StoredRows(s.frozen[0], meta), seg, t, meta);
  }

  lemma LayeredRestart(s: State, last: nat, t: State, meta: seq<ColumnMeta>, f: CheckpointFormat)
    requires Layered(s, meta) && Sorted(t.active) && ToMap(t.active) == Written(Newer(LogRead(s, f), last))
    requires t.frozen == [] && t.segs == s.segs && t.rows == s.rows
    ensures Layered(t, meta)
  {
    hide Sorted, ToMap, Written, Newer, RowsOf, CanonicalSegment, BareRows;
    ReplayedIsLive(s.file, last, f);
    LiveIsBare(ToMap(t.active));
  }

  lemma LiveIsBare(m: map<Key, Row>)
    requires NoTombstone(m)
    ensures BareMap(m)
  {
  }

  lemma InvPreserved(all: bool, s: State, step: Step, t: State, meta: seq<ColumnMeta>, f: CheckpointFormat)
    requires RoundTrips(f) && Inv(all, s, meta, f) && Layered(s, meta) && Next(s, step, t, meta, f) && Sound(all, s, step, meta, f)
    ensures Inv(all, t, meta, f) && Layered(t, meta)
  {
    hide RoundTrips, Inv, Layered, WalCodec.Survives, SafeRestart, LogOf, KeepsStep;
    LayeredStep(s, step, t, meta, f);
    match step {
      case Append(_, _, _) => InvAppend(all, s, step, t, meta, f);
      case Refuse(n) => InvRefuse(all, s, n, t, meta, f);
      case ApplyRows => InvApply(all, s, t, meta, f);
      case Rotate => InvRotate(all, s, t, meta, f);
      case RotateLog => InvRotateLog(all, s, t, meta, f);
      case BeginFlush => InvFlushFlag(all, s, step, t, meta, f);
      case FlushOne(seg) => InvFlushOne(all, s, seg, t, meta, f);
      case FailFlush => InvFlushFlag(all, s, step, t, meta, f);
      case WriteCheckpoint => InvMark(all, s, t, meta, f);
      case CompactWrite(merged, seg) =>
        MergedIsCanonical(s, merged, meta);
        InvCompact(all, s, step, t, meta, f);
      case CompactDelete(i) => InvCompact(all, s, step, t, meta, f);
      case Restart(last) => InvRestart(all, s, last, t, meta, f);
    }
  }

  lemma InvFlushFlag(all: bool, s: State, step: Step, t: State, meta: seq<ColumnMeta>, f: CheckpointFormat)
    requires Inv(all, s, meta, f) && Next(s, step, t, meta, f) && (step.BeginFlush? || step.FailFlush?)
    ensures Inv(all, t, meta, f)
  {
    hide Merged, Written, StoredMap, ToMap, FrozenHolds, Faces, LogInv;
    SameLog(s, t, f);
  }

  /** A run from an empty directory, with any number of crashes. */
  ghost predicate IsRunOf(states: seq<State>, steps: seq<Step>, meta: seq<ColumnMeta>, f: CheckpointFormat) {
    && |states| == |steps| + 1 && states[0] == Start
    && forall i :: 0 <= i < |steps| ==> Next(states[i], steps[i], states[i + 1], meta, f)
  }

  ghost predicate SoundUpTo(all: bool, states: seq<State>, steps: seq<Step>, i: nat, meta: seq<ColumnMeta>, f: CheckpointFormat)
    requires |states| == |steps| + 1
  {
    forall j :: 0 <= j < i && j < |steps| ==> Sound(all, states[j], steps[j], meta, f)
  }

  lemma StartIsLayered(meta: seq<ColumnMeta>)
    ensures Layered(Start, meta)
  {
  }

  lemma {:induction false} InvReached(all: bool, states: seq<State>, steps: seq<Step>, meta: seq<ColumnMeta>, f: CheckpointFormat, i: nat)
    requires RoundTrips(f) && IsRunOf(states, steps, meta, f) && i < |states| && SoundUpTo(all, states, steps, i, meta, f)
    ensures Inv(all, states[i], meta, f) && Layered(states[i], meta)
  {
    hide Inv, Next, Layered, Sound, RoundTrips;
    if i == 0 {
      StartIsGood(all, meta, f);
      StartIsLayered(meta);
    } else {
      InvReached(all, states, steps, meta, f, i - 1);
      assert Next(states[i - 1], steps[i - 1], states[i], meta, f) by { assert Next(states[i - 1], steps[i - 1], states[i - 1 + 1], meta, f); }
      InvPreserved(all, states[i - 1], steps[i - 1], states[i], meta, f);
    }
  }

  // ----- what is recovered -----

  /** The engine after a restart: the segments, newest id last, under the replayed log. */
  ghost function Recovered(log: seq<LogRecord>, segs: seq<Segment>, last: nat, meta: seq<ColumnMeta>): map<Key, Cells> {
    Merged(RowSources(segs)) + StoredMap(Written(Newer(RowsOf(log), last)), meta)
  }

  /** The rows a crash now leaves: those in segments and the unflushed ones of the current file. */
  function Left(s: State): seq<LogRow>
    requires s.flushed <= |s.rows| && s.aside <= |s.rows|
  {
    s.rows[..s.flushed] + s.rows[Max(s.flushed, s.aside)..]
  }

  lemma RecoveredByInv(all: bool, s: State, meta: seq<ColumnMeta>, f: CheckpointFormat, last: nat)
    requires Inv(all, s, meta, f) && IsLastCheckpoint(LogOf(s.file, f), last)
    ensures Faces(all, Recovered(LogOf(s.file, f), s.segs, last, meta), meta) == Faces(all, StoredMap(Written(Left(s)), meta), meta)
    ensures s.aside <= s.flushed ==> Left(s) == s.rows
  {
    hide LogInv, Merged, StoredMap, Written, ToMap, Newer, RowsOf, AllRead, Faces, FrozenHolds, CutsAt;
    var q := NewerIsTail(s, last, f);
    var rows, m := s.rows, s.flushed;
    ReadIsStoredAlike(rows[q..], meta);
    FacesUnion(all, Merged(RowSources(s.segs)), StoredMap(Written(rows[q..]), meta), meta);
    FacesUnion(all, StoredMap(Written(rows[..m]), meta), StoredMap(Written(rows[q..]), meta), meta);
    StoredUnion(Written(rows[..m]), Written(rows[q..]), meta);
    if q <= m {
      WindowOver(rows, q, m, |rows|);
      assert rows[q..|rows|] == rows[q..] && rows[..|rows|] == rows && rows[..m] + rows[m..] == rows;
      assert s.aside <= m;
    } else {
      assert q == s.aside;
      WrittenConcat(rows[..m], rows[q..]);
    }
    assert rows[..m] + rows[m..] == rows;
  }

  /** Whatever the point of the crash, replaying the log over the segments found on disk
      shows exactly what applying every logged row in order would show: although the
      checkpoint lags behind, and rows already in segments may be replayed. */
  lemma RecoveryIsExact(all: bool, states: seq<State>, steps: seq<Step>, meta: seq<ColumnMeta>, f: CheckpointFormat, i: nat, last: nat)
    requires RoundTrips(f) && IsRunOf(states, steps, meta, f) && i < |states| && SoundUpTo(all, states, steps, i, meta, f)
    requires IsLastCheckpoint(LogOf(states[i].file, f), last) && states[i].aside <= states[i].flushed
    ensures Faces(all, Recovered(LogOf(states[i].file, f), states[i].segs, last, meta), meta) ==
      Faces(all, StoredMap(Written(states[i].rows), meta), meta)
    ensures all ==> Recovered(LogOf(states[i].file, f), states[i].segs, last, meta) == StoredMap(Written(states[i].rows), meta)
  {
    hide IsLastCheckpoint, StoredMap, Written, Recovered, Faces, LogOf, Next, Sound, LogInv, FrozenHolds, Merged, ToMap;
    InvReached(all, states, steps, meta, f, i);
    RecoveredByInv(all, states[i], meta, f, last);
    AllFaces(Recovered(LogOf(states[i].file, f), states[i].segs, last, meta), meta);
    AllFaces(StoredMap(Written(states[i].rows), meta), meta);
  }

  /** The checkpoint never claims more of the current file than has been flushed, nor a version still to come. */
  lemma CheckpointIsFlushed(s: State, last: nat, f: CheckpointFormat)
    requires LogInv(s, f) && IsLastCheckpoint(LogOf(s.file, f), last)
    ensures last <= s.nextVersion
    ensures forall i :: s.aside <= i < |s.rows| && s.rows[i].version <= last ==> i < s.flushed
  {
    hide RowsOf, RecordOf, AllRead;
    if last > 0 {
      var c :| 0 <= c < |s.file| && LogOf(s.file, f)[c] == Checkpoint(last);
    } else {
      forall i | s.aside <= i < |s.rows| ensures s.rows[i].version > 0 { assert s.rows[s.aside..][i - s.aside] == s.rows[i]; }
    }
  }

  /** After a rotation a key is lost in a crash exactly when every row logged under it is unflushed and in
      a file that was set aside. */
  lemma RotatedKeyIsLostIff(all: bool, s: State, meta: seq<ColumnMeta>, f: CheckpointFormat, last: nat, k: Key)
    requires Inv(all, s, meta, f) && IsLastCheckpoint(LogOf(s.file, f), last)
    ensures k !in Recovered(LogOf(s.file, f), s.segs, last, meta) <==>
      forall i :: 0 <= i < |s.rows| && s.rows[i].key == k ==> s.flushed <= i < s.aside
  {
    hide IsLastCheckpoint, Merged, ToMap, LogOf, FrozenHolds, Recovered, Face, AllRead, Increasing, NoneAbove, GoodCheckpoints;
    RecoveredByInv(all, s, meta, f, last);
    var left, rec := Left(s), Recovered(LogOf(s.file, f), s.segs, last, meta);
    assert k in rec <==> k in Faces(all, rec, meta);
    assert k in Written(left) <==> k in Faces(all, StoredMap(Written(left), meta), meta);
    ToMapKeys(AsEntries(left), k);
    KeysLeft(s, k);
  }

  lemma KeysLeft(s: State, k: Key)
    requires s.flushed <= |s.rows| && s.aside <= |s.rows|
    ensures HasKey(AsEntries(Left(s)), k) <==> exists i :: 0 <= i < |s.rows| && s.rows[i].key == k && !(s.flushed <= i < s.aside)
  {
    var left, m := Left(s), Max(s.flushed, s.aside);
    if j :| 0 <= j < |left| && AsEntries(left)[j].key == k {
      var i := if j < s.flushed then j else j - s.flushed + m;
      assert s.rows[i] == left[j];
    }
    if i :| 0 <= i < |s.rows| && s.rows[i].key == k && !(s.flushed <= i < s.aside) {
      var j := if i < s.flushed then i else i - m + s.flushed;
      assert left[j] == s.rows[i] && AsEntries(left)[j].key == k;
    }
  }

  /** Flushing what a replay put into the memtable and replaying the same log again, the checkpoint
      not having moved, changes nothing. */
  lemma ReplayTwice(all: bool, log: seq<LogRecord>, segs: seq<Segment>, seg: Segment, last: nat, mem: seq<Entry<Row>>, meta: seq<ColumnMeta>)
    requires ToMap(mem) == Written(Newer(RowsOf(log), last)) && seg.rows == FlushedRows(mem, meta) && (all ==> FlushKeeps(mem, meta))
    ensures Faces(all, Recovered(log, segs + [seg], last, meta), meta) == Faces(all, Recovered(log, segs, last, meta), meta)
  {
    hide Merged, StoredMap, Written, ToMap, Newer, RowsOf, FlushedRows, FlushKeeps, Faces;
    var old', put := Merged(RowSources(segs)), StoredMap(Written(Newer(RowsOf(log), last)), meta);
    FlushedFaces(all, mem, meta);
    assert RowSources(segs + [seg]) == RowSources(segs) + [seg.rows];
    MergedSnoc(RowSources(segs), seg.rows);
    FacesUnion(all, old' + ToMap(seg.rows), put, meta);
    FacesUnion(all, old', ToMap(seg.rows), meta);
    FacesUnion(all, old', put, meta);
  }
}
