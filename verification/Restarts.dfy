/** Engines that crash and restart any number of times: when what they show stays exact, and how a write is lost. */
module Restarts {
  import opened Keys
  import opened SortedEntries
  import opened Values
  import opened Bytes
  import opened MemTables
  import opened Merges
  import opened LsmModel
  import opened WriteAheadLogs
  import opened LogRecords
  import opened Recovery
  import Crashes
  import WalCodec

  /** What the engine shows: the segments under everything in memory. */
  ghost function Shown(s: State, meta: seq<ColumnMeta>): map<Key, Cells> {
    Merged(RowSources(s.segs)) + StoredMap(Merged(s.frozen + [s.active]), meta)
  }

  /** When all logged rows are applied the engine shows what was logged. */
  lemma ShownIsLogged(all: bool, s: State, meta: seq<ColumnMeta>, f: CheckpointFormat)
    requires Inv(all, s, meta, f) && s.applied == |s.rows|
    ensures Faces(all, Shown(s, meta), meta) == Faces(all, StoredMap(Written(s.rows), meta), meta)
  {
    hide LogInv, FrozenHolds, Written, ToMap, StoredMap, Merged, Faces;
    var rows, a, m := s.rows, From(s), s.flushed;
    Crashes.MemoryHolds(all, s, meta, f);
    assert rows[..|rows|] == rows && rows[a..|rows|] == rows[a..];
    WindowOver(rows, a, m, |rows|);
    StoredUnion(Written(rows[..m]), Written(rows[a..]), meta);
    FacesUnion(all, Merged(RowSources(s.segs)), StoredMap(Written(rows[a..]), meta), meta);
    FacesUnion(all, StoredMap(Written(rows[..m]), meta), StoredMap(Written(rows[a..]), meta), meta);
  }

  /** Any number of crashes and restarts, between any writes, flushes, rotations and compactions: as long as
      every restart is safe the engine shows at every moment what applying all logged rows in order shows. */
  lemma RestartsAreExact(all: bool, states: seq<State>, steps: seq<Step>, meta: seq<ColumnMeta>, f: CheckpointFormat, i: nat)
    requires RoundTrips(f) && IsRunOf(states, steps, meta, f) && i < |states| && SoundUpTo(all, states, steps, i, meta, f)
    requires states[i].applied == |states[i].rows|
    ensures Faces(all, Shown(states[i], meta), meta) == Faces(all, StoredMap(Written(states[i].rows), meta), meta)
    ensures all ==> Shown(states[i], meta) == StoredMap(Written(states[i].rows), meta)
  {
    hide Inv, Layered, Next, Sound, Shown, Faces, StoredMap, Written, RoundTrips;
    InvReached(all, states, steps, meta, f, i);
    ShownIsLogged(all, states[i], meta, f);
    AllFaces(Shown(states[i], meta), meta);
    AllFaces(StoredMap(Written(states[i].rows), meta), meta);
  }

  // ----- when a restart is safe -----

  function EmptyRow(k: Key): seq<WalCodec.WriteRow> {
    [WalCodec.WriteRow(k, [])]
  }

  /** One row is written after the restart, and the engine crashes and restarts again. */
  ghost predicate WriteThenCrash(t: State, k: Key, last: nat, u: State, v: State, w: State, meta: seq<ColumnMeta>, f: CheckpointFormat) {
    && Next(t, Append(TYPE_WRITE, EmptyRow(k), false), u, meta, f)
    && Next(u, ApplyRows, v, meta, f)
    && Next(v, Restart(last), w, meta, f)
  }

  lemma EmptyRowSurvives(k: Key)
    requires |k| < TWO16
    ensures WalCodec.Survives(EmptyRow(k)) && |WalCodec.BatchBytes(EmptyRow(k), 2)| <= MAX_PAYLOAD
  {
    WalCodec.OneRow(EmptyRow(k)[0], 2);
  }

  lemma ReplayShows(s: State, last: nat, t: State, meta: seq<ColumnMeta>, f: CheckpointFormat)
    requires Next(s, Restart(last), t, meta, f)
    ensures Shown(t, meta) == Recovered(LogOf(s.file, f), s.segs, last, meta)
  {
    hide Merged, StoredMap, Written, Newer, RowsOf, LogOf, ToMap, MaxVersion, Sorted;
    assert [] + [t.active] == [t.active];
    SingleMerged(t.active);
  }

  /** After a safe restart, and with all rows in the current file or flushed, the next write is kept. */
  lemma SafeKeepsTheWrite(all: bool, s: State, last: nat, t: State, k: Key, u: State, v: State, w: State, meta: seq<ColumnMeta>, f: CheckpointFormat)
    requires RoundTrips(f) && Inv(all, s, meta, f) && Layered(s, meta) && Next(s, Restart(last), t, meta, f)
    requires s.aside <= s.flushed && SafeRestart(LogOf(s.file, f), last) && |k| < TWO16
    requires WriteThenCrash(t, k, last, u, v, w, meta, f)
    ensures Faces(all, Shown(w, meta), meta) == Faces(all, StoredMap(Written(w.rows), meta), meta)
  {
    hide Inv, Layered, Faces, StoredMap, Written, SafeRestart, LogOf, Shown, Recovered, RoundTrips, WalCodec.Survives;
    EmptyRowSurvives(k);
    InvPreserved(all, s, Restart(last), t, meta, f);
    InvPreserved(all, t, Append(TYPE_WRITE, EmptyRow(k), false), u, meta, f);
    InvPreserved(all, u, ApplyRows, v, meta, f);
    ReplayShows(v, last, w, meta, f);
    RecoveredByInv(all, v, meta, f, last);
    KeptTogether(t, k, last, u, v, w, meta, f);
  }

  lemma KeptTogether(t: State, k: Key, last: nat, u: State, v: State, w: State, meta: seq<ColumnMeta>, f: CheckpointFormat)
    requires WriteThenCrash(t, k, last, u, v, w, meta, f)
    ensures v.rows == w.rows && v.aside == t.aside && v.flushed == t.flushed && IsLastCheckpoint(LogOf(v.file, f), last)
  {
    hide LogOf, Written, Newer, ToMap, Sorted, IsLastCheckpoint, WellFormed, MaxVersion;
  }

  /** The states of a write that is lost: logged, applied, and forgotten by the next restart. */
  function Logged(t: State, k: Key): State {
    t.(file := t.file + [Record(TYPE_WRITE, WalCodec.BatchBytes(EmptyRow(k), 2))], rows := t.rows + [LogRow(k, 2, map[], false)], nextVersion := 2)
  }

  function Applied(t: State, k: Key): State {
    Logged(t, k).(active := Upsert(t.active, k, Row(2, map[], false)), applied := |t.rows| + 1)
  }

  function Forgotten(t: State, k: Key): State {
    Applied(t, k).(frozen := [], cuts := [], active := [], flushing := None, nextVersion := 1, activeFrom := |t.rows| + 1)
  }

  lemma WriteIsApplied(t: State, k: Key, meta: seq<ColumnMeta>, f: CheckpointFormat)
    requires k != [] && |k| < TWO16 && Sorted(t.active)
    requires t.applied == |t.rows| && t.flushing.None? && t.nextVersion == 1
    ensures Next(t, Append(TYPE_WRITE, EmptyRow(k), false), Logged(t, k), meta, f)
    ensures Next(Logged(t, k), ApplyRows, Applied(t, k), meta, f)
  {
    hide Sorted, ToMap, Written, Upsert, WalCodec.BatchBytes, WalCodec.Survives;
    EmptyRowSurvives(k);
    NoColumns();
    assert Stamp(EmptyRow(k), 2, false) == [LogRow(k, 2, map[], false)];
    UpsertSorted(t.active, k, Row(2, map[], false));
    OneWritten(LogRow(k, 2, map[], false));
    assert Logged(t, k).rows[t.applied..] == [LogRow(k, 2, map[], false)];
  }

  lemma NoColumns()
    ensures ToMap<Value>([]) == map[]
  {
  }

  lemma EmptyRowReads(k: Key, f: CheckpointFormat)
    requires k != [] && |k| < TWO16
    ensures RecordOf(Record(TYPE_WRITE, WalCodec.BatchBytes(EmptyRow(k), 2)), f) == WriteRecord([LogRow(k, 2, map[], false)])
  {
    hide WalCodec.BatchBytes, WalCodec.Decode, WalCodec.Survives;
    EmptyRowSurvives(k);
    NoColumns();
    RecordReadsIff(TYPE_WRITE, EmptyRow(k), 2, false, f);
    var row := LogRow(k, 2, map[], false);
    assert Stamp(EmptyRow(k), 2, false) == [row];
    assert AsRead(row) == row;
    assert AllRead([row]) == [row];
  }

  /** An appended write leaves the last checkpoint the last. */
  lemma SameCheckpoint(log: seq<LogRecord>, rec: LogRecord, last: nat)
    requires IsLastCheckpoint(log, last) && rec.WriteRecord?
    ensures IsLastCheckpoint(log + [rec], last)
  {
    if last > 0 {
      var c :| 0 <= c < |log| && log[c] == Checkpoint(last);
      assert (log + [rec])[c] == Checkpoint(last);
    }
  }

  lemma WriteIsForgotten(t: State, k: Key, last: nat, meta: seq<ColumnMeta>, f: CheckpointFormat)
    requires k != [] && |k| < TWO16 && last >= 2
    requires IsLastCheckpoint(LogOf(t.file, f), last) && Newer(LogRead(t, f), last) == []
    ensures Next(Applied(t, k), Restart(last), Forgotten(t, k), meta, f)
  {
    hide Written, Newer, RowsOf, IsLastCheckpoint, Upsert, RecordOf, WalCodec.BatchBytes, MaxVersion;
    var row, rec := LogRow(k, 2, map[], false), Record(TYPE_WRITE, WalCodec.BatchBytes(EmptyRow(k), 2));
    EmptyRowReads(k, f);
    LogAfter(t.file, rec, f);
    SameCheckpoint(LogOf(t.file, f), RecordOf(rec, f), last);
    NewerConcat(LogRead(t, f), [row], last);
    OneNewer(row, last);
    var none: seq<LogRow> := [];
    assert none + none == none;
    NothingWritten();
  }

  /** After an unsafe restart a write of a new key is lost by the next one. */
  lemma UnsafeLosesTheWrite(all: bool, s: State, last: nat, t: State, k: Key, meta: seq<ColumnMeta>, f: CheckpointFormat)
    requires Inv(all, s, meta, f) && Next(s, Restart(last), t, meta, f) && !SafeRestart(LogOf(s.file, f), last)
    requires k != [] && |k| < TWO16 && forall i :: 0 <= i < |s.rows| ==> s.rows[i].key != k
    ensures WriteThenCrash(t, k, last, Logged(t, k), Applied(t, k), Forgotten(t, k), meta, f)
    ensures var w := Forgotten(t, k); k in StoredMap(Written(w.rows), meta) && k !in Shown(w, meta)
  {
    hide LogInv, FrozenHolds, Merged, Written, Newer, RowsOf, IsLastCheckpoint, Upsert, WalCodec.BatchBytes, MaxVersion, ToMap,
      Sorted, LogOf, StoredMap, Face;
    MaxOfNewer(LogRead(s, f), last);
    NothingWritten();
    assert Newer(LogRead(s, f), last) == [];
    WriteIsApplied(t, k, meta, f);
    WriteIsForgotten(t, k, last, meta, f);
    LostKey(all, s, t, k, meta, f);
  }

  lemma LostKey(all: bool, s: State, t: State, k: Key, meta: seq<ColumnMeta>, f: CheckpointFormat)
    requires Inv(all, s, meta, f) && t.rows == s.rows && t.segs == s.segs
    requires forall i :: 0 <= i < |s.rows| ==> s.rows[i].key != k
    ensures var w := Forgotten(t, k); k in StoredMap(Written(w.rows), meta) && k !in Shown(w, meta)
  {
    hide LogInv, FrozenHolds, Merged, ToMap, Sorted, Store, Face;
    var w, flushed := Forgotten(t, k), s.rows[..s.flushed];
    ToMapKeys(AsEntries(w.rows), k);
    assert AsEntries(w.rows)[|s.rows|].key == k;
    ToMapKeys(AsEntries(flushed), k);
    assert k !in Faces(all, StoredMap(Written(flushed), meta), meta);
    assert k in Merged(RowSources(s.segs)) ==> k in Faces(all, Merged(RowSources(s.segs)), meta);
    assert w.frozen + [w.active] == [[]];
    SingleMerged<Row>([]);
    NothingWritten();
  }

  /** The exact condition on a restart, given that every unflushed row is in the current file: a new key
      written after it and before the next crash is shown, with everything else as logged, if and only if
      the restart was safe. */
  lemma RestartSafeIff(all: bool, s: State, last: nat, t: State, k: Key, meta: seq<ColumnMeta>, f: CheckpointFormat)
    requires RoundTrips(f) && Inv(all, s, meta, f) && Layered(s, meta) && Next(s, Restart(last), t, meta, f) && s.aside <= s.flushed
    requires k != [] && |k| < TWO16 && forall i :: 0 <= i < |s.rows| ==> s.rows[i].key != k
    ensures SafeRestart(LogOf(s.file, f), last) <==>
      forall u: State, v: State, w: State :: WriteThenCrash(t, k, last, u, v, w, meta, f) ==>
        Faces(all, Shown(w, meta), meta) == Faces(all, StoredMap(Written(w.rows), meta), meta)
  {
    hide Inv, Layered, Next, SafeRestart, LogOf, StoredMap, Written, Shown, RoundTrips, WriteThenCrash, Forgotten, Applied, Logged, Face;
    if SafeRestart(LogOf(s.file, f), last) {
      forall u: State, v: State, w: State | WriteThenCrash(t, k, last, u, v, w, meta, f)
        ensures Faces(all, Shown(w, meta), meta) == Faces(all, StoredMap(Written(w.rows), meta), meta)
      {
        SafeKeepsTheWrite(all, s, last, t, k, u, v, w, meta, f);
      }
    } else {
      UnsafeLosesTheWrite(all, s, last, t, k, meta, f);
      var w := Forgotten(t, k);
      assert k in Faces(all, StoredMap(Written(w.rows), meta), meta) && k !in Faces(all, Shown(w, meta), meta);
    }
  }

  // ----- an unsafe restart -----

  /** Consecutive steps from one state on. */
  ghost predicate IsPath(states: seq<State>, steps: seq<Step>, meta: seq<ColumnMeta>, f: CheckpointFormat) {
    && |states| == |steps| + 1
    && forall i :: 0 <= i < |steps| ==> Next(states[i], steps[i], states[i + 1], meta, f)
  }

  lemma PathsJoin(a: seq<State>, x: seq<Step>, b: seq<State>, y: seq<Step>, meta: seq<ColumnMeta>, f: CheckpointFormat)
    requires IsPath(a, x, meta, f) && IsPath(b, y, meta, f) && a[|x|] == b[0]
    ensures IsPath(a + b[1..], x + y, meta, f)
  {
    hide Next;
    var states, steps := a + b[1..], x + y;
    forall i | 0 <= i < |steps| ensures Next(states[i], steps[i], states[i + 1], meta, f) {
      if i >= |x| {
        assert Next(b[i - |x|], y[i - |x|], b[i - |x| + 1], meta, f);
        assert states[i] == b[i - |x|] && states[i + 1] == b[i - |x| + 1];
      } else {
        assert Next(a[i], x[i], a[i + 1], meta, f);
      }
    }
  }

  lemma PathInv(states: seq<State>, steps: seq<Step>, meta: seq<ColumnMeta>, f: CheckpointFormat, i: nat)
    requires RoundTrips(f) && IsPath(states, steps, meta, f) && i < |states|
    requires Inv(false, states[0], meta, f) && Layered(states[0], meta)
    requires forall j :: 0 <= j < |steps| ==> Sound(false, states[j], steps[j], meta, f)
    ensures Inv(false, states[i], meta, f) && Layered(states[i], meta)
  {
    hide Inv, Layered, Next, Sound, RoundTrips;
    if i > 0 {
      PathInv(states, steps, meta, f, i - 1);
      assert Next(states[i - 1], steps[i - 1], states[i - 1 + 1], meta, f);
      InvPreserved(false, states[i - 1], steps[i - 1], states[i], meta, f);
    }
  }

  /** A complete flush of the active memtable and its checkpoint. */
  function FlushSteps(s: State, meta: seq<ColumnMeta>): seq<Step> {
    [Step.Rotate, BeginFlush, FlushOne(SegmentOf(s, meta)), WriteCheckpoint]
  }

  function SegmentOf(s: State, meta: seq<ColumnMeta>): Segment {
    Segment(s.lastSegId + 1, [], [], FlushedRows(s.active, meta))
  }

  function FlushStates(s: State, v: nat, meta: seq<ColumnMeta>, f: CheckpointFormat): seq<State> {
    var a := s.(frozen := [s.active], cuts := [s.activeFrom], active := [], activeFrom := s.applied);
    var b := a.(flushing := Some(v));
    var c := b.(segs := s.segs + [SegmentOf(s, meta)], lastSegId := s.lastSegId + 1, frozen := [], cuts := [], flushed := s.applied);
    [s, a, b, c, c.(file := s.file + [Record(TYPE_CHECKPOINT, f.write(v))], flushing := None)]
  }

  lemma FlushPath(s: State, v: nat, meta: seq<ColumnMeta>, f: CheckpointFormat)
    requires s.frozen == [] && s.cuts == [] && s.flushing.None? && s.applied == |s.rows| && s.nextVersion == v + 1 && |f.write(v)| <= MAX_PAYLOAD
    ensures IsPath(FlushStates(s, v, meta, f), FlushSteps(s, meta), meta, f)
    ensures forall i :: 0 <= i < 4 ==> Sound(false, FlushStates(s, v, meta, f)[i], FlushSteps(s, meta)[i], meta, f)
  {
    hide FlushedRows, LogOf, SafeRestart;
    var states := FlushStates(s, v, meta, f);
    assert [s.active][1..] == [] && [s.activeFrom][1..] == [];
    assert [] + [s.active] == [s.active] && [] + [s.activeFrom] == [s.activeFrom];
  }

  function PairBatch(k: Key): seq<WalCodec.WriteRow> {
    [WalCodec.WriteRow(k, []), WalCodec.WriteRow(k, [])]
  }

  function PairRows(k: Key): seq<LogRow> {
    [LogRow(k, 1, map[], false), LogRow(k, 2, map[], false)]
  }

  function OneRow(k: Key): seq<Entry<Row>> {
    [Entry(k, Row(2, map[], false))]
  }

  function PairStates(k: Key): seq<State> {
    var a := Start.(file := [Record(TYPE_BATCH_WRITE, WalCodec.BatchBytes(PairBatch(k), 1))], rows := PairRows(k), nextVersion := 2);
    [Start, a, a.(active := OneRow(k), applied := 2)]
  }

  lemma PairSurvives(k: Key)
    requires |k| < TWO16
    ensures WalCodec.Survives(PairBatch(k)) && |WalCodec.BatchBytes(PairBatch(k), 1)| <= MAX_PAYLOAD
  {
    var batch := PairBatch(k);
    WalCodec.OneRow(batch[1], 2);
    assert batch[1..] == [batch[1]];
    assert WalCodec.RowsBytes(batch, 1) == WalCodec.RowBytes(batch[0], 1) + WalCodec.RowsBytes(batch[1..], 2);
  }

  lemma PairWritten(k: Key)
    ensures Written(PairRows(k)) == ToMap(OneRow(k)) && Written([PairRows(k)[1]]) == ToMap(OneRow(k)) && Sorted(OneRow(k))
  {
    hide Written, ToMap;
    var a, b := PairRows(k)[0], PairRows(k)[1];
    assert PairRows(k) == [a] + [b];
    WrittenConcat([a], [b]);
    OneWritten(a);
    OneWritten(b);
    ToMapSnoc([], OneRow(k)[0]);
    assert [] + [OneRow(k)[0]] == OneRow(k);
    NoRows();
  }

  lemma NoRows()
    ensures ToMap<Row>([]) == map[]
  {
  }

  lemma PairPath(k: Key, meta: seq<ColumnMeta>, f: CheckpointFormat)
    requires k != [] && |k| < TWO16
    ensures IsPath(PairStates(k), [Append(TYPE_BATCH_WRITE, PairBatch(k), false), ApplyRows], meta, f)
    ensures WalCodec.Survives(PairBatch(k))
  {
    hide Written, ToMap, WalCodec.BatchBytes, Sorted, WalCodec.Survives;
    PairSurvives(k);
    PairWritten(k);
    NoColumns();
    NoRows();
    assert Stamp(PairBatch(k), 1, false) == PairRows(k);
    assert PairStates(k)[1].rows[0..] == PairRows(k);
  }

  /** What a replay of the two rows keeps, by the checkpoint. */
  lemma PairReplay(s: State, k: Key, last: nat, f: CheckpointFormat)
    requires LogInv(s, f) && s.aside == 0 && s.rows == PairRows(k) && IsLastCheckpoint(LogOf(s.file, f), last) && 1 <= last <= 2
    ensures Newer(LogRead(s, f), last) == PairRows(k)[last..] && MaxVersion([PairRows(k)[1]]) == 2
    ensures SafeRestart(LogOf(s.file, f), last) <==> last == 1
  {
    hide LogOf, RowsOf, Newer, AsRead, IsLastCheckpoint, MaxVersion, LogInv;
    var rows := PairRows(k);
    var q := NewerIsTail(s, last, f);
    assert s.rows[0..] == rows;
    assert rows[0].version == 1 && rows[1].version == 2;
    assert q == last;
    PairReads(k);
    assert AllRead(rows[last..]) == rows[last..];
    OneWritten(rows[1]);
    MaxOfNewer(LogRead(s, f), last);
    if last == 2 { assert Newer(LogRead(s, f), last) == []; }
  }

  lemma PairReads(k: Key)
    ensures AsRead(PairRows(k)[0]) == PairRows(k)[0] && AsRead(PairRows(k)[1]) == PairRows(k)[1]
  {
  }

  /** A checkpoint just written, not below any other, is the last. */
  lemma NewCheckpoint(file: seq<Record>, v: nat, last: nat, f: CheckpointFormat)
    requires RoundTrips(f) && IsLastCheckpoint(LogOf(file, f), last) && last <= v
    ensures IsLastCheckpoint(LogOf(file + [Record(TYPE_CHECKPOINT, f.write(v))], f), v)
  {
    var rec := Record(TYPE_CHECKPOINT, f.write(v));
    LogAfter(file, rec, f);
    CheckpointReads(v, f);
    var log := LogOf(file, f) + [Checkpoint(v)];
    hide RecordOf, RowsOf, RoundTrips, LogOf;
    assert log[|log| - 1] == Checkpoint(v);
  }

  /** The state after the first restart: the second row is in memory again. */
  function Reborn(s: State, k: Key): State {
    s.(frozen := [], cuts := [], active := OneRow(k), flushing := None, nextVersion := 3, activeFrom := 1, applied := 2)
  }

  /** The state after the second: nothing is replayed, and versions begin anew. */
  function Emptied(s: State): State {
    s.(frozen := [], cuts := [], active := [], flushing := None, nextVersion := 1, activeFrom := 2, applied := 2)
  }

  lemma PairIsRead(k: Key, meta: seq<ColumnMeta>, f: CheckpointFormat)
    requires RoundTrips(f) && k != [] && |k| < TWO16
    ensures Inv(false, PairStates(k)[2], meta, f) && Layered(PairStates(k)[2], meta)
    ensures IsLastCheckpoint(LogOf(PairStates(k)[2].file, f), 0)
  {
    PairPath(k, meta, f);
    StartIsGood(false, meta, f);
    StartIsLayered(meta);
    AppendedIsWrite(TYPE_BATCH_WRITE, PairBatch(k), false, WalCodec.BatchBytes(PairBatch(k), 1), f);
    hide Inv, Layered, Next, RoundTrips, WalCodec.Survives, WalCodec.BatchBytes, SafeRestart, WellFormed, RecordOf;
    PathInv(PairStates(k), [Append(TYPE_BATCH_WRITE, PairBatch(k), false), ApplyRows], meta, f, 2);
  }

  lemma RestartOnce(s: State, k: Key, meta: seq<ColumnMeta>, f: CheckpointFormat)
    requires LogInv(s, f) && s.aside == 0 && s.rows == PairRows(k) && IsLastCheckpoint(LogOf(s.file, f), 1)
    ensures Next(s, Restart(1), Reborn(s, k), meta, f) && SafeRestart(LogOf(s.file, f), 1)
  {
    hide LogOf, RowsOf, Newer, IsLastCheckpoint, MaxVersion, LogInv, Written, ToMap, Sorted;
    PairReplay(s, k, 1, f);
    PairWritten(k);
    assert PairRows(k)[1..] == [PairRows(k)[1]];
  }

  lemma RestartTwice(s: State, k: Key, meta: seq<ColumnMeta>, f: CheckpointFormat)
    requires LogInv(s, f) && s.aside == 0 && s.rows == PairRows(k) && IsLastCheckpoint(LogOf(s.file, f), 2)
    ensures Next(s, Restart(2), Emptied(s), meta, f) && !SafeRestart(LogOf(s.file, f), 2)
  {
    hide LogOf, RowsOf, Newer, IsLastCheckpoint, MaxVersion, LogInv, Written, ToMap;
    PairReplay(s, k, 2, f);
    NothingWritten();
    assert PairRows(k)[2..] == [];
  }

  lemma FlushReached(s: State, v: nat, last: nat, meta: seq<ColumnMeta>, f: CheckpointFormat)
    requires RoundTrips(f) && Inv(false, s, meta, f) && Layered(s, meta) && IsLastCheckpoint(LogOf(s.file, f), last) && last <= v
    requires s.frozen == [] && s.cuts == [] && s.flushing.None? && s.applied == |s.rows| && s.nextVersion == v + 1 && |f.write(v)| <= MAX_PAYLOAD
    ensures IsPath(FlushStates(s, v, meta, f), FlushSteps(s, meta), meta, f)
    ensures var t := FlushStates(s, v, meta, f)[4]; Inv(false, t, meta, f) && Layered(t, meta) && IsLastCheckpoint(LogOf(t.file, f), v)
  {
    FlushPath(s, v, meta, f);
    NewCheckpoint(s.file, v, last, f);
    hide Inv, Layered, Next, RoundTrips, Sound, LogOf, IsLastCheckpoint;
    PathInv(FlushStates(s, v, meta, f), FlushSteps(s, meta), meta, f, 4);
  }

  /** The states of the run: two writes, a flush, a restart, a flush, a restart. */
  function Before(k: Key, meta: seq<ColumnMeta>, f: CheckpointFormat): State {
    FlushStates(PairStates(k)[2], 1, meta, f)[4]
  }

  function Again(k: Key, meta: seq<ColumnMeta>, f: CheckpointFormat): State {
    FlushStates(Reborn(Before(k, meta, f), k), 2, meta, f)[4]
  }

  lemma BeforeIsReached(k: Key, meta: seq<ColumnMeta>, f: CheckpointFormat)
    requires RoundTrips(f) && |f.write(1)| <= MAX_PAYLOAD && k != [] && |k| < TWO16
    ensures IsPath(FlushStates(PairStates(k)[2], 1, meta, f), FlushSteps(PairStates(k)[2], meta), meta, f)
    ensures var s := Before(k, meta, f);
      && Next(s, Restart(1), Reborn(s, k), meta, f) && IsLastCheckpoint(LogOf(s.file, f), 1)
      && Inv(false, Reborn(s, k), meta, f) && Layered(Reborn(s, k), meta)
  {
    hide LogOf, IsLastCheckpoint, Layered, RoundTrips, LogInv, FrozenHolds, Faces, StoredMap, Written, Merged, ToMap, SafeRestart,
      WalCodec.BatchBytes;
    var s := Before(k, meta, f);
    PairIsRead(k, meta, f);
    FlushReached(PairStates(k)[2], 1, 0, meta, f);
    RestartOnce(s, k, meta, f);
    InvPreserved(false, s, Restart(1), Reborn(s, k), meta, f);
  }

  lemma AgainIsReached(k: Key, meta: seq<ColumnMeta>, f: CheckpointFormat)
    requires RoundTrips(f) && |f.write(1)| <= MAX_PAYLOAD && |f.write(2)| <= MAX_PAYLOAD && k != [] && |k| < TWO16
    ensures var s := Reborn(Before(k, meta, f), k); IsPath(FlushStates(s, 2, meta, f), FlushSteps(s, meta), meta, f)
    ensures var s := Again(k, meta, f);
      && Next(s, Restart(2), Emptied(s), meta, f) && !SafeRestart(LogOf(s.file, f), 2) && Inv(false, s, meta, f) && s.rows == PairRows(k)
  {
    hide LogOf, IsLastCheckpoint, Layered, RoundTrips, LogInv, FrozenHolds, Faces, StoredMap, Written, Merged, ToMap, SafeRestart,
      WalCodec.BatchBytes;
    BeforeIsReached(k, meta, f);
    FlushReached(Reborn(Before(k, meta, f), k), 2, 1, meta, f);
    RestartTwice(Again(k, meta, f), k, meta, f);
  }

  lemma OneStep(s: State, step: Step, t: State, meta: seq<ColumnMeta>, f: CheckpointFormat)
    requires Next(s, step, t, meta, f)
    ensures IsPath([s, t], [step], meta, f)
  {
    hide Next;
  }

  lemma ThreeSteps(t: State, k: Key, last: nat, u: State, v: State, w: State, meta: seq<ColumnMeta>, f: CheckpointFormat)
    requires WriteThenCrash(t, k, last, u, v, w, meta, f)
    ensures IsPath([t, u, v, w], [Append(TYPE_WRITE, EmptyRow(k), false), ApplyRows, Restart(last)], meta, f)
  {
    hide Next;
  }

  /** Recover, flush, recover again: the second restart replays nothing, versions begin anew below the
      checkpoint, and a write logged after it is skipped by the next restart. */
  lemma SecondRecoveryCanLoseAWrite(k: Key, j: Key, meta: seq<ColumnMeta>, f: CheckpointFormat) returns (states: seq<State>, steps: seq<Step>)
    requires RoundTrips(f) && |f.write(1)| <= MAX_PAYLOAD && |f.write(2)| <= MAX_PAYLOAD
    requires k != [] && j != [] && j != k && |k| < TWO16 && |j| < TWO16
    ensures IsRunOf(states, steps, meta, f)
    ensures exists x, y :: steps == [Append(TYPE_BATCH_WRITE, PairBatch(k), false), ApplyRows,
      Step.Rotate, BeginFlush, FlushOne(x), WriteCheckpoint, Restart(1),
      Step.Rotate, BeginFlush, FlushOne(y), WriteCheckpoint, Restart(2),
      Append(TYPE_WRITE, EmptyRow(j), false), ApplyRows, Restart(2)]
    ensures var w := states[|steps|]; j in StoredMap(Written(w.rows), meta) && j !in Shown(w, meta)
  {
    hide Next, RoundTrips, Inv, SafeRestart, LogOf, StoredMap, Written, Shown, IsLastCheckpoint, FlushStates, Forgotten, Applied,
      Logged, Emptied, Reborn, Layered, IsPath, IsRunOf, PairBatch, EmptyRow, SegmentOf;
    var s2, s6, s11 := PairStates(k)[2], Before(k, meta, f), Again(k, meta, f);
    var s7, s12 := Reborn(s6, k), Emptied(s11);
    PairPath(k, meta, f);
    BeforeIsReached(k, meta, f);
    AgainIsReached(k, meta, f);
    UnsafeLosesTheWrite(false, s11, 2, s12, j, meta, f);
    OneStep(s6, Restart(1), s7, meta, f);
    OneStep(s11, Restart(2), s12, meta, f);
    ThreeSteps(s12, j, 2, Logged(s12, j), Applied(s12, j), Forgotten(s12, j), meta, f);
    FlushEnds(s2, 1, meta, f);
    FlushEnds(s7, 2, meta, f);
    var states1, steps1 := FirstHalf(k, meta, f);
    var states2, steps2 := Joined(FlushStates(s7, 2, meta, f), FlushSteps(s7, meta), [s11, s12], [Restart(2)], meta, f);
    states2, steps2 := Joined(states2, steps2, [s12, Logged(s12, j), Applied(s12, j), Forgotten(s12, j)],
      [Append(TYPE_WRITE, EmptyRow(j), false), ApplyRows, Restart(2)], meta, f);
    states, steps := Joined(states1, steps1, states2, steps2, meta, f);
    PathIsRun(states, steps, meta, f);
    assert steps == [Append(TYPE_BATCH_WRITE, PairBatch(k), false), ApplyRows,
      Step.Rotate, BeginFlush, FlushOne(SegmentOf(s2, meta)), WriteCheckpoint, Restart(1),
      Step.Rotate, BeginFlush, FlushOne(SegmentOf(s7, meta)), WriteCheckpoint, Restart(2),
      Append(TYPE_WRITE, EmptyRow(j), false), ApplyRows, Restart(2)];
  }

  lemma PathIsRun(states: seq<State>, steps: seq<Step>, meta: seq<ColumnMeta>, f: CheckpointFormat)
    requires IsPath(states, steps, meta, f) && states[0] == Start
    ensures IsRunOf(states, steps, meta, f)
  {
    hide Next;
  }

  lemma FirstHalf(k: Key, meta: seq<ColumnMeta>, f: CheckpointFormat) returns (states: seq<State>, steps: seq<Step>)
    requires RoundTrips(f) && |f.write(1)| <= MAX_PAYLOAD && k != [] && |k| < TWO16
    ensures IsPath(states, steps, meta, f) && states[0] == Start && states[|steps|] == Reborn(Before(k, meta, f), k)
    ensures steps == [Append(TYPE_BATCH_WRITE, PairBatch(k), false), ApplyRows,
      Step.Rotate, BeginFlush, FlushOne(SegmentOf(PairStates(k)[2], meta)), WriteCheckpoint, Restart(1)]
  {
    hide Next, RoundTrips, Inv, LogOf, IsLastCheckpoint, FlushStates, Reborn, Layered, PairBatch, SegmentOf;
    var s2, s6 := PairStates(k)[2], Before(k, meta, f);
    PairPath(k, meta, f);
    BeforeIsReached(k, meta, f);
    OneStep(s6, Restart(1), Reborn(s6, k), meta, f);
    FlushEnds(s2, 1, meta, f);
    states, steps := Joined(PairStates(k), [Append(TYPE_BATCH_WRITE, PairBatch(k), false), ApplyRows], FlushStates(s2, 1, meta, f), FlushSteps(s2, meta), meta, f);
    states, steps := Joined(states, steps, [s6, Reborn(s6, k)], [Restart(1)], meta, f);
  }

  lemma FlushEnds(s: State, v: nat, meta: seq<ColumnMeta>, f: CheckpointFormat)
    ensures |FlushStates(s, v, meta, f)| == 5 && FlushStates(s, v, meta, f)[0] == s
  {
  }

  lemma Joined(a: seq<State>, x: seq<Step>, b: seq<State>, y: seq<Step>, meta: seq<ColumnMeta>, f: CheckpointFormat) returns (c: seq<State>, z: seq<Step>)
    requires IsPath(a, x, meta, f) && IsPath(b, y, meta, f) && a[|x|] == b[0]
    ensures IsPath(c, z, meta, f) && z == x + y && c[0] == a[0] && c[|z|] == b[|y|]
  {
    hide Next;
    PathsJoin(a, x, b, y, meta, f);
    c, z := a + b[1..], x + y;
  }
}
