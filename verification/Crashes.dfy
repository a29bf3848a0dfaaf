/** Crashes as readers see them: what a restart shows, from the bytes of the log on, and what it has lost. */
module Crashes {
  import opened Keys
  import opened SortedEntries
  import opened Values
  import opened Bytes
  import opened MemTables
  import opened Merges
  import opened LsmModel
  import opened WriteAheadLogs
  import opened LogRecords
  import opened Recovery
  import WalCodec

  /** The restarted engine, holding the replayed memtable over the segments, has just
      these contents. */
  lemma RecoveredIsTheView(file: seq<Record>, segs: seq<Segment>, last: nat, mem: seq<Entry<Row>>, meta: seq<ColumnMeta>, f: CheckpointFormat)
    requires DistinctNames(meta) && forall i :: 0 <= i < |segs| ==> CanonicalSegment(segs[i], meta)
    requires ToMap(mem) == Written(Newer(RowsOf(LogOf(file, f)), last))
    ensures View(AllSources(segs, [], mem, meta), meta) == MapValues(Recovered(LogOf(file, f), segs, last, meta), (c: Cells) => Live(c))
  {
    hide Merged, ToMap, Written, Newer, RowsOf, SegmentSources, View, Store, LogOf, CanonicalSegment;
    var a, rows := SegmentSources(segs, meta), Newer(RowsOf(LogOf(file, f)), last);
    assert AllSources(segs, [], mem, meta) == a + [mem];
    ViewConcat(a, [mem], meta);
    ViewOfSegments(segs, meta);
    ReplayedIsLive(file, last, f);
    SingleMerged(mem);
    ViewOfLiveRows(mem, meta);
    MapValuesUnion(Merged(RowSources(segs)), StoredMap(Written(rows), meta), (c: Cells) => Live(c));
  }

  lemma ViewOfLiveRows(mem: seq<Entry<Row>>, meta: seq<ColumnMeta>)
    requires NoTombstone(ToMap(mem))
    ensures View([mem], meta) == MapValues(StoredMap(ToMap(mem), meta), (c: Cells) => Live(c))
  {
    hide Merged, ToMap, Store;
    SingleMerged(mem);
  }

  lemma MiddleOut<V>(a: map<Key, V>, x: map<Key, V>, b: map<Key, V>, top: map<Key, V>)
    ensures a + b + top == a + x + b + top <==>
      forall k :: k in x && k !in b && k !in top ==> k in a && a[k] == x[k]
  {
    var without, with := a + b + top, a + x + b + top;
    if without == with {
      forall k | k in x && k !in b && k !in top ensures k in a && a[k] == x[k] {
        assert k in with && with[k] == x[k];
        assert k in without;
      }
    }
  }

  /** A segment file that cannot be loaded is missed exactly when it decides some key, neither a later segment
      nor the replayed rows holding it, with a row that older segments do not have. */
  lemma LostSegmentIff(log: seq<LogRecord>, segs: seq<Segment>, i: nat, last: nat, meta: seq<ColumnMeta>)
    requires i < |segs|
    ensures var older, x, later := Merged(RowSources(segs[..i])), ToMap(segs[i].rows), Merged(RowSources(segs[i + 1..]));
      var put := StoredMap(Written(Newer(RowsOf(log), last)), meta);
      Recovered(log, segs[..i] + segs[i + 1..], last, meta) == Recovered(log, segs, last, meta) <==>
        forall k :: k in x && k !in later && k !in put ==> k in older && older[k] == x[k]
  {
    hide Merged, ToMap, StoredMap, Written, Newer, RowsOf;
    var a, x, b := RowSources(segs[..i]), segs[i].rows, RowSources(segs[i + 1..]);
    assert RowSources(segs) == a + [x] + b && RowSources(segs[..i] + segs[i + 1..]) == a + b;
    MergedConcat(a + [x], b);
    MergedSnoc(a, x);
    MergedConcat(a, b);
    MiddleOut(Merged(a), ToMap(x), Merged(b), StoredMap(Written(Newer(RowsOf(log), last)), meta));
  }

  // ----- a crash and the tombstones in memory -----

  lemma FirstMerged<V>(x: seq<Entry<V>>, rest: Sources<V>)
    ensures Merged([x] + rest) == ToMap(x) + Merged(rest)
  {
    MergedConcat([x], rest);
    SingleMerged(x);
  }

  /** The frozen memtables together hold what their windows wrote. */
  lemma {:induction false} FrozenTogether(frozen: Sources<Row>, cuts: seq<nat>, from: nat, to: nat, rows: seq<LogRow>, meta: seq<ColumnMeta>)
    requires to <= |rows| && FrozenHolds(frozen, cuts, from, to, rows, meta)
    ensures from <= to && StoredMap(Merged(frozen), meta) == StoredMap(Written(rows[from..to]), meta)
  {
    hide Written, ToMap, StoredMap, Merged;
    if frozen == [] {
      NothingMerged();
      NothingWritten();
      assert rows[from..to] == [];
    } else {
      var end := CutAfter(cuts, to);
      FrozenTogether(frozen[1..], cuts[1..], end, to, rows, meta);
      assert frozen == [frozen[0]] + frozen[1..];
      FirstMerged(frozen[0], frozen[1..]);
      assert rows[from..to] == rows[from..end] + rows[end..to];
      WrittenConcat(rows[from..end], rows[end..to]);
      StoredUnion(ToMap(frozen[0]), Merged(frozen[1..]), meta);
      StoredUnion(Written(rows[from..end]), Written(rows[end..to]), meta);
    }
  }

  lemma NothingMerged()
    ensures Merged<Row>([]) == map[]
  {
  }

  lemma MemoryHolds(all: bool, s: State, meta: seq<ColumnMeta>, f: CheckpointFormat)
    requires Inv(all, s, meta, f)
    ensures From(s) <= s.applied && StoredMap(Merged(s.frozen + [s.active]), meta) == StoredMap(Written(s.rows[From(s)..s.applied]), meta)
  {
    hide Written, ToMap, StoredMap, Merged, LogInv, Faces;
    var rows, a, m := s.rows, From(s), s.activeFrom;
    FrozenTogether(s.frozen, s.cuts, a, m, rows, meta);
    MergedSnoc(s.frozen, s.active);
    assert rows[a..s.applied] == rows[a..m] + rows[m..s.applied];
    WrittenConcat(rows[a..m], rows[m..s.applied]);
    StoredUnion(Merged(s.frozen), ToMap(s.active), meta);
    StoredUnion(Written(rows[a..m]), Written(rows[m..s.applied]), meta);
  }

  lemma {:induction false} MergedBare(mems: Sources<Row>)
    requires forall i :: 0 <= i < |mems| ==> BareMap(ToMap(mems[i]))
    ensures BareMap(Merged(mems))
  {
    hide ToMap;
    if mems != [] { MergedBare(mems[..|mems| - 1]); }
  }

  /** Reviving the tombstones of bare rows leaves the rows in storage form. */
  lemma RevivedRows(all: bool, m: map<Key, Row>, meta: seq<ColumnMeta>)
    requires BareMap(m)
    ensures MapValues(Seen(all, MapValues(m, (r: Row) => Observed(r, meta)), meta), Revive(meta)) ==
      MapValues(Faces(all, StoredMap(m, meta), meta), (c: Cells) => Live(c))
  {
    hide Face, Store;
    NullFace(all, meta);
  }

  lemma LiveFaces(all: bool, m: map<Key, Cells>, meta: seq<ColumnMeta>)
    ensures Seen(all, MapValues(m, (c: Cells) => Live(c)), meta) == MapValues(Faces(all, m, meta), (c: Cells) => Live(c))
    ensures AllLive(MapValues(m, (c: Cells) => Live(c)))
  {
    hide Face;
  }

  lemma LiveIsRevived(v: map<Key, Cell>, meta: seq<ColumnMeta>)
    ensures MapValues(v, Revive(meta)) == v <==> AllLive(v)
    ensures AllLive(MapValues(v, Revive(meta)))
  {
    if !AllLive(v) {
      var k :| k in v && !v[k].Live?;
      assert MapValues(v, Revive(meta))[k].Live?;
    }
  }

  /** All logged rows, as they look: what the engine shows with its tombstones revived. */
  lemma RevivedIsLogged(all: bool, s: State, meta: seq<ColumnMeta>, f: CheckpointFormat)
    requires DistinctNames(meta) && Inv(all, s, meta, f) && Layered(s, meta) && s.applied == |s.rows|
    ensures MapValues(Seen(all, View(AllSources(s.segs, s.frozen, s.active, meta), meta), meta), Revive(meta)) ==
      MapValues(Faces(all, StoredMap(Written(s.rows), meta), meta), (c: Cells) => Live(c))
  {
    hide LogInv, FrozenHolds, Written, ToMap, StoredMap, Merged, Faces, Seen, View, SegmentSources, Sorted, BareMap, BareRows,
      CanonicalSegment, DistinctNames, MapValues, Observed, Revive;
    var rows, m, a := s.rows, s.flushed, From(s);
    var mems, live := s.frozen + [s.active], (c: Cells) => Live(c);
    assert AllSources(s.segs, s.frozen, s.active, meta) == SegmentSources(s.segs, meta) + mems;
    ViewConcat(SegmentSources(s.segs, meta), mems, meta);
    ViewOfSegments(s.segs, meta);
    ViewMeans(mems, meta);
    MergedBare(mems);
    MemoryHolds(all, s, meta, f);
    RevivedRows(all, Merged(mems), meta);
    var x, y := View(SegmentSources(s.segs, meta), meta), View(mems, meta);
    LiveFaces(all, Merged(RowSources(s.segs)), meta);
    SeenIsLive(all, x, meta);
    LiveIsRevived(Seen(all, x, meta), meta);
    SeenUnion(all, x, y, meta);
    MapValuesUnion(Seen(all, x, meta), Seen(all, y, meta), Revive(meta));
    assert rows[..|rows|] == rows && rows[a..|rows|] == rows[a..];
    WindowOver(rows, a, m, |rows|);
    StoredUnion(Written(rows[..m]), Written(rows[a..]), meta);
    FacesUnion(all, StoredMap(Written(rows[..m]), meta), StoredMap(Written(rows[a..]), meta), meta);
    MapValuesUnion(Faces(all, StoredMap(Written(rows[..m]), meta), meta), Faces(all, StoredMap(Written(rows[a..]), meta), meta), live);
  }

  lemma ViewMeans(mems: Sources<Row>, meta: seq<ColumnMeta>)
    ensures View(mems, meta) == MapValues(Merged(mems), (r: Row) => Observed(r, meta))
  {
  }

  /** A crash revives the tombstones in memory, which the log does not hold, and changes nothing else: the
      view after the restart is the view before it with those tombstones turned into rows of NULLs. */
  lemma CrashRevives(all: bool, s: State, last: nat, mem: seq<Entry<Row>>, meta: seq<ColumnMeta>, f: CheckpointFormat)
    requires DistinctNames(meta) && Inv(all, s, meta, f) && Layered(s, meta)
    requires s.applied == |s.rows| && s.aside <= s.flushed && IsLastCheckpoint(LogOf(s.file, f), last)
    requires ToMap(mem) == Written(Newer(LogRead(s, f), last))
    ensures Seen(all, View(AllSources(s.segs, [], mem, meta), meta), meta) ==
      MapValues(Seen(all, View(AllSources(s.segs, s.frozen, s.active, meta), meta), meta), Revive(meta))
  {
    hide LogInv, FrozenHolds, Written, ToMap, StoredMap, Merged, Faces, Seen, View, SegmentSources, Sorted, BareMap, BareRows,
      CanonicalSegment, DistinctNames, MapValues, Newer, RowsOf, LogOf, IsLastCheckpoint, Recovered, AllSources;
    RecoveredIsTheView(s.file, s.segs, last, mem, meta, f);
    RecoveredByInv(all, s, meta, f, last);
    LiveFaces(all, Recovered(LogOf(s.file, f), s.segs, last, meta), meta);
    RevivedIsLogged(all, s, meta, f);
  }

  /** Readers cannot tell the crash from no crash exactly when no tombstone is in memory. */
  lemma CrashInvisibleIff(all: bool, s: State, last: nat, mem: seq<Entry<Row>>, meta: seq<ColumnMeta>, f: CheckpointFormat)
    requires DistinctNames(meta) && Inv(all, s, meta, f) && Layered(s, meta)
    requires s.applied == |s.rows| && s.aside <= s.flushed && IsLastCheckpoint(LogOf(s.file, f), last)
    requires ToMap(mem) == Written(Newer(LogRead(s, f), last))
    ensures var v, w := Seen(all, View(AllSources(s.segs, s.frozen, s.active, meta), meta), meta), Seen(all, View(AllSources(s.segs, [], mem, meta), meta), meta);
      (forall start, end :: Visible(w, start, end) == Visible(v, start, end)) <==> NoTombstone(Merged(s.frozen + [s.active]))
  {
    hide LogInv, FrozenHolds, Written, ToMap, StoredMap, Merged, Faces, View, SegmentSources, Sorted, BareMap, BareRows,
      CanonicalSegment, DistinctNames, Newer, RowsOf, LogOf, IsLastCheckpoint, Visible, Look, Revive, Observed, Inv;
    var mems := s.frozen + [s.active];
    var x, y := View(SegmentSources(s.segs, meta), meta), View(mems, meta);
    CrashRevives(all, s, last, mem, meta, f);
    assert AllSources(s.segs, s.frozen, s.active, meta) == SegmentSources(s.segs, meta) + mems;
    ViewConcat(SegmentSources(s.segs, meta), mems, meta);
    SegmentsAreLive(s.segs, meta);
    hide AllSources, MapValues, AllLive, Seen, NoTombstone;
    var v, w := Seen(all, x + y, meta), Seen(all, View(AllSources(s.segs, [], mem, meta), meta), meta);
    LiveIsRevived(v, meta);
    RevivedKeys(v, meta);
    SameVisibleIff(v, w);
    LiveParts(all, x, y, meta);
    ViewMeans(mems, meta);
    TombstonesShow(Merged(mems), meta);
  }

  lemma RevivedKeys(v: map<Key, Cell>, meta: seq<ColumnMeta>)
    ensures MapValues(v, Revive(meta)).Keys == v.Keys
  {
  }

  lemma LiveParts(all: bool, x: map<Key, Cell>, y: map<Key, Cell>, meta: seq<ColumnMeta>)
    requires AllLive(x)
    ensures AllLive(Seen(all, x + y, meta)) <==> AllLive(y)
  {
    hide Face;
    var v := Seen(all, x + y, meta);
    if AllLive(v) {
      forall k | k in y ensures y[k].Live? { assert v[k].Live?; }
    }
  }

  lemma TombstonesShow(m: map<Key, Row>, meta: seq<ColumnMeta>)
    ensures AllLive(MapValues(m, (r: Row) => Observed(r, meta))) <==> NoTombstone(m)
  {
    hide Store;
    var v := MapValues(m, (r: Row) => Observed(r, meta));
    if AllLive(v) {
      forall k | k in m ensures !m[k].tombstone { assert v[k].Live?; }
    }
  }

  // ----- from bytes to rows -----

  /** From the bytes of the log file to what readers see: a crash in the middle of writing any further record
      leaves a file from which exactly the logged rows are recovered. */
  lemma CrashAnywhere(all: bool, states: seq<State>, steps: seq<Step>, meta: seq<ColumnMeta>, f: CheckpointFormat, i: nat, crc: Checksum, rec: Record, n: nat, last: nat)
    requires RoundTrips(f) && IsRunOf(states, steps, meta, f) && i < |states| && SoundUpTo(all, states, steps, i, meta, f)
    requires |rec.payload| <= MAX_PAYLOAD && n < |EncodeRecord(crc, rec)| && states[i].aside <= states[i].flushed
    ensures var s := states[i];
      var file := ReplayFrom(crc, EncodeAll(crc, s.file) + EncodeRecord(crc, rec)[..n], 0).records;
      IsLastCheckpoint(LogOf(file, f), last) ==>
        Faces(all, Recovered(LogOf(file, f), s.segs, last, meta), meta) == Faces(all, StoredMap(Written(s.rows), meta), meta)
  {
    hide IsLastCheckpoint, StoredMap, Written, Recovered, Faces, LogOf, Next, Sound, Inv, Layered, EncodeAll, EncodeRecord, ReplayFrom, RoundTrips;
    var s := states[i];
    InvReached(all, states, steps, meta, f, i);
    SmallPayloads(all, s, meta, f);
    ReplayAfterCrash(crc, s.file, rec, n);
    if IsLastCheckpoint(LogOf(s.file, f), last) {
      RecoveryIsExact(all, states, steps, meta, f, i, last);
    }
  }

  lemma SmallPayloads(all: bool, s: State, meta: seq<ColumnMeta>, f: CheckpointFormat)
    requires Inv(all, s, meta, f)
    ensures !TooLarge(s.file)
  {
    hide FrozenHolds, Faces, StoredMap, Written, Merged, ToMap, RowsOf, RecordOf;
  }

  // ----- what is read back at all -----

  /** What one step logs, and what of it is read back. */
  lemma StepReads(s: State, step: Step, t: State, meta: seq<ColumnMeta>, f: CheckpointFormat) returns (more: seq<LogRow>, got: seq<LogRow>)
    requires RoundTrips(f) && Next(s, step, t, meta, f) && !step.RotateLog?
    ensures t.rows == s.rows + more && LogRead(t, f) == LogRead(s, f) + got && |got| <= |more|
    ensures got == AllRead(more) <==> (step.Append? ==> WalCodec.Survives(step.batch))
  {
    hide RowsOf, RecordOf, WalCodec.Survives, WalCodec.BatchBytes, RoundTrips, Newer, Written, ToMap, Merged, FlushedRows, Encoded,
      Shaped, Sorted, WellFormed;
    more, got := [], [];
    if step.Append? {
      var rec := Record(step.tp, Payload(step.batch, s));
      LogAfter(s.file, rec, f);
      RecordReadsIff(step.tp, step.batch, s.nextVersion + 1, step.deleted, f);
      more, got := Stamp(step.batch, s.nextVersion + 1, step.deleted), RowsIn(RecordOf(rec, f));
    } else if step.WriteCheckpoint? {
      LogAfter(s.file, Record(TYPE_CHECKPOINT, f.write(s.flushing.value)), f);
      CheckpointReads(s.flushing.value, f);
    }
  }

  ghost predicate AllSurvive(steps: seq<Step>, i: nat) {
    forall j :: 0 <= j < i && j < |steps| && steps[j].Append? ==> WalCodec.Survives(steps[j].batch)
  }

  lemma {:induction false} ReadsAtMost(states: seq<State>, steps: seq<Step>, meta: seq<ColumnMeta>, f: CheckpointFormat, i: nat)
    requires RoundTrips(f) && IsRunOf(states, steps, meta, f) && i < |states|
    requires forall j :: 0 <= j < i ==> !steps[j].RotateLog?
    ensures |LogRead(states[i], f)| <= |states[i].rows|
  {
    hide Next, RoundTrips, LogRead;
    if i == 0 {
      NothingIsRead(f);
    } else {
      ReadsAtMost(states, steps, meta, f, i - 1);
      assert Next(states[i - 1], steps[i - 1], states[i - 1 + 1], meta, f);
      var more, got := StepReads(states[i - 1], steps[i - 1], states[i], meta, f);
    }
  }

  lemma NothingIsRead(f: CheckpointFormat)
    ensures LogRead(Start, f) == []
  {
    NothingLogged(f);
  }

  /** Over every run without a rotation of the log: all logged rows are read back if and only if every
      batch that was appended survives. */
  lemma {:induction false} RowsReadIff(states: seq<State>, steps: seq<Step>, meta: seq<ColumnMeta>, f: CheckpointFormat, i: nat)
    requires RoundTrips(f) && IsRunOf(states, steps, meta, f) && i < |states|
    requires forall j :: 0 <= j < i ==> !steps[j].RotateLog?
    ensures LogRead(states[i], f) == AllRead(states[i].rows) <==> AllSurvive(steps, i)
  {
    hide Next, RoundTrips, LogRead, AsRead, WalCodec.Survives;
    if i == 0 {
      NothingIsRead(f);
      assert AllRead([]) == [];
    } else {
      var s, t, step := states[i - 1], states[i], steps[i - 1];
      RowsReadIff(states, steps, meta, f, i - 1);
      ReadsAtMost(states, steps, meta, f, i - 1);
      assert Next(s, step, states[i - 1 + 1], meta, f);
      var more, got := StepReads(s, step, t, meta, f);
      ReadConcat(s.rows, more);
      PartsAgree(LogRead(s, f), AllRead(s.rows), got, AllRead(more));
      assert AllSurvive(steps, i) <==> AllSurvive(steps, i - 1) && (step.Append? ==> WalCodec.Survives(step.batch));
    }
  }

  lemma PartsAgree<T>(a: seq<T>, b: seq<T>, x: seq<T>, y: seq<T>)
    requires |a| <= |b| && |x| <= |y|
    ensures a + x == b + y <==> a == b && x == y
  {
    if a + x == b + y {
      assert |a + x| == |b + y|;
      assert a == (a + x)[..|a|] && x == (a + x)[|a|..] && b == (b + y)[..|b|] && y == (b + y)[|b|..];
    }
  }

  // ----- a write that is lost -----

  function NullBatch(k: Key, c: Str): seq<WalCodec.WriteRow> {
    [WalCodec.WriteRow(k, [Entry(c, NewNull)])]
  }

  function NullLogged(k: Key, c: Str): State {
    Start.(file := [Record(TYPE_WRITE, WalCodec.BatchBytes(NullBatch(k, c), 1))], rows := [LogRow(k, 1, map[c := NewNull], false)], nextVersion := 1)
  }

  function NullApplied(k: Key, c: Str): State {
    NullLogged(k, c).(active := [Entry(k, Row(1, map[c := NewNull], false))], applied := 1)
  }

  lemma NullPayload(k: Key, c: Str)
    requires |k| < TWO16 && |c| < TWO16
    ensures |WalCodec.BatchBytes(NullBatch(k, c), 1)| <= MAX_PAYLOAD
  {
    var row := NullBatch(k, c)[0];
    WalCodec.OneRow(row, 1);
    assert row.columns[1..] == [];
    assert |WalCodec.ColumnsBytes(row.columns)| == |WalCodec.ColumnBytes(row.columns[0])| + |WalCodec.ColumnsBytes([])|;
  }

  lemma NullDecodes(k: Key, c: Str)
    requires |k| < TWO16 && |c| < TWO16
    ensures WalCodec.Decode(WalCodec.BatchBytes(NullBatch(k, c), 1)).None?
  {
    hide WalCodec.Decode, WalCodec.BatchBytes;
    var batch := NullBatch(k, c);
    WalCodec.DecodeOfEncoded(batch, 1);
    assert batch[..1] == batch && batch[0].columns[0].value.typ.TypeNull?;
    assert WalCodec.HasNullType(batch[0].columns);
  }

  lemma NullStamp(k: Key, c: Str)
    requires k != []
    ensures WellFormed(TYPE_WRITE, NullBatch(k, c), false) && Stamp(NullBatch(k, c), 1, false) == NullApplied(k, c).rows
  {
    hide ToMap;
    ToMapSnoc([], Entry(c, NewNull));
    ToMapOfNothing<Value>();
    assert [] + [Entry(c, NewNull)] == NullBatch(k, c)[0].columns;
  }

  lemma NullWritten(k: Key, c: Str)
    ensures var s := NullApplied(k, c); Sorted(s.active) && ToMap(s.active) == Written(s.rows)
  {
    hide Written, ToMap;
    var s := NullApplied(k, c);
    OneWritten(s.rows[0]);
    ToMapSnoc([], s.active[0]);
    ToMapOfNothing<Row>();
    assert [] + [s.active[0]] == s.active;
  }

  lemma NullRun(k: Key, c: Str, meta: seq<ColumnMeta>, f: CheckpointFormat)
    requires k != [] && |k| < TWO16 && |c| < TWO16
    ensures Next(Start, Append(TYPE_WRITE, NullBatch(k, c), false), NullLogged(k, c), meta, f)
    ensures Next(NullLogged(k, c), ApplyRows, NullApplied(k, c), meta, f)
    ensures ToMap(NullApplied(k, c).active) == Written(NullApplied(k, c).rows)
  {
    hide WalCodec.BatchBytes, Written, ToMap, Sorted, WellFormed, Stamp, Newer, RowsOf, LogOf, IsLastCheckpoint;
    var s := NullApplied(k, c);
    NullPayload(k, c);
    NullStamp(k, c);
    NullWritten(k, c);
    ToMapOfNothing<Row>();
    assert s.rows[0..] == s.rows;
  }

  lemma ToMapOfNothing<V>()
    ensures ToMap<V>([]) == map[]
  {
  }

  /** INSERT of one NULL: the row is logged, applied and shown, and gone after a crash. */
  lemma NullIsLost(k: Key, c: Str, meta: seq<ColumnMeta>, f: CheckpointFormat)
    requires k != [] && |k| < TWO16 && |c| < TWO16
    ensures IsRunOf([Start, NullLogged(k, c), NullApplied(k, c)], [Append(TYPE_WRITE, NullBatch(k, c), false), ApplyRows], meta, f)
    ensures var s := NullApplied(k, c);
      && k in StoredMap(ToMap(s.active), meta) && IsLastCheckpoint(LogOf(s.file, f), 0)
      && Recovered(LogOf(s.file, f), s.segs, 0, meta) == map[]
  {
    hide WalCodec.BatchBytes, WalCodec.Decode, Next, Store, Newer, Written, ToMap, RowsOf;
    var s := NullApplied(k, c);
    NullRun(k, c, meta, f);
    NullDecodes(k, c);
    OneWritten(s.rows[0]);
    LogAfter([], s.file[0], f);
    assert [] + [s.file[0]] == s.file && RowSources([]) == [];
    NothingLogged(f);
    NothingWritten();
    NewerNothing(0);
  }
}
