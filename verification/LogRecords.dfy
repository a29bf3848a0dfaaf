/** What a replay makes of the log: records decoded to rows, and rows put into a memtable. */
module LogRecords {
  import opened Keys
  import opened SortedEntries
  import opened Values
  import opened Bytes
  import opened MemTables
  import opened LsmModel
  import opened WriteAheadLogs
  import WalCodec

  /** A logged row. `deleted` is the tombstone flag of the running engine; the log does not hold it. */
  datatype LogRow = LogRow(key: Key, version: nat, columns: map<Str, Value>, deleted: bool)

  datatype LogRecord = WriteRecord(rows: seq<LogRow>) | Checkpoint(flushedVersion: nat) | Other

  const TYPE_WRITE: byte := 1
  const TYPE_CHECKPOINT: byte := 3
  const TYPE_BATCH_WRITE: byte := 4

  /** A checkpoint payload is a JSON document; these write and read it. */
  datatype CheckpointFormat = CheckpointFormat(write: nat -> Buffer, read: Buffer -> Option<nat>)

  ghost predicate RoundTrips(f: CheckpointFormat) {
    forall v: nat :: f.read(f.write(v)) == Some(v)
  }

  // ----- decoding -----

  function AsLogRow(r: WalCodec.BatchRow): LogRow {
    LogRow(r.key, r.version, r.values, false)
  }

  function AsLogRows(rs: seq<WalCodec.BatchRow>): (r: seq<LogRow>)
    ensures |r| == |rs| && forall i :: 0 <= i < |rs| ==> r[i] == AsLogRow(rs[i])
  {
    seq(|rs|, i requires 0 <= i < |rs| => AsLogRow(rs[i]))
  }

  /** A payload that cannot be decoded counts as no rows; a single write is a batch of which the first row counts. */
  function RecordOf(rec: Record, f: CheckpointFormat): LogRecord {
    if rec.tp == TYPE_WRITE then
      match WalCodec.Decode(rec.payload)
      case Some(rows) => WriteRecord(if rows == [] then [] else [AsLogRow(rows[0])])
      case None => WriteRecord([])
    else if rec.tp == TYPE_BATCH_WRITE then
      match WalCodec.Decode(rec.payload)
      case Some(rows) => WriteRecord(AsLogRows(rows))
      case None => WriteRecord([])
    else if rec.tp == TYPE_CHECKPOINT then
      match f.read(rec.payload)
      case Some(v) => Checkpoint(v)
      case None => Other
    else Other
  }

  function LogOf(file: seq<Record>, f: CheckpointFormat): (log: seq<LogRecord>)
    ensures |log| == |file| && forall i :: 0 <= i < |file| ==> log[i] == RecordOf(file[i], f)
  {
    seq(|file|, i requires 0 <= i < |file| => RecordOf(file[i], f))
  }

  function RowsIn(rec: LogRecord): seq<LogRow> {
    if rec.WriteRecord? then rec.rows else []
  }

  function RowsOf(log: seq<LogRecord>): seq<LogRow> {
    if log == [] then []
    else
      var n := |log| - 1;
      RowsOf(log[..n]) + RowsIn(log[n])
  }

  lemma RowsAfter(log: seq<LogRecord>, rec: LogRecord)
    ensures RowsOf(log + [rec]) == RowsOf(log) + RowsIn(rec)
  {
    assert (log + [rec])[..|log|] == log;
  }

  lemma LogAfter(file: seq<Record>, rec: Record, f: CheckpointFormat)
    ensures LogOf(file + [rec], f) == LogOf(file, f) + [RecordOf(rec, f)]
    ensures RowsOf(LogOf(file + [rec], f)) == RowsOf(LogOf(file, f)) + RowsIn(RecordOf(rec, f))
  {
    hide RecordOf;
    assert LogOf(file + [rec], f) == LogOf(file, f) + [RecordOf(rec, f)];
    RowsAfter(LogOf(file, f), RecordOf(rec, f));
  }

  // ----- a logged row as it is read -----

  function NormMap(m: map<Str, Value>): map<Str, Value> {
    MapValues(m, WalCodec.Norm)
  }

  /** A row as a replay reads it: fields its values do not use are zero, and a delete is an empty row. */
  function AsRead(r: LogRow): LogRow {
    LogRow(r.key, r.version, NormMap(r.columns), false)
  }

  function AllRead(rows: seq<LogRow>): (r: seq<LogRow>)
    ensures |r| == |rows| && forall i :: 0 <= i < |rows| ==> r[i] == AsRead(rows[i])
  {
    seq(|rows|, i requires 0 <= i < |rows| => AsRead(rows[i]))
  }

  /** The rows of a batch with the versions they get. */
  function Stamp(rows: seq<WalCodec.WriteRow>, version: nat, deleted: bool): (r: seq<LogRow>)
    ensures |r| == |rows|
    ensures forall i :: 0 <= i < |rows| ==> r[i] == LogRow(rows[i].key, version + i, ToMap(rows[i].columns), deleted)
  {
    seq(|rows|, i requires 0 <= i < |rows| => LogRow(rows[i].key, version + i, ToMap(rows[i].columns), deleted))
  }

  lemma NormOfMap(cs: seq<Entry<Value>>)
    ensures NormMap(ToMap(cs)) == ToMap(WalCodec.NormColumns(cs))
  {
    hide ToMap;
    ToMapOfMapped(cs, WalCodec.Norm);
    assert MapEntries(cs, WalCodec.Norm) == WalCodec.NormColumns(cs);
  }

  lemma StampIsRead(rows: seq<WalCodec.WriteRow>, version: nat, deleted: bool)
    ensures AllRead(Stamp(rows, version, deleted)) == AsLogRows(WalCodec.RowsOf(rows, version))
  {
    hide ToMap, NormMap, WalCodec.NormColumns;
    forall i | 0 <= i < |rows|
      ensures AllRead(Stamp(rows, version, deleted))[i] == AsLogRows(WalCodec.RowsOf(rows, version))[i]
    {
      NormOfMap(rows[i].columns);
    }
  }

  /** What the engine appends: a single write or delete, or a batch. */
  ghost predicate WellFormed(tp: byte, rows: seq<WalCodec.WriteRow>, deleted: bool) {
    && (tp == TYPE_BATCH_WRITE || (tp == TYPE_WRITE && |rows| == 1))
    && (forall i :: 0 <= i < |rows| ==> rows[i].key != [] && WalCodec.DistinctColumns(rows[i].columns))
    && (deleted ==> forall i :: 0 <= i < |rows| ==> rows[i].columns == [])
  }

  lemma LogRowsDiffer(a: seq<WalCodec.BatchRow>, b: seq<WalCodec.BatchRow>)
    ensures AsLogRows(a) == AsLogRows(b) <==> a == b
  {
    if AsLogRows(a) == AsLogRows(b) {
      assert |a| == |AsLogRows(a)| == |b|;
      forall i | 0 <= i < |a| ensures a[i] == b[i] {
        assert AsLogRow(a[i]) == AsLogRows(a)[i] == AsLogRows(b)[i] == AsLogRow(b[i]);
      }
    }
  }

  /** The exact condition: an appended record is read back with all its rows if and only if its batch is one
      the 16-bit fields can hold, without a value of type NULL. No record is read back with more rows. */
  lemma RecordReadsIff(tp: byte, rows: seq<WalCodec.WriteRow>, version: nat, deleted: bool, f: CheckpointFormat)
    requires WellFormed(tp, rows, deleted) && version + |rows| <= TWO64
    ensures var r := RecordOf(Record(tp, WalCodec.BatchBytes(rows, version)), f);
      && |RowsIn(r)| <= |rows|
      && (RowsIn(r) == AllRead(Stamp(rows, version, deleted)) <==> WalCodec.Survives(rows))
  {
    hide WalCodec.Decode, WalCodec.BatchBytes, AllRead, Stamp, WalCodec.RowsOf, WalCodec.DistinctColumns, WalCodec.SizedRow, WalCodec.HasNullType;
    var r, all := WalCodec.Decode(WalCodec.BatchBytes(rows, version)), WalCodec.RowsOf(rows, version);
    StampIsRead(rows, version, deleted);
    WalCodec.SurvivesReplayIff(rows, version);
    WalCodec.DecodedCount(rows, version);
    assert |AsLogRows(all)| == |all| == |rows|;
    if r.Some? {
      LogRowsDiffer(r.value, all);
      if tp == TYPE_WRITE { assert [AsLogRow(r.value[0])] == AsLogRows(r.value); }
    }
  }

  // ----- what rows leave behind -----

  function Newer(rows: seq<LogRow>, version: nat): seq<LogRow> {
    if rows == [] then []
    else
      var n := |rows| - 1;
      Newer(rows[..n], version) + if rows[n].version > version then [rows[n]] else []
  }

  function AsEntry(r: LogRow): Entry<Row> {
    Entry(r.key, Row(r.version, r.columns, r.deleted))
  }

  function AsEntries(rows: seq<LogRow>): (r: seq<Entry<Row>>)
    ensures |r| == |rows| && forall i :: 0 <= i < |rows| ==> r[i] == AsEntry(rows[i])
  {
    seq(|rows|, i requires 0 <= i < |rows| => AsEntry(rows[i]))
  }

  function MaxVersion(rows: seq<LogRow>): nat {
    if rows == [] then 0
    else
      var n := |rows| - 1;
      var m := MaxVersion(rows[..n]);
      if rows[n].version > m then rows[n].version else m
  }

  /** Zero without rows, else the greatest version among them. */
  lemma {:induction false} MaxVersionMeans(rows: seq<LogRow>)
    ensures forall i :: 0 <= i < |rows| ==> rows[i].version <= MaxVersion(rows)
    ensures MaxVersion(rows) == 0 || exists i :: 0 <= i < |rows| && rows[i].version == MaxVersion(rows)
  {
    if rows != [] {
      var n := |rows| - 1;
      MaxVersionMeans(rows[..n]);
      assert forall i :: 0 <= i < n ==> rows[..n][i] == rows[i];
      if i :| 0 <= i < n && rows[..n][i].version == MaxVersion(rows[..n]) { assert rows[i].version == MaxVersion(rows[..n]); }
    }
  }

  ghost predicate IsLastCheckpoint(log: seq<LogRecord>, version: nat) {
    && (forall i :: 0 <= i < |log| && log[i].Checkpoint? ==> log[i].flushedVersion <= version)
    && (version == 0 || exists i :: 0 <= i < |log| && log[i] == Checkpoint(version))
  }

  /** What the rows leave behind when put in order. */
  function Written(rows: seq<LogRow>): map<Key, Row> {
    ToMap(AsEntries(rows))
  }

  lemma {:induction false} ToMapConcat<V>(a: seq<Entry<V>>, b: seq<Entry<V>>)
    ensures ToMap(a + b) == ToMap(a) + ToMap(b)
  {
    if b == [] {
      assert a + b == a;
    } else {
      var n := |b| - 1;
      assert (a + b)[..|a + b| - 1] == a + b[..n];
      ToMapConcat(a, b[..n]);
    }
  }

  lemma WrittenConcat(a: seq<LogRow>, b: seq<LogRow>)
    ensures Written(a + b) == Written(a) + Written(b)
  {
    assert AsEntries(a + b) == AsEntries(a) + AsEntries(b);
    ToMapConcat(AsEntries(a), AsEntries(b));
  }

  lemma {:induction false} NewerConcat(a: seq<LogRow>, b: seq<LogRow>, version: nat)
    ensures Newer(a + b, version) == Newer(a, version) + Newer(b, version)
    ensures MaxVersion(a + b) == if MaxVersion(a) > MaxVersion(b) then MaxVersion(a) else MaxVersion(b)
  {
    if b == [] {
      assert a + b == a;
    } else {
      var n := |b| - 1;
      assert (a + b)[..|a + b| - 1] == a + b[..n];
      NewerConcat(a, b[..n], version);
    }
  }

  lemma NewerStep(rows: seq<LogRow>, i: nat, version: nat)
    requires i < |rows|
    ensures Newer(rows[..i + 1], version) == Newer(rows[..i], version) + if rows[i].version > version then [rows[i]] else []
  {
    assert rows[..i + 1][..i] == rows[..i];
  }

  lemma OneWritten(r: LogRow)
    ensures Written([r]) == map[r.key := AsEntry(r).value] && MaxVersion([r]) == r.version
  {
    assert AsEntries([r]) == [] + [AsEntry(r)];
    ToMapSnoc([], AsEntry(r));
    assert [r][..0] == [];
  }

  lemma NothingWritten()
    ensures Written([]) == map[] && MaxVersion([]) == 0 && Sorted<Row>([]) && ToMap<Row>([]) == map[]
  {
  }

  lemma NewerNothing(last: nat)
    ensures Newer([], last) == []
  {
  }

  lemma {:induction false} NoneNewer(rows: seq<LogRow>, last: nat)
    requires forall i :: 0 <= i < |rows| ==> rows[i].version <= last
    ensures Newer(rows, last) == []
  {
    if rows != [] { NoneNewer(rows[..|rows| - 1], last); }
  }

  lemma {:induction false} MaxOfNewer(rows: seq<LogRow>, last: nat)
    ensures MaxVersion(Newer(rows, last)) > last <==> exists i :: 0 <= i < |rows| && rows[i].version > last
    ensures Newer(rows, last) == [] <==> forall i :: 0 <= i < |rows| ==> rows[i].version <= last
  {
    if rows != [] {
      var n := |rows| - 1;
      MaxOfNewer(rows[..n], last);
      var kept := Newer(rows[..n], last);
      if rows[n].version > last {
        assert (kept + [rows[n]])[..|kept|] == kept;
      } else {
        assert Newer(rows, last) == kept;
      }
      if i :| 0 <= i < n && rows[..n][i].version > last { assert rows[i].version > last; }
      if i :| 0 <= i < |rows| && rows[i].version > last {
        if i < n { assert rows[..n][i].version > last; }
      }
    }
  }

  // ----- replay -----

  method FindLastCheckpoint(file: seq<Record>, f: CheckpointFormat) returns (last: nat)
    ensures IsLastCheckpoint(LogOf(file, f), last)
  {
    ghost var log := LogOf(file, f);
    last := 0;
    for i := 0 to |file|
      invariant IsLastCheckpoint(log[..i], last)
    {
      LastCheckpointStep(log, i, last);
      if file[i].tp == TYPE_CHECKPOINT {
        match f.read(file[i].payload) {
          case Some(version) =>
            if version > last {
              last := version;
            }
          case None =>
        }
      }
    }
    assert log[..|log|] == log;
  }

  lemma LastCheckpointStep(log: seq<LogRecord>, i: nat, last: nat)
    requires i < |log| && IsLastCheckpoint(log[..i], last)
    ensures IsLastCheckpoint(log[..i + 1], if log[i].Checkpoint? && log[i].flushedVersion > last then log[i].flushedVersion else last)
  {
    var next := log[..i + 1];
    assert next == log[..i] + [log[i]];
    if log[i].Checkpoint? && log[i].flushedVersion > last {
      assert next[i] == Checkpoint(log[i].flushedVersion);
    } else if last > 0 {
      var j :| 0 <= j < i && log[..i][j] == Checkpoint(last);
      assert next[j] == Checkpoint(last);
    }
  }

  lemma OneNewer(r: LogRow, last: nat)
    ensures Newer([r], last) == if r.version > last then [r] else []
  {
    assert [r][..0] == [];
    assert Newer([r], last) == Newer([r][..0], last) + if r.version > last then [r] else [];
  }

  /** A record that holds a single write. */
  method ApplySingleWriteRecord(payload: Buffer, last: nat, mem0: seq<Entry<Row>>, ghost f: CheckpointFormat)
    returns (mem: seq<Entry<Row>>, version: nat, ok: bool)
    requires Sorted(mem0)
    ensures var rows := Newer(RowsIn(RecordOf(Record(TYPE_WRITE, payload), f)), last);
      Sorted(mem) && ToMap(mem) == ToMap(mem0) + Written(rows) && version == MaxVersion(rows)
    ensures ok <==> WalCodec.Decode(payload).Some? && WalCodec.Decode(payload).value != []
    ensures !ok ==> version == 0
  {
    hide Sorted, ToMap, Newer, Written, MaxVersion, Upsert, AsEntries, WalCodec.Decode;
    NothingWritten();
    NewerNothing(last);
    var rows := WalCodec.DeserializeBatchWriteRecord(payload);
    if rows.None? || |rows.value| == 0 {
      return mem0, 0, false;
    }
    var row := rows.value[0];
    OneNewer(AsLogRow(row), last);
    if row.version <= last {
      return mem0, 0, true;
    }
    OneWritten(AsLogRow(row));
    UpsertSorted(mem0, row.key, Row(row.version, row.values, false));
    return Upsert(mem0, row.key, Row(row.version, row.values, false)), row.version, true;
  }

  /** A record that holds a batch: its rows newer than the checkpoint are put. */
  method ApplyBatchWriteRecord(payload: Buffer, last: nat, mem0: seq<Entry<Row>>, ghost f: CheckpointFormat)
    returns (mem: seq<Entry<Row>>, maxVersion: nat, ok: bool)
    requires Sorted(mem0)
    ensures var rows := Newer(RowsIn(RecordOf(Record(TYPE_BATCH_WRITE, payload), f)), last);
      Sorted(mem) && ToMap(mem) == ToMap(mem0) + Written(rows) && maxVersion == MaxVersion(rows)
    ensures ok <==> WalCodec.Decode(payload).Some?
    ensures !ok ==> maxVersion == 0
  {
    hide Sorted, ToMap, Newer, Written, MaxVersion, Upsert, AsEntries, WalCodec.Decode;
    NothingWritten();
    NewerNothing(last);
    mem, maxVersion := mem0, 0;
    var batch := WalCodec.DeserializeBatchWriteRecord(payload);
    if batch.None? {
      return mem, 0, false;
    }
    ghost var rows, seen: seq<LogRow> := AsLogRows(batch.value), [];
    assert rows[..0] == [];
    for i := 0 to |batch.value|
      invariant seen == Newer(rows[..i], last)
      invariant Sorted(mem) && ToMap(mem) == ToMap(mem0) + Written(seen)
      invariant maxVersion == MaxVersion(seen)
    {
      var br := batch.value[i];
      NewerStep(rows, i, last);
      if br.version <= last {
        continue;
      }
      WrittenConcat(seen, [rows[i]]);
      OneWritten(rows[i]);
      NewerConcat(seen, [rows[i]], last);
      UpsertSorted(mem, br.key, Row(br.version, br.values, false));
      mem := Upsert(mem, br.key, Row(br.version, br.values, false));
      seen := seen + [rows[i]];
      if br.version > maxVersion {
        maxVersion := br.version;
      }
    }
    assert rows[..|rows|] == rows;
    ok := true;
  }

  method ApplyRecord(rec: Record, last: nat, mem0: seq<Entry<Row>>, ghost f: CheckpointFormat)
    returns (mem: seq<Entry<Row>>, version: nat, ok: bool)
    requires Sorted(mem0)
    ensures var rows := Newer(RowsIn(RecordOf(rec, f)), last);
      Sorted(mem) && ToMap(mem) == ToMap(mem0) + Written(rows) && version == MaxVersion(rows)
    ensures !ok ==> version == 0
  {
    hide Sorted, ToMap, Newer, Written, MaxVersion, AsEntries, WalCodec.Decode;
    if rec.tp == TYPE_WRITE {
      mem, version, ok := ApplySingleWriteRecord(rec.payload, last, mem0, f);
    } else if rec.tp == TYPE_BATCH_WRITE {
      mem, version, ok := ApplyBatchWriteRecord(rec.payload, last, mem0, f);
    } else {
      NothingWritten();
      NewerNothing(last);
      mem, version, ok := mem0, 0, true;
    }
  }

  /** Replays every record into the memtable and picks the next version. */
  method ReplayRecords(file: seq<Record>, f: CheckpointFormat) returns (mem: seq<Entry<Row>>, nextVersion: nat, ghost last: nat)
    ensures IsLastCheckpoint(LogOf(file, f), last)
    ensures Sorted(mem) && ToMap(mem) == Written(Newer(RowsOf(LogOf(file, f)), last))
    ensures nextVersion == MaxVersion(Newer(RowsOf(LogOf(file, f)), last)) + 1
  {
    hide Sorted, ToMap, IsLastCheckpoint, Newer, Written, MaxVersion, AsEntries, RecordOf;
    var lastFlushed := FindLastCheckpoint(file, f);
    last := lastFlushed;
    mem := [];
    var maxVersion := 0;
    ghost var seen: seq<LogRow> := [];
    NothingWritten();
    NewerNothing(last);
    for i := 0 to |file|
      invariant seen == RowsOf(LogOf(file[..i], f))
      invariant Sorted(mem) && ToMap(mem) == Written(Newer(seen, last))
      invariant maxVersion == MaxVersion(Newer(seen, last))
    {
      assert file[..i + 1] == file[..i] + [file[i]];
      LogAfter(file[..i], file[i], f);
      ghost var rows := RowsIn(RecordOf(file[i], f));
      var v, ok;
      mem, v, ok := ApplyRecord(file[i], lastFlushed, mem, f);
      NewerConcat(seen, rows, last);
      NewerConcat(Newer(seen, last), Newer(rows, last), last);
      WrittenConcat(Newer(seen, last), Newer(rows, last));
      seen := seen + rows;
      if !ok {
        continue;
      }
      if v > maxVersion {
        maxVersion := v;
      }
    }
    assert file[..|file|] == file;
    nextVersion := maxVersion + 1;
  }
}
