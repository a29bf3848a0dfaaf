/** The framing of the write-ahead log: length, type, payload, checksum. A file is its bytes;
    the checksum is any function to 32 bits. */
module WriteAheadLogs {
  import opened Keys
  import opened SortedEntries
  import opened Bytes

  const MAX_PAYLOAD: nat := 0x80_0000
  const DEFAULT_MAX_SIZE: nat := 0x400_0000

  type Uint32 = x: int | 0 <= x < TWO32

  type Checksum = Buffer -> Uint32

  datatype Record = Record(tp: byte, payload: Buffer)

  function BodyOf(r: Record): (b: Buffer)
    ensures |b| == 1 + |r.payload|
  {
    [r.tp] + r.payload
  }

  function EncodeRecord(crc: Checksum, r: Record): (b: Buffer)
    ensures |b| == |r.payload| + 9
  {
    LE(1 + |r.payload| + 4, 4) + (BodyOf(r) + LE(crc(BodyOf(r)), 4))
  }

  function EncodeAll(crc: Checksum, rs: seq<Record>): Buffer {
    if rs == [] then [] else EncodeRecord(crc, rs[0]) + EncodeAll(crc, rs[1..])
  }

  lemma {:induction false} EncodeConcat(crc: Checksum, a: seq<Record>, b: seq<Record>)
    ensures EncodeAll(crc, a + b) == EncodeAll(crc, a) + EncodeAll(crc, b)
  {
    hide EncodeRecord;
    if a == [] {
      assert a + b == b;
    } else {
      assert (a + b)[1..] == a[1..] + b;
      EncodeConcat(crc, a[1..], b);
    }
  }

  predicate TooLarge(rs: seq<Record>) {
    exists i :: 0 <= i < |rs| && |rs[i].payload| > MAX_PAYLOAD
  }

  /** An open log: the current file, and the file rotation set aside. */
  class Wal {
    const crc: Checksum
    const maxSize: nat
    var file: Buffer
    var previous: Buffer

    constructor (crc: Checksum)
      ensures file == [] && previous == [] && this.crc == crc && maxSize == DEFAULT_MAX_SIZE
    {
      this.crc := crc;
      maxSize := DEFAULT_MAX_SIZE;
      file := [];
      previous := [];
    }

    /** A file at its maximum is set aside before the next append. */
    method MaybeRotate()
      modifies this
      ensures file == if |old(file)| < maxSize then old(file) else []
      ensures previous == if |old(file)| < maxSize then old(previous) else old(file)
    {
      if |file| < maxSize {
        return;
      }
      previous := file;
      file := [];
    }

    method Append(tp: byte, payload: Buffer) returns (ok: bool)
      modifies this
      ensures ok == (|payload| <= MAX_PAYLOAD)
      ensures !ok ==> file == old(file) && previous == old(previous)
      ensures ok ==> file == (if |old(file)| < maxSize then old(file) else []) + EncodeRecord(crc, Record(tp, payload))
      ensures ok ==> previous == if |old(file)| < maxSize then old(previous) else old(file)
    {
      if |payload| > MAX_PAYLOAD {
        return false;
      }
      MaybeRotate();
      file := file + EncodeRecord(crc, Record(tp, payload));
      return true;
    }

    /** One write for all records; a payload that is too large stops it before anything is
        written, though after the rotation. */
    method AppendBatch(records: seq<Record>) returns (ok: bool)
      modifies this
      ensures ok == !TooLarge(records)
      ensures file == (if |old(file)| < maxSize then old(file) else []) + (if ok then EncodeAll(crc, records) else [])
      ensures previous == if |old(file)| < maxSize then old(previous) else old(file)
    {
      MaybeRotate();
      for i := 0 to |records|
        invariant forall j :: 0 <= j < i ==> |records[j].payload| <= MAX_PAYLOAD
        invariant file == if |old(file)| < maxSize then old(file) else []
        invariant previous == if |old(file)| < maxSize then old(previous) else old(file)
      {
        if |records[i].payload| > MAX_PAYLOAD {
          return false;
        }
      }
      var combined := Combine(crc, records);
      file := file + combined;
      return true;
    }
  }

  /** The batch encoded into one buffer. */
  method Combine(crc: Checksum, records: seq<Record>) returns (combined: Buffer)
    ensures combined == EncodeAll(crc, records)
  {
    hide EncodeRecord;
    combined := [];
    for i := 0 to |records|
      invariant combined == EncodeAll(crc, records[..i])
    {
      assert records[..i + 1] == records[..i] + [records[i]];
      EncodeConcat(crc, records[..i], [records[i]]);
      EncodeOne(crc, records[i]);
      combined := EncodeOnto(crc, combined, records[i]);
    }
    assert records[..|records|] == records;
  }

  lemma EncodeOne(crc: Checksum, r: Record)
    ensures EncodeAll(crc, [r]) == EncodeRecord(crc, r)
  {
    hide EncodeRecord;
    assert [r][1..] == [];
    assert EncodeAll(crc, [r]) == EncodeRecord(crc, r) + EncodeAll(crc, []);
  }

  method EncodeOnto(crc: Checksum, before: Buffer, rec: Record) returns (combined: Buffer)
    ensures combined == before + EncodeRecord(crc, rec)
  {
    combined := before + LE(1 + |rec.payload| + 4, 4);
    combined := combined + [rec.tp];
    combined := combined + rec.payload;
    assert combined[|combined| - 1 - |rec.payload|..] == BodyOf(rec);
    combined := combined + LE(crc(combined[|combined| - 1 - |rec.payload|..]), 4);
  }

  /** Appending one by one, from a file that never reaches its maximum in between. */
  method AppendEach(w: Wal, records: seq<Record>)
    requires !TooLarge(records)
    requires forall i :: 0 <= i < |records| ==> |w.file| + |EncodeAll(w.crc, records[..i])| < w.maxSize
    modifies w
    ensures w.file == old(w.file) + EncodeAll(w.crc, records) && w.previous == old(w.previous)
  {
    hide EncodeRecord;
    for i := 0 to |records|
      invariant w.file == old(w.file) + EncodeAll(w.crc, records[..i]) && w.previous == old(w.previous)
    {
      assert records[..i + 1] == records[..i] + [records[i]];
      EncodeConcat(w.crc, records[..i], [records[i]]);
      EncodeOne(w.crc, records[i]);
      assert |w.file| < w.maxSize;
      var ok := w.Append(records[i].tp, records[i].payload);
    }
    assert records[..|records|] == records;
  }

  // ----- replay -----

  /** Does a complete, valid record stand at `pos`? */
  predicate ValidAt(crc: Checksum, data: Buffer, pos: nat) {
    pos + 4 <= |data| &&
    var total := Number(data, pos, 4);
    5 <= total <= MAX_PAYLOAD + 5 && pos + 4 + total <= |data| &&
    Number(data, pos + 4 + total - 4, 4) == crc(data[pos + 4..pos + 4 + total - 4])
  }

  function RecordAt(crc: Checksum, data: Buffer, pos: nat): (r: Record)
    requires ValidAt(crc, data, pos)
    ensures |r.payload| == Number(data, pos, 4) - 5
  {
    var total := Number(data, pos, 4);
    Record(data[pos + 4], data[pos + 5..pos + 4 + total - 4])
  }

  datatype Replay = Replay(records: seq<Record>, end: nat)

  /** The valid records from `pos` on, up to the first frame that is not one. */
  function ReplayFrom(crc: Checksum, data: Buffer, pos: nat): Replay
    requires pos <= |data|
    decreases |data| - pos
  {
    if !ValidAt(crc, data, pos) then Replay([], pos)
    else
      var more := ReplayFrom(crc, data, pos + 4 + Number(data, pos, 4));
      Replay([RecordAt(crc, data, pos)] + more.records, more.end)
  }

  /** One frame: a partial header or body, an impossible length or a wrong checksum ends replay. */
  method ReadFrame(crc: Checksum, data: Buffer, pos: nat) returns (rec: Option<Record>)
    requires pos <= |data|
    ensures rec == if ValidAt(crc, data, pos) then Some(RecordAt(crc, data, pos)) else None
  {
    if pos + 4 > |data| {
      return None;
    }
    var totalLen := Number(data, pos, 4);
    if totalLen < 5 || totalLen > MAX_PAYLOAD + 5 {
      return None;
    }
    if pos + 4 + totalLen > |data| {
      return None;
    }
    var body := data[pos + 4..pos + 4 + totalLen];
    BodyParts(data, pos, totalLen);
    hide FromLE;
    if FromLE(body[totalLen - 4..]) != crc(body[..totalLen - 4]) {
      return None;
    }
    return Some(Record(body[0], body[1..totalLen - 4]));
  }

  /** The recovery loop. */
  method ReplayWAL(crc: Checksum, data: Buffer) returns (records: seq<Record>, validOffset: nat)
    ensures Replay(records, validOffset) == ReplayFrom(crc, data, 0)
  {
    hide RecordAt;
    records, validOffset := [], 0;
    while true
      invariant validOffset <= |data|
      invariant records + ReplayFrom(crc, data, validOffset).records == ReplayFrom(crc, data, 0).records
      invariant ReplayFrom(crc, data, validOffset).end == ReplayFrom(crc, data, 0).end
      decreases |data| - validOffset
    {
      var rec := ReadFrame(crc, data, validOffset);
      if rec.None? {
        break;
      }
      var next := validOffset + 4 + |rec.value.payload| + 5;
      Reassociate(records, rec.value, ReplayFrom(crc, data, next).records);
      records := records + [rec.value];
      validOffset := next;
    }
  }

  lemma Reassociate<T>(a: seq<T>, x: T, b: seq<T>)
    ensures a + ([x] + b) == a + [x] + b
  {
  }

  lemma BodyParts(data: Buffer, pos: nat, total: nat)
    requires 5 <= total && pos + 4 + total <= |data|
    ensures var body := data[pos + 4..pos + 4 + total];
      && body[total - 4..] == data[pos + 4 + total - 4..pos + 4 + total - 4 + 4]
      && body[..total - 4] == data[pos + 4..pos + 4 + total - 4]
      && body[0] == data[pos + 4] && body[1..total - 4] == data[pos + 5..pos + 4 + total - 4]
  {
  }

  /** An encoded record is valid wherever it stands, and read back. */
  lemma EncodedIsValid(crc: Checksum, data: Buffer, pos: nat, r: Record)
    requires |r.payload| <= MAX_PAYLOAD && Has(data, pos, EncodeRecord(crc, r))
    ensures ValidAt(crc, data, pos) && RecordAt(crc, data, pos) == r
    ensures pos + 4 + Number(data, pos, 4) == pos + |EncodeRecord(crc, r)|
  {
    var body, total := BodyOf(r), |r.payload| + 5;
    hide LE, FromLE;
    PowValues();
    HasSplit(data, pos, LE(total, 4), body + LE(crc(body), 4));
    HasSplit(data, pos + 4, body, LE(crc(body), 4));
    NumberAt(data, pos, total, 4);
    NumberAt(data, pos + 4 + |body|, crc(body), 4);
    assert data[pos + 4..pos + 4 + |body|] == body;
    assert data[pos + 4] == body[0] && data[pos + 5..pos + 4 + |body|] == body[1..];
  }

  /** A valid frame is the encoding of the record read from it. */
  lemma ValidIsEncoded(crc: Checksum, data: Buffer, pos: nat)
    requires ValidAt(crc, data, pos)
    ensures Has(data, pos, EncodeRecord(crc, RecordAt(crc, data, pos)))
    ensures |EncodeRecord(crc, RecordAt(crc, data, pos))| == 4 + Number(data, pos, 4)
  {
    hide LE, FromLE;
    var total, r := Number(data, pos, 4), RecordAt(crc, data, pos);
    var body := BodyOf(r);
    var tail := pos + 4 + total - 4;
    assert body == data[pos + 4..tail];
    LEOfFromLE(data[pos..pos + 4]);
    LEOfFromLE(data[tail..tail + 4]);
    HasSplit(data, pos, LE(total, 4), body + LE(crc(body), 4));
    HasSplit(data, pos + 4, body, LE(crc(body), 4));
  }

  lemma HasShift(data: Buffer, pos: nat, a: Buffer, b: Buffer)
    requires pos <= |data| && data[pos..] == a + b
    ensures Has(data, pos, a) && data[pos + |a|..] == b
  {
    assert data[pos..pos + |a|] == (a + b)[..|a|];
    assert data[pos + |a|..] == (a + b)[|a|..];
  }

  /** Replaying encoded records, followed by anything that does not start with a valid frame,
      gives exactly those records and the offset of their end. */
  lemma {:induction false} ReplayOfEncoded(crc: Checksum, data: Buffer, pos: nat, rs: seq<Record>, rest: Buffer)
    requires pos <= |data| && data[pos..] == EncodeAll(crc, rs) + rest && !TooLarge(rs)
    requires !ValidAt(crc, data, pos + |EncodeAll(crc, rs)|)
    ensures ReplayFrom(crc, data, pos) == Replay(rs, pos + |EncodeAll(crc, rs)|)
    decreases |rs|
  {
    hide EncodeRecord, ValidAt, RecordAt;
    if rs != [] {
      var first, more := EncodeRecord(crc, rs[0]), EncodeAll(crc, rs[1..]);
      assert EncodeAll(crc, rs) + rest == first + (more + rest);
      HasShift(data, pos, first, more + rest);
      EncodedIsValid(crc, data, pos, rs[0]);
      ReplayOfEncoded(crc, data, pos + |first|, rs[1..], rest);
    }
  }

  /** A record whose write was cut short is not valid. */
  lemma CutRecordIsInvalid(crc: Checksum, data: Buffer, pos: nat, r: Record, n: nat)
    requires |r.payload| <= MAX_PAYLOAD && n < |EncodeRecord(crc, r)|
    requires pos <= |data| && data[pos..] == EncodeRecord(crc, r)[..n]
    ensures !ValidAt(crc, data, pos)
  {
    hide LE, FromLE;
    if n >= 4 {
      assert data[pos..pos + 4] == data[pos..][..4] == EncodeRecord(crc, r)[..4] == LE(|r.payload| + 5, 4);
      PowValues();
      NumberAt(data, pos, |r.payload| + 5, 4);
    }
  }

  /** Recovery: after a crash in the middle of writing one more record, replay returns exactly
      the records written before, and the offset where they end. */
  lemma ReplayAfterCrash(crc: Checksum, rs: seq<Record>, r: Record, n: nat)
    requires !TooLarge(rs) && |r.payload| <= MAX_PAYLOAD && n < |EncodeRecord(crc, r)|
    ensures ReplayFrom(crc, EncodeAll(crc, rs) + EncodeRecord(crc, r)[..n], 0) == Replay(rs, |EncodeAll(crc, rs)|)
  {
    hide EncodeRecord, ValidAt, EncodeAll, ReplayFrom;
    var whole, cut := EncodeAll(crc, rs), EncodeRecord(crc, r)[..n];
    var data := whole + cut;
    assert data[0..] == whole + cut && data[|whole|..] == cut;
    CutRecordIsInvalid(crc, data, |whole|, r, n);
    ReplayOfEncoded(crc, data, 0, rs, cut);
  }

  /** Whatever bytes the file holds, what replay returns is what the bytes up to the offset
      encode, and truncating the file there loses no valid record. */
  lemma {:induction false} ReplayIsEncoded(crc: Checksum, data: Buffer, pos: nat)
    requires pos <= |data|
    ensures var r := ReplayFrom(crc, data, pos);
      && pos <= r.end <= |data| && data[pos..r.end] == EncodeAll(crc, r.records)
      && !TooLarge(r.records) && !ValidAt(crc, data, r.end)
    decreases |data| - pos
  {
    hide EncodeRecord, RecordAt, LE, FromLE;
    if ValidAt(crc, data, pos) {
      var next := pos + 4 + Number(data, pos, 4);
      ReplayIsEncoded(crc, data, next);
      ValidIsEncoded(crc, data, pos);
      var more := ReplayFrom(crc, data, next);
      var all := [RecordAt(crc, data, pos)] + more.records;
      assert all[1..] == more.records;
      assert data[pos..more.end] == data[pos..next] + data[next..more.end];
    }
  }
}
