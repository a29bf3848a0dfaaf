/** The segment file: header, column blocks, footer, footer offset. */
module SegmentFiles {
  import opened Keys
  import opened SortedEntries
  import opened Bytes

  const MAGIC: nat := 0x57494442
  const VERSION: nat := 1
  const MAX_STAT: nat := 0x10_0000
  const MAX_BLOOM: nat := 0x100_0000
  const MAX_RAW_KEYS: nat := 0x400_0000

  datatype Column = Column(encoding: byte, typ: byte, rowCount: nat, nulls: Buffer, data: Buffer, offsets: seq<nat>, dict: seq<Str>)

  datatype ColumnStat = ColumnStat(columnID: nat, min: Buffer, max: Buffer, nullCount: nat)

  datatype Footer = Footer(stats: seq<ColumnStat>, bloom: Buffer, rawKeys: Buffer, indexOffset: int)

  /** Length, then the bytes. */
  function Prefixed(b: Buffer): (r: Buffer)
    ensures |r| == 4 + |b|
  {
    LE(|b|, 4) + b
  }

  function PrefixedAll(bs: seq<Buffer>): Buffer {
    if bs == [] then [] else Prefixed(bs[0]) + PrefixedAll(bs[1..])
  }

  function NumbersBytes(ns: seq<nat>): (r: Buffer)
    ensures |r| == 4 * |ns|
  {
    if ns == [] then [] else LE(ns[0], 4) + NumbersBytes(ns[1..])
  }

  // ----- column blocks -----

  function ArraysBytes(c: Column): Buffer {
    LE(|c.offsets|, 4) + (NumbersBytes(c.offsets) + (LE(|c.dict|, 4) + PrefixedAll(c.dict)))
  }

  function BlockTail(c: Column): Buffer {
    Prefixed(c.nulls) + (Prefixed(c.data) + ArraysBytes(c))
  }

  function BlockHead(colID: nat, c: Column): (r: Buffer)
    ensures |r| == 11
  {
    LE(colID, 4) + ([c.encoding, 0, c.typ] + LE(c.rowCount, 4))
  }

  function ColumnBlock(colID: nat, c: Column): Buffer {
    BlockHead(colID, c) + BlockTail(c)
  }

  function ReadPrefixed(data: Buffer, pos: nat): (r: Read<Buffer>)
    ensures r.Got? ==> pos + 4 <= r.next <= |data|
  {
    var n := ReadNumber(data, pos, 4);
    if n.Bad? then Bad else ReadBytes(data, n.next, n.value)
  }

  function ReadNumbers(data: Buffer, pos: nat, n: nat): (r: Read<seq<nat>>)
    ensures r.Got? ==> r.next == pos + 4 * n && (n > 0 ==> r.next <= |data|)
    decreases n
  {
    if n == 0 then Got([], pos)
    else
      var x := ReadNumber(data, pos, 4);
      if x.Bad? then Bad
      else
        var more := ReadNumbers(data, x.next, n - 1);
        if more.Bad? then Bad else Got([x.value] + more.value, more.next)
  }

  function ReadStrings(data: Buffer, pos: nat, n: nat): (r: Read<seq<Buffer>>)
    ensures r.Got? ==> pos + 4 * n <= r.next && (n > 0 ==> r.next <= |data|)
    decreases n
  {
    if n == 0 then Got([], pos)
    else
      var x := ReadPrefixed(data, pos);
      if x.Bad? then Bad
      else
        var more := ReadStrings(data, x.next, n - 1);
        if more.Bad? then Bad else Got([x.value] + more.value, more.next)
  }

  datatype Arrays = Arrays(offsets: seq<nat>, dict: seq<Str>)

  function ReadArrays(data: Buffer, pos: nat): (r: Read<Arrays>)
    ensures r.Got? ==> pos + 8 <= r.next <= |data|
  {
    var count := ReadNumber(data, pos, 4);
    if count.Bad? then Bad
    else
      var offsets := ReadNumbers(data, count.next, count.value);
      if offsets.Bad? then Bad
      else
        var dictLen := ReadNumber(data, offsets.next, 4);
        if dictLen.Bad? then Bad
        else
          var dict := ReadStrings(data, dictLen.next, dictLen.value);
          if dict.Bad? then Bad else Got(Arrays(offsets.value, dict.value), dict.next)
  }

  /** The column block at the start of `data`. */
  function ReadBlock(data: Buffer): (r: Read<Column>)
    ensures r.Got? ==> 27 <= r.next <= |data|
  {
    if |data| < 16 then Bad
    else
      var nulls := ReadPrefixed(data, 11);
      if nulls.Bad? then Bad
      else
        var body := ReadPrefixed(data, nulls.next);
        if body.Bad? then Bad
        else
          var arrays := ReadArrays(data, body.next);
          if arrays.Bad? then Bad
          else Got(Column(data[4], data[6], Number(data, 7, 4), nulls.value, body.value, arrays.value.offsets, arrays.value.dict), arrays.next)
  }

  /** Lengths and counts the 32-bit fields can hold. */
  ghost predicate SizedColumn(c: Column) {
    && c.rowCount < TWO32 && |c.nulls| < TWO32 && |c.data| < TWO32 && |c.offsets| < TWO32 && |c.dict| < TWO32
    && (forall i :: 0 <= i < |c.offsets| ==> c.offsets[i] < TWO32)
    && (forall i :: 0 <= i < |c.dict| ==> |c.dict[i]| < TWO32)
  }

  lemma PrefixedReads(data: Buffer, pos: nat, b: Buffer)
    requires Has(data, pos, Prefixed(b)) && |b| < TWO32
    ensures ReadPrefixed(data, pos) == Got(b, pos + |Prefixed(b)|)
  {
    hide Has, LE;
    PowValues();
    HasSplit(data, pos, LE(|b|, 4), b);
    ReadsNumber(data, pos, |b|, 4);
    ReadsBytes(data, pos + 4, b);
  }

  lemma {:induction false} NumbersRead(data: Buffer, pos: nat, ns: seq<nat>)
    requires Has(data, pos, NumbersBytes(ns)) && forall i :: 0 <= i < |ns| ==> ns[i] < TWO32
    ensures ReadNumbers(data, pos, |ns|) == Got(ns, pos + |NumbersBytes(ns)|)
    decreases |ns|
  {
    hide Has, LE, ReadNumber;
    PowValues();
    if ns != [] {
      HasSplit(data, pos, LE(ns[0], 4), NumbersBytes(ns[1..]));
      ReadsNumber(data, pos, ns[0], 4);
      assert ns == [ns[0]] + ns[1..];
      NumbersRead(data, pos + 4, ns[1..]);
    }
  }

  lemma {:induction false} StringsRead(data: Buffer, pos: nat, bs: seq<Buffer>)
    requires Has(data, pos, PrefixedAll(bs)) && forall i :: 0 <= i < |bs| ==> |bs[i]| < TWO32
    ensures ReadStrings(data, pos, |bs|) == Got(bs, pos + |PrefixedAll(bs)|)
    decreases |bs|
  {
    hide Has, Prefixed, ReadPrefixed;
    if bs != [] {
      HasSplit(data, pos, Prefixed(bs[0]), PrefixedAll(bs[1..]));
      PrefixedReads(data, pos, bs[0]);
      assert bs == [bs[0]] + bs[1..];
      StringsRead(data, pos + |Prefixed(bs[0])|, bs[1..]);
    }
  }

  lemma HeadReads(data: Buffer, colID: nat, c: Column)
    requires Has(data, 0, BlockHead(colID, c)) && c.rowCount < TWO32
    ensures 11 <= |data| && data[4] == c.encoding && data[6] == c.typ && Number(data, 7, 4) == c.rowCount
  {
    hide LE, FromLE;
    PowValues();
    HasSplit(data, 0, LE(colID, 4), [c.encoding, 0, c.typ] + LE(c.rowCount, 4));
    HasSplit(data, 4, [c.encoding, 0, c.typ], LE(c.rowCount, 4));
    NumberAt(data, 7, c.rowCount, 4);
    assert data[4..7][0] == c.encoding && data[4..7][2] == c.typ;
  }

  lemma ArraysRead(data: Buffer, pos: nat, c: Column)
    requires Has(data, pos, ArraysBytes(c)) && SizedColumn(c)
    ensures ReadArrays(data, pos) == Got(Arrays(c.offsets, c.dict), pos + |ArraysBytes(c)|)
  {
    hide Has, LE, NumbersBytes, PrefixedAll, ReadNumbers, ReadStrings, ReadNumber;
    PowValues();
    var o, d := NumbersBytes(c.offsets), PrefixedAll(c.dict);
    HasSplit(data, pos, LE(|c.offsets|, 4), o + (LE(|c.dict|, 4) + d));
    HasSplit(data, pos + 4, o, LE(|c.dict|, 4) + d);
    HasSplit(data, pos + 4 + |o|, LE(|c.dict|, 4), d);
    ReadsNumber(data, pos, |c.offsets|, 4);
    NumbersRead(data, pos + 4, c.offsets);
    ReadsNumber(data, pos + 4 + |o|, |c.dict|, 4);
    StringsRead(data, pos + 8 + |o|, c.dict);
  }

  /** A written block reads back, and the reader stops exactly at its end. */
  lemma BlockReads(data: Buffer, colID: nat, c: Column)
    requires Has(data, 0, ColumnBlock(colID, c)) && SizedColumn(c)
    ensures ReadBlock(data) == Got(c, |ColumnBlock(colID, c)|)
  {
    hide Has, Prefixed, ArraysBytes, ReadPrefixed, ReadArrays, BlockHead, Number;
    HeadAndTail(data, colID, c);
    HeadReads(data, colID, c);
    var p1 := 11 + |Prefixed(c.nulls)|;
    HasSplit(data, 11, Prefixed(c.nulls), Prefixed(c.data) + ArraysBytes(c));
    HasSplit(data, p1, Prefixed(c.data), ArraysBytes(c));
    PrefixedReads(data, 11, c.nulls);
    PrefixedReads(data, p1, c.data);
    ArraysRead(data, p1 + |Prefixed(c.data)|, c);
  }

  lemma HeadAndTail(data: Buffer, colID: nat, c: Column)
    requires Has(data, 0, ColumnBlock(colID, c))
    ensures Has(data, 0, BlockHead(colID, c)) && Has(data, 11, BlockTail(c)) && |data| >= 27
    ensures |ColumnBlock(colID, c)| == 11 + |BlockTail(c)|
  {
    HasSplit(data, 0, BlockHead(colID, c), BlockTail(c));
    hide LE, BlockHead;
  }

  // ----- skipping a block -----

  /** The number at `off`, or zero when it does not fit. */
  function LengthAt(data: Buffer, off: nat): nat {
    if off + 4 <= |data| then Number(data, off, 4) else 0
  }

  function SkipStrings(data: Buffer, off: nat, n: nat): nat
    decreases n
  {
    if n == 0 || off + 4 > |data| then off
    else SkipStrings(data, off + 4 + Number(data, off, 4), n - 1)
  }

  function SkipLength(data: Buffer): nat {
    var nullsEnd := 11 + 4 + LengthAt(data, 11);
    var dataEnd := nullsEnd + 4 + LengthAt(data, nullsEnd);
    var offsetsEnd := dataEnd + 4 + LengthAt(data, dataEnd) * 4;
    SkipStrings(data, offsetsEnd + 4, LengthAt(data, offsetsEnd))
  }

  method SkipColumnBlock(data: Buffer) returns (nextOff: nat)
    ensures nextOff == SkipLength(data)
  {
    hide Number;
    nextOff := 4 + 1 + 1 + 1 + 4;
    nextOff := nextOff + 4 + LengthAt(data, nextOff);
    nextOff := nextOff + 4 + LengthAt(data, nextOff);
    nextOff := nextOff + 4 + LengthAt(data, nextOff) * 4;
    var dictLen := LengthAt(data, nextOff);
    nextOff := nextOff + 4;
    var i := 0;
    while i < dictLen
      invariant i <= dictLen && SkipStrings(data, nextOff, dictLen - i) == SkipLength(data)
    {
      if nextOff + 4 > |data| {
        break;
      }
      nextOff := nextOff + 4 + Number(data, nextOff, 4);
      i := i + 1;
    }
  }

  lemma {:induction false} SkipFollowsStrings(data: Buffer, pos: nat, n: nat)
    requires ReadStrings(data, pos, n).Got?
    ensures SkipStrings(data, pos, n) == ReadStrings(data, pos, n).next
    decreases n
  {
    hide Number;
    if n > 0 {
      SkipFollowsStrings(data, ReadPrefixed(data, pos).next, n - 1);
    }
  }

  /** On any bytes the reader accepts, skipping advances exactly as far as reading. */
  lemma SkipIsRead(data: Buffer)
    requires ReadBlock(data).Got?
    ensures SkipLength(data) == ReadBlock(data).next
  {
    hide Number, ReadStrings, SkipStrings, ReadNumbers;
    var nulls := ReadPrefixed(data, 11);
    var body := ReadPrefixed(data, nulls.next);
    var offsets := ReadNumbers(data, body.next + 4, Number(data, body.next, 4));
    SkipFollowsStrings(data, offsets.next + 4, Number(data, offsets.next, 4));
  }

  // ----- all columns -----

  function BlocksFrom(cs: seq<Column>, i: nat): Buffer {
    if cs == [] then [] else ColumnBlock(i, cs[0]) + BlocksFrom(cs[1..], i + 1)
  }

  lemma {:induction false} BlocksConcat(a: seq<Column>, b: seq<Column>, i: nat)
    ensures BlocksFrom(a + b, i) == BlocksFrom(a, i) + BlocksFrom(b, i + |a|)
  {
    hide ColumnBlock;
    if a == [] {
      assert a + b == b;
    } else {
      assert (a + b)[1..] == a[1..] + b;
      BlocksConcat(a[1..], b, i + 1);
    }
  }

  /** The columns between two positions; the next block starts where skipping ends. */
  function ColumnsBetween(data: Buffer, pos: nat, end: nat): Option<seq<Column>>
    requires end <= |data|
    decreases end - pos
  {
    if pos >= end then Some([])
    else
      var c := ReadBlock(data[pos..end]);
      if c.Bad? then None
      else
        SkipIsRead(data[pos..end]);
        var more := ColumnsBetween(data, pos + SkipLength(data[pos..end]), end);
        if more.None? then None else Some([c.value] + more.value)
  }

  method ReadColumns(data: Buffer, columnsEnd: nat) returns (columns: Option<seq<Column>>)
    requires columnsEnd <= |data|
    ensures columns == ColumnsBetween(data, 6, columnsEnd)
  {
    hide ReadBlock, SkipLength;
    var out: seq<Column>, colPos := [], 6;
    ghost var all := ColumnsBetween(data, 6, columnsEnd);
    while colPos < columnsEnd
      invariant all.None? <==> ColumnsBetween(data, colPos, columnsEnd).None?
      invariant all.Some? ==> all.value == out + ColumnsBetween(data, colPos, columnsEnd).value
      decreases columnsEnd - colPos
    {
      var col := ReadBlock(data[colPos..columnsEnd]);
      if col.Bad? {
        return None;
      }
      SkipIsRead(data[colPos..columnsEnd]);
      var nextOff := SkipColumnBlock(data[colPos..columnsEnd]);
      if all.Some? {
        ghost var more := ColumnsBetween(data, colPos + nextOff, columnsEnd).value;
        assert out + ([col.value] + more) == out + [col.value] + more;
      }
      out := out + [col.value];
      colPos := colPos + nextOff;
    }
    assert out + [] == out;
    return Some(out);
  }

  lemma HasSlice(data: Buffer, pos: nat, end: nat, a: Buffer, b: Buffer)
    requires pos <= end <= |data| && data[pos..end] == a + b
    ensures Has(data[pos..end], 0, a) && pos + |a| <= end && data[pos + |a|..end] == b
  {
    assert data[pos + |a|..end] == (a + b)[|a|..];
  }

  lemma {:induction false} ColumnsRead(data: Buffer, pos: nat, end: nat, cs: seq<Column>, i: nat)
    requires pos <= end <= |data| && data[pos..end] == BlocksFrom(cs, i)
    requires forall j :: 0 <= j < |cs| ==> SizedColumn(cs[j])
    ensures ColumnsBetween(data, pos, end) == Some(cs)
    decreases |cs|
  {
    hide ColumnBlock, SizedColumn, ReadBlock, SkipLength;
    if cs != [] {
      var block := ColumnBlock(i, cs[0]);
      HasSlice(data, pos, end, block, BlocksFrom(cs[1..], i + 1));
      BlockReads(data[pos..end], i, cs[0]);
      assert cs == [cs[0]] + cs[1..];
      SkipIsRead(data[pos..end]);
      ColumnsRead(data, pos + |block|, end, cs[1..], i + 1);
    }
  }

  // ----- footer -----

  function StatBytes(x: ColumnStat): Buffer {
    LE(x.columnID, 4) + (Prefixed(x.min) + (Prefixed(x.max) + LE(x.nullCount, 4)))
  }

  function StatsBytes(xs: seq<ColumnStat>): Buffer {
    if xs == [] then [] else StatBytes(xs[0]) + StatsBytes(xs[1..])
  }

  function FooterBytes(f: Footer): Buffer
    requires -TWO63 <= f.indexOffset < TWO63
  {
    LE(|f.stats|, 4) + (StatsBytes(f.stats) + (Prefixed(f.bloom) + (Prefixed(f.rawKeys) + Int64Bytes(f.indexOffset))))
  }

  /** A prefixed byte string of at most `max` bytes. */
  function ReadCapped(data: Buffer, pos: nat, max: nat): (r: Read<Buffer>)
    ensures r.Got? ==> pos + 4 <= r.next <= |data|
  {
    var n := ReadNumber(data, pos, 4);
    if n.Bad? || n.value > max then Bad else ReadBytes(data, n.next, n.value)
  }

  function ReadStat(data: Buffer, pos: nat): (r: Read<ColumnStat>)
    ensures r.Got? ==> pos < r.next <= |data|
  {
    var id := ReadNumber(data, pos, 4);
    if id.Bad? then Bad
    else
      var lo := ReadCapped(data, id.next, MAX_STAT);
      if lo.Bad? then Bad
      else
        var hi := ReadCapped(data, lo.next, MAX_STAT);
        if hi.Bad? then Bad
        else
          var nulls := ReadNumber(data, hi.next, 4);
          if nulls.Bad? then Bad else Got(ColumnStat(id.value, lo.value, hi.value, nulls.value), nulls.next)
  }

  function ReadStats(data: Buffer, pos: nat, n: nat): Read<seq<ColumnStat>>
    decreases n
  {
    if n == 0 then Got([], pos)
    else
      var x := ReadStat(data, pos);
      if x.Bad? then Bad
      else
        var more := ReadStats(data, x.next, n - 1);
        if more.Bad? then Bad else Got([x.value] + more.value, more.next)
  }

  /** A missing length reads as no keys at all. */
  function ReadRawKeys(data: Buffer, pos: nat): Read<Buffer> {
    if pos + 4 > |data| then Got([], pos) else ReadCapped(data, pos, MAX_RAW_KEYS)
  }

  function ReadFooter(data: Buffer): Option<Footer> {
    var n := ReadNumber(data, 0, 4);
    if n.Bad? then None
    else
      var stats := ReadStats(data, 4, n.value);
      if stats.Bad? then None
      else
        var bloom := ReadCapped(data, stats.next, MAX_BLOOM);
        if bloom.Bad? then None
        else
          var keys := ReadRawKeys(data, bloom.next);
          if keys.Bad? || keys.next + 8 > |data| then None
          else Some(Footer(stats.value, bloom.value, keys.value, Int64Of(data[keys.next..keys.next + 8])))
  }

  ghost predicate SizedStat(x: ColumnStat) {
    x.columnID < TWO32 && |x.min| < TWO32 && |x.max| < TWO32 && x.nullCount < TWO32
  }

  ghost predicate SizedFooter(f: Footer) {
    && |f.stats| < TWO32 && |f.bloom| < TWO32 && |f.rawKeys| < TWO32 && -TWO63 <= f.indexOffset < TWO63
    && forall i :: 0 <= i < |f.stats| ==> SizedStat(f.stats[i])
  }

  ghost predicate StatWithinLimits(x: ColumnStat) {
    |x.min| <= MAX_STAT && |x.max| <= MAX_STAT
  }

  /** What the reader accepts: statistics up to 1 MB, a filter up to 16 MB, keys up to 64 MB. */
  ghost predicate WithinLimits(f: Footer) {
    && |f.bloom| <= MAX_BLOOM && |f.rawKeys| <= MAX_RAW_KEYS
    && forall i :: 0 <= i < |f.stats| ==> StatWithinLimits(f.stats[i])
  }

  lemma CappedReads(data: Buffer, pos: nat, b: Buffer, max: nat)
    requires Has(data, pos, Prefixed(b)) && |b| < TWO32
    ensures ReadCapped(data, pos, max) == if |b| <= max then Got(b, pos + |Prefixed(b)|) else Bad
  {
    hide Has, LE;
    PowValues();
    HasSplit(data, pos, LE(|b|, 4), b);
    ReadsNumber(data, pos, |b|, 4);
    ReadsBytes(data, pos + 4, b);
  }

  lemma StatReads(data: Buffer, pos: nat, x: ColumnStat)
    requires Has(data, pos, StatBytes(x)) && SizedStat(x)
    ensures ReadStat(data, pos) == if StatWithinLimits(x) then Got(x, pos + |StatBytes(x)|) else Bad
  {
    hide Has, LE, Prefixed, ReadCapped, ReadNumber;
    PowValues();
    var p1 := pos + 4 + |Prefixed(x.min)|;
    var p2 := p1 + |Prefixed(x.max)|;
    HasSplit(data, pos, LE(x.columnID, 4), Prefixed(x.min) + (Prefixed(x.max) + LE(x.nullCount, 4)));
    HasSplit(data, pos + 4, Prefixed(x.min), Prefixed(x.max) + LE(x.nullCount, 4));
    HasSplit(data, p1, Prefixed(x.max), LE(x.nullCount, 4));
    ReadsNumber(data, pos, x.columnID, 4);
    CappedReads(data, pos + 4, x.min, MAX_STAT);
    CappedReads(data, p1, x.max, MAX_STAT);
    ReadsNumber(data, p2, x.nullCount, 4);
  }

  ghost predicate AllStatsWithin(xs: seq<ColumnStat>) {
    forall i :: 0 <= i < |xs| ==> StatWithinLimits(xs[i])
  }

  lemma StatsWithinCons(xs: seq<ColumnStat>)
    requires xs != []
    ensures AllStatsWithin(xs) <==> StatWithinLimits(xs[0]) && AllStatsWithin(xs[1..])
  {
    hide StatWithinLimits;
    if StatWithinLimits(xs[0]) && AllStatsWithin(xs[1..]) {
      forall i | 0 <= i < |xs| ensures StatWithinLimits(xs[i]) {
        if i > 0 { assert xs[1..][i - 1] == xs[i]; }
      }
    }
  }

  lemma {:induction false} StatsRead(data: Buffer, pos: nat, xs: seq<ColumnStat>)
    requires Has(data, pos, StatsBytes(xs)) && forall i :: 0 <= i < |xs| ==> SizedStat(xs[i])
    ensures ReadStats(data, pos, |xs|) == if AllStatsWithin(xs) then Got(xs, pos + |StatsBytes(xs)|) else Bad
    decreases |xs|
  {
    hide Has, StatBytes, ReadStat, SizedStat, StatWithinLimits;
    if xs != [] {
      HasSplit(data, pos, StatBytes(xs[0]), StatsBytes(xs[1..]));
      StatReads(data, pos, xs[0]);
      StatsWithinCons(xs);
      StatsRead(data, pos + |StatBytes(xs[0])|, xs[1..]);
      assert xs == [xs[0]] + xs[1..];
      hide AllStatsWithin;
    }
  }

  /** The footer reads back exactly when it is within the reader's limits; one beyond them is
      written all the same and then refused. */
  lemma FooterReads(f: Footer)
    requires SizedFooter(f)
    ensures ReadFooter(FooterBytes(f)) == if WithinLimits(f) then Some(f) else None
  {
    hide Has, LE, Prefixed, StatsBytes, ReadStats, ReadCapped, ReadNumber, Int64Bytes, Int64Of, SizedStat, AllStatsWithin,
      StatWithinLimits, WithinLimits;
    var data := FooterBytes(f);
    PowValues();
    var p1 := 4 + |StatsBytes(f.stats)|;
    var p2 := p1 + |Prefixed(f.bloom)|;
    var p3 := p2 + |Prefixed(f.rawKeys)|;
    FiveParts(LE(|f.stats|, 4), StatsBytes(f.stats), Prefixed(f.bloom), Prefixed(f.rawKeys), Int64Bytes(f.indexOffset));
    ReadsNumber(data, 0, |f.stats|, 4);
    StatsRead(data, 4, f.stats);
    CappedReads(data, p1, f.bloom, MAX_BLOOM);
    CappedReads(data, p2, f.rawKeys, MAX_RAW_KEYS);
    Int64RoundTrip(f.indexOffset);
    HasMeans(data, p3, Int64Bytes(f.indexOffset));
    StatsLimits(f);
  }

  /** Where five parts stand in their concatenation. */
  lemma FiveParts(a: Buffer, b: Buffer, c: Buffer, d: Buffer, e: Buffer)
    ensures var data := a + (b + (c + (d + e)));
      && Has(data, 0, a) && Has(data, |a|, b) && Has(data, |a| + |b|, c)
      && Has(data, |a| + |b| + |c|, d) && Has(data, |a| + |b| + |c| + |d|, e)
      && |data| == |a| + |b| + |c| + |d| + |e|
  {
    hide Has;
    var data := a + (b + (c + (d + e)));
    HasAll(data);
    HasSplit(data, 0, a, b + (c + (d + e)));
    HasSplit(data, |a|, b, c + (d + e));
    HasSplit(data, |a| + |b|, c, d + e);
    HasSplit(data, |a| + |b| + |c|, d, e);
  }

  lemma HasMeans(data: Buffer, pos: nat, e: Buffer)
    requires Has(data, pos, e)
    ensures pos + |e| <= |data| && data[pos..pos + |e|] == e
  {
  }

  lemma StatsLimits(f: Footer)
    ensures WithinLimits(f) <==> |f.bloom| <= MAX_BLOOM && |f.rawKeys| <= MAX_RAW_KEYS && AllStatsWithin(f.stats)
  {
  }

  // ----- keys -----

  function KeysBytes(keys: seq<Key>): Buffer {
    if keys == [] then [] else LE(|keys|, 4) + PrefixedAll(keys)
  }

  lemma {:induction false} PrefixedConcat(a: seq<Buffer>, b: seq<Buffer>)
    ensures PrefixedAll(a + b) == PrefixedAll(a) + PrefixedAll(b)
  {
    hide Prefixed;
    if a == [] {
      assert a + b == b;
    } else {
      assert (a + b)[1..] == a[1..] + b;
      PrefixedConcat(a[1..], b);
    }
  }

  method SerializeKeys(keys: seq<Key>) returns (buf: Buffer)
    ensures buf == KeysBytes(keys)
  {
    hide LE;
    if |keys| == 0 {
      return [];
    }
    buf := LE(|keys|, 4);
    for i := 0 to |keys|
      invariant buf == LE(|keys|, 4) + PrefixedAll(keys[..i])
    {
      assert keys[..i + 1] == keys[..i] + [keys[i]];
      PrefixedConcat(keys[..i], [keys[i]]);
      OnePrefixed(keys[i]);
      buf := buf + LE(|keys[i]|, 4);
      buf := buf + keys[i];
    }
    assert keys[..|keys|] == keys;
  }

  lemma OnePrefixed(b: Buffer)
    ensures PrefixedAll([b]) == LE(|b|, 4) + b
  {
    hide LE;
    assert [b][1..] == [];
    assert PrefixedAll([b]) == Prefixed(b) + PrefixedAll([]);
  }

  /** Up to `n` keys; reading stops quietly at the first that is cut short. */
  function KeysFrom(data: Buffer, pos: nat, n: nat): seq<Key>
    decreases n
  {
    if n == 0 then []
    else
      var k := ReadPrefixed(data, pos);
      if k.Bad? then [] else [k.value] + KeysFrom(data, k.next, n - 1)
  }

  function KeysOf(data: Buffer): seq<Key> {
    if |data| < 4 then [] else KeysFrom(data, 4, Number(data, 0, 4))
  }

  method DeserializeKeys(data: Buffer) returns (keys: seq<Key>)
    ensures keys == KeysOf(data)
  {
    hide Number;
    keys := [];
    if |data| < 4 {
      return;
    }
    var count: nat, pos: nat := Number(data, 0, 4), 4;
    for i := 0 to count
      invariant keys + KeysFrom(data, pos, count - i) == KeysOf(data)
    {
      if pos + 4 > |data| {
        return;
      }
      var kLen := Number(data, pos, 4);
      pos := pos + 4;
      if pos + kLen > |data| {
        return;
      }
      var key := data[pos..pos + kLen];
      assert keys + ([key] + KeysFrom(data, pos + kLen, count - i - 1)) == keys + [key] + KeysFrom(data, pos + kLen, count - i - 1);
      keys := keys + [key];
      pos := pos + kLen;
    }
  }

  lemma {:induction false} KeysRead(data: Buffer, pos: nat, keys: seq<Key>)
    requires Has(data, pos, PrefixedAll(keys)) && forall i :: 0 <= i < |keys| ==> |keys[i]| < TWO32
    ensures KeysFrom(data, pos, |keys|) == keys
    decreases |keys|
  {
    hide Has, Prefixed, ReadPrefixed;
    if keys != [] {
      HasSplit(data, pos, Prefixed(keys[0]), PrefixedAll(keys[1..]));
      PrefixedReads(data, pos, keys[0]);
      KeysRead(data, pos + |Prefixed(keys[0])|, keys[1..]);
      assert keys == [keys[0]] + keys[1..];
    }
  }

  /** The keys come back in order. */
  lemma KeysRoundTrip(keys: seq<Key>)
    requires |keys| < TWO32 && forall i :: 0 <= i < |keys| ==> |keys[i]| < TWO32
    ensures KeysOf(KeysBytes(keys)) == keys
  {
    if keys != [] {
      var data := KeysBytes(keys);
      hide Has, LE, PrefixedAll, KeysFrom;
      PowValues();
      HasAll(data);
      HasSplit(data, 0, LE(|keys|, 4), PrefixedAll(keys));
      NumberAt(data, 0, |keys|, 4);
      KeysRead(data, 4, keys);
    }
  }

  // ----- the file -----

  datatype Segment = Segment(columns: seq<Column>, footer: Footer)

  datatype Loaded = Loaded(columns: seq<Column>, footer: Footer, keys: seq<Key>, rowCount: nat)

  function Header(): (r: Buffer)
    ensures |r| == 6
  {
    LE(MAGIC, 4) + LE(VERSION, 2)
  }

  function FileBytes(x: Segment): Buffer
    requires -TWO63 <= x.footer.indexOffset < TWO63
  {
    var footer, blocks := FooterBytes(x.footer), BlocksFrom(x.columns, 0);
    Header() + (blocks + (LE(|footer|, 4) + (footer + LE(6 + |blocks| + 4, 8))))
  }

  method Serialize(x: Segment) returns (buf: Buffer)
    requires -TWO63 <= x.footer.indexOffset < TWO63
    ensures buf == FileBytes(x)
  {
    hide LE, ColumnBlock, FooterBytes;
    buf := LE(MAGIC, 4);
    buf := buf + LE(VERSION, 2);
    for i := 0 to |x.columns|
      invariant buf == Header() + BlocksFrom(x.columns[..i], 0)
    {
      assert x.columns[..i + 1] == x.columns[..i] + [x.columns[i]];
      BlocksConcat(x.columns[..i], [x.columns[i]], 0);
      OneBlock(x.columns[i], i);
      buf := buf + ColumnBlock(i, x.columns[i]);
    }
    assert x.columns[..|x.columns|] == x.columns;
    ghost var blocks := BlocksFrom(x.columns, 0);
    var footerBytes := FooterBytes(x.footer);
    buf := buf + LE(|footerBytes|, 4);
    buf := buf + footerBytes;
    var footerOffset := |buf| - |footerBytes|;
    buf := buf + LE(footerOffset, 8);
    assert footerOffset == 6 + |blocks| + 4;
    assert Header() + blocks + LE(|footerBytes|, 4) + footerBytes + LE(footerOffset, 8)
        == Header() + (blocks + (LE(|footerBytes|, 4) + (footerBytes + LE(footerOffset, 8))));
  }

  lemma OneBlock(c: Column, i: nat)
    ensures BlocksFrom([c], i) == ColumnBlock(i, c)
  {
    hide ColumnBlock;
    assert [c][1..] == [];
    assert BlocksFrom([c], i) == ColumnBlock(i, c) + BlocksFrom([], i + 1);
  }

  /** Reading a file: None stands for each of the reader's errors. */
  function Deserialize(data: Buffer): Option<Loaded> {
    if |data| < 22 || Number(data, 0, 4) != MAGIC then None
    else
      var tail := |data| - 8;
      var offset := Int64Of(data[tail..tail + 8]);
      if offset < 4 || offset > tail then None
      else
        var end := offset + Number(data, offset - 4, 4);
        if end > tail then None
        else
          var footer := ReadFooter(data[offset..end]);
          if footer.None? then None
          else
            var columns := ColumnsBetween(data, 6, offset - 4);
            if columns.None? then None
            else Some(Loaded(columns.value, footer.value, KeysOf(footer.value.rawKeys),
              if columns.value == [] then 0 else columns.value[0].rowCount))
  }

  ghost predicate SizedSegment(x: Segment) {
    && SizedFooter(x.footer) && |FooterBytes(x.footer)| < TWO32 && |FileBytes(x)| < TWO63
    && forall i :: 0 <= i < |x.columns| ==> SizedColumn(x.columns[i])
  }

  /** Where the parts of a file stand. */
  lemma FileParts(x: Segment)
    requires SizedSegment(x)
    ensures var data, f, blocks := FileBytes(x), FooterBytes(x.footer), BlocksFrom(x.columns, 0);
      var offset := 10 + |blocks|;
      && |data| == offset + |f| + 8 && |f| >= 20
      && Has(data, 0, LE(MAGIC, 4)) && Has(data, 6, blocks) && Has(data, offset - 4, LE(|f|, 4))
      && Has(data, offset, f) && Has(data, offset + |f|, LE(offset, 8))
  {
    hide Has, LE, FooterBytes, BlocksFrom;
    var f, blocks := FooterBytes(x.footer), BlocksFrom(x.columns, 0);
    FooterLength(x.footer);
    FiveParts(Header(), blocks, LE(|f|, 4), f, LE(10 + |blocks|, 8));
    HasSplit(FileBytes(x), 0, LE(MAGIC, 4), LE(VERSION, 2));
  }

  lemma FooterLength(f: Footer)
    requires -TWO63 <= f.indexOffset < TWO63
    ensures |FooterBytes(f)| >= 20
  {
    hide LE, StatsBytes, Prefixed, Int64Bytes;
  }

  lemma OffsetReads(data: Buffer, pos: nat, offset: nat)
    requires Has(data, pos, LE(offset, 8)) && offset < TWO63
    ensures Int64Of(data[pos..pos + 8]) == offset
  {
    RoundTrip64(offset);
    assert Unsigned(offset) == offset;
  }

  /** A segment file reads back: the same columns and footer, the footer's keys and the first
      column's row count. It is refused exactly when the footer is beyond the reader's limits. */
  lemma SegmentRoundTrip(x: Segment)
    requires SizedSegment(x)
    ensures Deserialize(FileBytes(x)) ==
      if WithinLimits(x.footer) then
        Some(Loaded(x.columns, x.footer, KeysOf(x.footer.rawKeys), if x.columns == [] then 0 else x.columns[0].rowCount))
      else None
  {
    hide LE, FooterBytes, BlocksFrom, FileBytes, SizedColumn, ReadFooter, WithinLimits, KeysOf, Int64Of, Number, Has,
      ColumnsBetween, StatsBytes;
    var data, f, blocks := FileBytes(x), FooterBytes(x.footer), BlocksFrom(x.columns, 0);
    var offset := 10 + |blocks|;
    FileParts(x);
    FooterReads(x.footer);
    PowValues();
    NumberAt(data, 0, MAGIC, 4);
    NumberAt(data, offset - 4, |f|, 4);
    OffsetReads(data, offset + |f|, offset);
    HasMeans(data, 6, blocks);
    HasMeans(data, offset, f);
    ColumnsRead(data, 6, offset - 4, x.columns, 0);
  }

  /** The keys of a built segment come back with it. */
  lemma BuiltSegmentKeys(x: Segment, keys: seq<Key>)
    requires SizedSegment(x) && WithinLimits(x.footer) && x.footer.rawKeys == KeysBytes(keys)
    requires |keys| < TWO32 && forall i :: 0 <= i < |keys| ==> |keys[i]| < TWO32
    ensures Deserialize(FileBytes(x)).Some? && Deserialize(FileBytes(x)).value.keys == keys
  {
    hide Deserialize, FileBytes, SizedSegment, WithinLimits, KeysBytes, KeysOf;
    SegmentRoundTrip(x);
    KeysRoundTrip(keys);
  }
}
