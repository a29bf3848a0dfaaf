/** The LSM storage engine: an active memtable, a queue of frozen ones, and segments. */
module LsmEngine {
  import opened Keys
  import opened SortedEntries
  import opened Values
  import opened MemTables
  import opened Merges
  import opened MergeIterators
  import opened LsmModel
  import opened PrimaryIndexes
  import opened SegmentSearch

  function MetaOf(seg: Segment, level: nat): SegmentMeta {
    SegmentMeta(seg.id, seg.minKey, seg.maxKey, level)
  }

  function Metas(segs: seq<Segment>, levels: seq<nat>): (r: seq<SegmentMeta>)
    requires |levels| == |segs|
    ensures |r| == |segs| && forall i :: 0 <= i < |segs| ==> r[i] == MetaOf(segs[i], levels[i])
  {
    seq(|segs|, i requires 0 <= i < |segs| => MetaOf(segs[i], levels[i]))
  }

  function CountL0(levels: seq<nat>): nat {
    if levels == [] then 0
    else CountL0(levels[..|levels| - 1]) + if levels[|levels| - 1] == 0 then 1 else 0
  }

  ghost predicate GoodMem(mem: seq<Entry<Row>>) {
    Sorted(mem) && NoEmptyKeys(mem) && BareTombstones(mem)
  }

  ghost predicate GoodSegment(seg: Segment, meta: seq<ColumnMeta>) {
    && seg.id > 0 && seg.rows != []
    && Sorted(seg.rows) && NoEmptyKeys(seg.rows) && CanonicalSegment(seg, meta)
    && seg.minKey == seg.rows[0].key && seg.maxKey == seg.rows[|seg.rows| - 1].key
  }

  /** Segments stand in the order of their ids, oldest first. */
  ghost predicate GoodSegments(segs: seq<Segment>, meta: seq<ColumnMeta>, maxId: nat) {
    && (forall i :: 0 <= i < |segs| ==> GoodSegment(segs[i], meta) && segs[i].id <= maxId)
    && (forall i, j :: 0 <= i < j < |segs| ==> segs[i].id < segs[j].id)
  }

  ghost predicate GoodLevels(levels: seq<nat>, l0Count: nat) {
    l0Count == CountL0(levels) && forall i :: 0 <= i < |levels| ==> levels[i] <= 1
  }

  ghost predicate MapMatches(m: map<nat, Segment>, segs: seq<Segment>) {
    && (forall i :: 0 <= i < |segs| ==> segs[i].id in m && m[segs[i].id] == segs[i])
    && (forall id :: id in m ==> exists i :: 0 <= i < |segs| && segs[i].id == id)
  }

  ghost predicate GoodQueue(mems: Sources<Row>) {
    forall i :: 0 <= i < |mems| ==> GoodMem(mems[i]) && mems[i] != []
  }

  /** The primary index holds exactly the segments' key ranges. */
  ghost predicate GoodIndex(index: seq<SegmentMeta>, segs: seq<Segment>, levels: seq<nat>)
    ensures GoodIndex(index, segs, levels) ==> |levels| == |segs|
  {
    |levels| == |segs| && ByMinKey(index) && multiset(index) == multiset(Metas(segs, levels))
  }

  /** A Bloom filter may answer yes wrongly, never no. */
  ghost predicate NoFalseNegatives(mayContain: (Segment, Key) -> bool) {
    forall seg: Segment, k: Key {:trigger mayContain(seg, k)} :: HasKey(seg.rows, k) ==> mayContain(seg, k)
  }

  ghost predicate ById(segs: seq<Segment>) {
    forall i, j :: 0 <= i < j < |segs| ==> segs[i].id <= segs[j].id
  }

  lemma PlacedById(rest: seq<Segment>, x: Segment, j: nat)
    requires ById(rest) && j <= |rest|
    requires j > 0 ==> rest[j - 1].id <= x.id
    requires forall q :: j <= q < |rest| ==> x.id < rest[q].id
    ensures ById(rest[..j] + [x] + rest[j..])
  {
  }

  lemma InsertedMultiset<T>(rest: seq<T>, x: T, j: nat)
    requires j <= |rest|
    ensures multiset(rest[..j] + [x] + rest[j..]) == multiset(rest) + multiset{x}
  {
    var a, b := multiset(rest[..j]), multiset(rest[j..]);
    assert rest == rest[..j] + rest[j..];
    assert a + multiset{x} + b == a + b + multiset{x};
  }

  lemma AddOne<T>(a: multiset<T>, b: multiset<T>, m: multiset<T>, x: T)
    requires a + b == m
    ensures (a + multiset{x}) + b == m + multiset{x}
    ensures a + (b + multiset{x}) == m + multiset{x}
  {
  }

  lemma CancelOne<T>(a: multiset<T>, b: multiset<T>, x: T)
    requires a + multiset{x} == b + multiset{x}
    ensures a == b
  {
    forall y: T ensures a[y] == b[y] {
      assert (a + multiset{x})[y] == (b + multiset{x})[y];
    }
  }

  ghost predicate SameContents<T>(s: seq<T>, t: seq<T>) {
    multiset(s) == multiset(t)
  }

  lemma NothingYet<T>(t: seq<T>)
    ensures SameContents([], t[..0])
  {
  }

  lemma OneMore<T>(s: seq<T>, t: seq<T>, i: nat, j: nat)
    requires i < |t| && j <= |s| && SameContents(s, t[..i])
    ensures SameContents(s[..j] + [t[i]] + s[j..], t[..i + 1])
  {
    InsertedMultiset(s, t[i], j);
    assert t[..i + 1] == t[..i] + [t[i]];
  }

  lemma AllPlaced<T>(s: seq<T>, t: seq<T>)
    requires SameContents(s, t[..|t|])
    ensures multiset(s) == multiset(t)
  {
    assert t[..|t|] == t;
  }

  /** The place of a segment among segments in order: after the last that is not younger. */
  method PlaceFor(sorted: seq<Segment>, x: Segment) returns (j: nat)
    ensures j <= |sorted|
    ensures j > 0 ==> sorted[j - 1].id <= x.id
    ensures forall q :: j <= q < |sorted| ==> x.id < sorted[q].id
  {
    j := |sorted|;
    while j > 0 && x.id < sorted[j - 1].id
      invariant j <= |sorted|
      invariant forall q :: j <= q < |sorted| ==> x.id < sorted[q].id
    {
      j := j - 1;
    }
  }

  /** Orders segments by id, oldest first. */
  method SortSegsById(segs: seq<Segment>) returns (sorted: seq<Segment>)
    ensures ById(sorted) && multiset(sorted) == multiset(segs)
  {
    sorted := [];
    assert ById(sorted);
    hide ById, SameContents;
    NothingYet(segs);
    for i := 0 to |segs|
      invariant ById(sorted) && SameContents(sorted, segs[..i])
    {
      var j := PlaceFor(sorted, segs[i]);
      PlacedById(sorted, segs[i], j);
      OneMore(sorted, segs, i, j);
      sorted := sorted[..j] + [segs[i]] + sorted[j..];
    }
    AllPlaced(sorted, segs);
  }

  lemma SameLast(a: seq<Segment>, b: seq<Segment>)
    requires ById(a) && multiset(a) == multiset(b) && |a| == |b| > 0
    requires forall i, j :: 0 <= i < j < |b| ==> b[i].id < b[j].id
    ensures a[|a| - 1] == b[|b| - 1]
  {
    var n := |a| - 1;
    assert a[n] in multiset(b) && b[n] in multiset(a);
    var i :| 0 <= i <= n && b[i] == a[n];
    var j :| 0 <= j <= n && a[j] == b[n];
  }

  /** The only ordering of distinct segments by id. */
  lemma {:induction false} OrderingUnique(a: seq<Segment>, b: seq<Segment>)
    requires ById(a) && multiset(a) == multiset(b)
    requires forall i, j :: 0 <= i < j < |b| ==> b[i].id < b[j].id
    ensures a == b
  {
    SameLength(a, b);
    if a != [] {
      var n := |a| - 1;
      SameLast(a, b);
      assert a == a[..n] + [a[n]] && b == b[..n] + [b[n]];
      CancelOne(multiset(a[..n]), multiset(b[..n]), a[n]);
      OrderingUnique(a[..n], b[..n]);
    }
  }

  lemma SameLength(a: seq<Segment>, b: seq<Segment>)
    requires multiset(a) == multiset(b)
    ensures |a| == |b|
  {
    assert |multiset(a)| == |a| && |multiset(b)| == |b|;
  }

  class Engine {
    var active: seq<Entry<Row>>
    var immutable: Sources<Row>
    var segments: seq<Segment>
    var segmentMap: map<nat, Segment>
    var levels: seq<nat>
    var l0Count: nat
    var nextVersion: nat
    var lastSegId: nat
    const primary: PrimaryIndex
    const columnMeta: seq<ColumnMeta>
    const maxMemSize: int
    const mayContain: (Segment, Key) -> bool

    ghost predicate Valid()
      reads this, primary
    {
      && DistinctNames(columnMeta)
      && NoFalseNegatives(mayContain)
      && GoodMem(active)
      && GoodQueue(immutable)
      && GoodSegments(segments, columnMeta, lastSegId)
      && GoodLevels(levels, l0Count)
      && MapMatches(segmentMap, segments)
      && GoodIndex(primary.segments, segments, levels)
    }

    ghost function Contents(): map<Key, Cell>
      reads this
    {
      View(AllSources(segments, immutable, active, columnMeta), columnMeta)
    }

    constructor (columnMeta: seq<ColumnMeta>, maxMemSize: int, mayContain: (Segment, Key) -> bool)
      requires DistinctNames(columnMeta) && NoFalseNegatives(mayContain)
      ensures Valid() && fresh(primary) && this.columnMeta == columnMeta
      ensures Contents() == map[]
    {
      hide View, Less, NoFalseNegatives, DistinctNames;
      active, immutable, segments, segmentMap, levels, l0Count := [], [], [], map[], [], 0;
      nextVersion, lastSegId := 0, 0;
      primary := new PrimaryIndex();
      this.columnMeta, this.maxMemSize, this.mayContain := columnMeta, maxMemSize, mayContain;
      new;
      assert AllSources([], [], [], columnMeta) == [[]];
      EmptyView(columnMeta);
      assert Metas([], []) == [];
    }

    // ----- write path -----

    /** Freezes the active memtable and starts an empty one. */
    method RotateMemTable()
      requires Valid()
      modifies this`active, this`immutable
      ensures Valid() && Contents() == old(Contents())
      ensures active == []
      ensures immutable == if old(active) == [] then old(immutable) else old(immutable) + [old(active)]
    {
      hide Less, Sorted, View, MapMatches, GoodSegments, GoodLevels, GoodMem, NoFalseNegatives, DistinctNames, GoodIndex;
      if active == [] {
        return;
      }
      ViewAfterRotate(SegmentSources(segments, columnMeta) + immutable, active, columnMeta);
      immutable := immutable + [active];
      active := [];
      EmptyIsGood();
      assert SegmentSources(segments, columnMeta) + old(immutable) + [old(active)] == SegmentSources(segments, columnMeta) + immutable;
    }

    static lemma EmptyIsGood()
      ensures GoodMem([])
    {
    }

    static lemma PutIsGood(mem: seq<Entry<Row>>, key: Key, row: Row)
      requires GoodMem(mem) && key != [] && (row.tombstone ==> row.columns == map[])
      ensures GoodMem(Upsert(mem, key, row))
    {
      hide LowerBound;
      UpsertSorted(mem, key, row);
    }

    method Put(key: Key, row: Row)
      requires Valid() && key != [] && (row.tombstone ==> row.columns == map[])
      modifies this`active
      ensures Valid() && Contents() == old(Contents())[key := Observed(row, columnMeta)]
    {
      hide Less, View, MapMatches, GoodSegments, GoodLevels, NoFalseNegatives, DistinctNames, GoodIndex, GoodQueue, Upsert;
      ViewAfterPut(SegmentSources(segments, columnMeta) + immutable, active, columnMeta, key, row);
      PutIsGood(active, key, row);
      active := Upsert(active, key, row);
    }

    method ShouldFlush() returns (full: bool)
      ensures full <==> TotalSize(active) >= maxMemSize
    {
      full := TotalSize(active) >= maxMemSize;
    }

    method Write(key: Key, columns: map<Str, Value>) returns (ok: bool)
      requires Valid()
      modifies this`active, this`immutable, this`nextVersion
      ensures Valid() && Effect(old(Contents()), Op.Write(key, columns), ok, true, Contents(), columnMeta)
      ensures ok ==> key in Contents() && ReadsAs(columns, Contents()[key], columnMeta)
      ensures nextVersion == old(nextVersion) + if ok then 1 else 0
    {
      hide Valid, View;
      if key == [] {
        return false;
      }
      nextVersion := nextVersion + 1;
      SameApartFromVersion();
      var full := ShouldFlush();
      if full {
        RotateMemTable();
      }
      Put(key, Row(nextVersion, columns, false));
      LiveReadsAs(columns, columnMeta);
      ok := true;
    }

    twostate lemma SameApartFromVersion()
      requires old(Valid()) && active == old(active) && immutable == old(immutable) && segments == old(segments)
      requires segmentMap == old(segmentMap) && levels == old(levels) && l0Count == old(l0Count) && lastSegId == old(lastSegId)
      requires unchanged(primary)
      ensures Valid() && Contents() == old(Contents())
    {
    }

    method Delete(key: Key) returns (ok: bool)
      requires Valid()
      modifies this`active, this`immutable, this`nextVersion
      ensures Valid() && Effect(old(Contents()), Op.Delete(key), ok, true, Contents(), columnMeta)
      ensures nextVersion == old(nextVersion) + if ok then 1 else 0
    {
      hide Valid, View;
      if key == [] {
        return false;
      }
      nextVersion := nextVersion + 1;
      SameApartFromVersion();
      var full := ShouldFlush();
      if full {
        RotateMemTable();
      }
      Put(key, Row(nextVersion, map[], true));
      ok := true;
    }

    method WriteBatch(rows: seq<Entry<map<Str, Value>>>) returns (ok: bool)
      requires Valid()
      modifies this`active, this`immutable, this`nextVersion
      ensures Valid() && Effect(old(Contents()), Op.WriteBatch(rows), ok, true, Contents(), columnMeta)
      ensures nextVersion == old(nextVersion) + if ok then |rows| else 0
    {
      hide Valid, View;
      if |rows| == 0 {
        return true;
      }
      for i := 0 to |rows|
        invariant forall j :: 0 <= j < i ==> rows[j].key != []
      {
        if rows[i].key == [] {
          return false;
        }
      }
      var baseVersion := nextVersion + 1;
      nextVersion := nextVersion + |rows|;
      SameApartFromVersion();
      for i := 0 to |rows|
        invariant Valid() && nextVersion == old(nextVersion) + |rows|
        invariant Contents() == ApplyBatch(old(Contents()), rows[..i], columnMeta)
      {
        Put(rows[i].key, Row(baseVersion + i, rows[i].value, false));
        assert rows[..i + 1][..i] == rows[..i];
      }
      assert rows[..|rows|] == rows;
      var full := ShouldFlush();
      if full {
        RotateMemTable();
      }
      ok := true;
    }

    // ----- flush -----

    static predicate AllAccepted(mem: seq<Entry<Row>>, meta: seq<ColumnMeta>) {
      forall i, c :: 0 <= i < |mem| && 0 <= c < |meta| && meta[c].name in mem[i].value.columns ==>
        Accepts(meta[c].typ, mem[i].value.columns[meta[c].name])
    }

    static predicate EncodableTypes(meta: seq<ColumnMeta>) {
      meta != [] && forall c :: 0 <= c < |meta| ==> !meta[c].typ.TypeNull?
    }

    /** Appends a segment and enters it in the index. */
    method AddSegment(seg: Segment, level: nat)
      requires Valid() && GoodSegment(seg, columnMeta) && level <= 1
      requires seg.id <= lastSegId && forall i :: 0 <= i < |segments| ==> segments[i].id < seg.id
      modifies this`segments, this`segmentMap, this`levels, this`l0Count, primary
      ensures Valid()
      ensures segments == old(segments) + [seg] && levels == old(levels) + [level]
    {
      hide Less, View, GoodMem, GoodQueue, GoodSegment, GoodSegments, NoFalseNegatives, DistinctNames, MapMatches, GoodLevels, GoodIndex;
      SegmentRange(seg, columnMeta);
      AppendedMap(segmentMap, segments, seg);
      AppendedLevels(levels, l0Count, level);
      AppendedSegments(segments, seg, columnMeta, lastSegId);
      segments := segments + [seg];
      segmentMap := segmentMap[seg.id := seg];
      levels := levels + [level];
      if level == 0 {
        l0Count := l0Count + 1;
      }
      RegisterIndexes(old(segments), old(levels), seg, level);
    }

    method RegisterIndexes(ghost segs: seq<Segment>, ghost lvls: seq<nat>, seg: Segment, level: nat)
      requires GoodIndex(primary.segments, segs, lvls) && seg.id > 0 && !Less(seg.maxKey, seg.minKey)
      modifies primary
      ensures GoodIndex(primary.segments, segs + [seg], lvls + [level])
    {
      hide Less, ByMinKey;
      var err := primary.RegisterSegment(MetaOf(seg, level));
      assert Metas(segs + [seg], lvls + [level]) == Metas(segs, lvls) + [MetaOf(seg, level)];
    }

    static lemma AppendedLevels(levels: seq<nat>, l0Count: nat, level: nat)
      requires GoodLevels(levels, l0Count) && level <= 1
      ensures GoodLevels(levels + [level], l0Count + if level == 0 then 1 else 0)
    {
      assert (levels + [level])[..|levels|] == levels;
    }

    static lemma AppendedSegments(segs: seq<Segment>, seg: Segment, meta: seq<ColumnMeta>, maxId: nat)
      requires GoodSegments(segs, meta, maxId) && GoodSegment(seg, meta) && seg.id <= maxId
      requires forall i :: 0 <= i < |segs| ==> segs[i].id < seg.id
      ensures GoodSegments(segs + [seg], meta, maxId)
    {
      hide GoodSegment;
    }

    static lemma AppendedMap(m: map<nat, Segment>, segs: seq<Segment>, seg: Segment)
      requires MapMatches(m, segs) && forall i :: 0 <= i < |segs| ==> segs[i].id < seg.id
      ensures MapMatches(m[seg.id := seg], segs + [seg])
    {
      var t := segs + [seg];
      assert t[|segs|] == seg;
      forall id | id in m ensures exists i :: 0 <= i < |t| && t[i].id == id {
        var i :| 0 <= i < |segs| && segs[i].id == id;
        assert t[i].id == id;
      }
    }

    static lemma SegmentRange(seg: Segment, meta: seq<ColumnMeta>)
      requires GoodSegment(seg, meta)
      ensures seg.id > 0 && !Less(seg.maxKey, seg.minKey)
      ensures forall k :: HasKey(seg.rows, k) ==> KeyInRange(k, seg.minKey, seg.maxKey)
    {
      hide Less;
      var n := |seg.rows| - 1;
      forall i | 0 <= i <= n ensures AtMost(seg.minKey, seg.rows[i].key) && AtMost(seg.rows[i].key, seg.maxKey) {
        LessIrreflexive(seg.rows[i].key);
        if i > 0 && Less(seg.rows[i].key, seg.minKey) { LessTransitive(seg.rows[i].key, seg.minKey, seg.rows[i].key); }
        if i < n && Less(seg.maxKey, seg.rows[i].key) { LessTransitive(seg.maxKey, seg.rows[i].key, seg.maxKey); LessIrreflexive(seg.maxKey); }
      }
    }

    static lemma FlushedIsGood(mem: seq<Entry<Row>>, seg: Segment, meta: seq<ColumnMeta>)
      requires GoodMem(mem) && mem != [] && seg.id > 0 && seg.rows == FlushedRows(mem, meta)
      requires seg.minKey == mem[0].key && seg.maxKey == mem[|mem| - 1].key
      ensures GoodSegment(seg, meta)
    {
      hide Less, Sorted, RowBack, CanonicalRows;
      FlushedFacts(mem, meta);
    }

    /** The memtables a flush finds: the frozen ones and, unless it is empty, the active one. */
    static function Queue(immutable: Sources<Row>, active: seq<Entry<Row>>): Sources<Row> {
      immutable + if active == [] then [] else [active]
    }

    /** Every value given for a column is NULL, of the column's type, or an integer in an integer column. */
    static ghost predicate TableFits(mem: seq<Entry<Row>>, meta: seq<ColumnMeta>) {
      forall i, c :: 0 <= i < |mem| && 0 <= c < |meta| && meta[c].name in mem[i].value.columns ==>
        var v := mem[i].value.columns[meta[c].name];
        !v.valid || v.typ == meta[c].typ || (v.typ.IsIntFamily() && meta[c].typ.IsIntFamily())
    }

    /** There is a column, and none is of type NULL. */
    static ghost predicate ColumnsFit(meta: seq<ColumnMeta>) {
      |meta| > 0 && forall c :: 0 <= c < |meta| ==> meta[c].typ != TypeNull
    }

    /** The first `n` tables of the queue can be written, and nothing but the end of the queue, the disk, the
        columns or a value keeps the next one from it. */
    static ghost predicate StopsAt(queue: Sources<Row>, failAt: nat, meta: seq<ColumnMeta>, n: int) {
      && 0 <= n <= |queue| && n <= failAt
      && (forall j :: 0 <= j < n ==> TableFits(queue[j], meta))
      && (n > 0 ==> ColumnsFit(meta))
      && (n < |queue| ==> n == failAt || !ColumnsFit(meta) || !TableFits(queue[n], meta))
    }

    static lemma AcceptanceMeans(mem: seq<Entry<Row>>, meta: seq<ColumnMeta>)
      ensures AllAccepted(mem, meta) <==> TableFits(mem, meta)
      ensures EncodableTypes(meta) <==> ColumnsFit(meta)
    {
      if TableFits(mem, meta) {
        forall i, c | 0 <= i < |mem| && 0 <= c < |meta| && meta[c].name in mem[i].value.columns
          ensures Accepts(meta[c].typ, mem[i].value.columns[meta[c].name])
        {
          KeptShows(meta[c].typ, mem[i].value.columns[meta[c].name]);
        }
      }
      if AllAccepted(mem, meta) {
        forall i, c | 0 <= i < |mem| && 0 <= c < |meta| && meta[c].name in mem[i].value.columns
          ensures var v := mem[i].value.columns[meta[c].name];
            !v.valid || v.typ == meta[c].typ || (v.typ.IsIntFamily() && meta[c].typ.IsIntFamily())
        {
          KeptShows(meta[c].typ, mem[i].value.columns[meta[c].name]);
        }
      }
    }

    /** The first memtables of the queue have become the last segments. */
    static ghost predicate Drained(before: seq<Segment>, after: seq<Segment>, queue: Sources<Row>, meta: seq<ColumnMeta>) {
      && |before| <= |after| <= |before| + |queue| && after[..|before|] == before
      && forall j :: 0 <= j < |after| - |before| ==> after[|before| + j].rows == FlushedRows(queue[j], meta)
    }

    static ghost predicate FirstKeep(queue: Sources<Row>, n: nat, meta: seq<ColumnMeta>) {
      forall j :: 0 <= j < n && j < |queue| ==> FlushKeeps(queue[j], meta)
    }

    /** Freezes the active memtable and hands over the whole queue. */
    method DrainImmutable() returns (drained: Sources<Row>)
      requires Valid()
      modifies this`active, this`immutable
      ensures Valid() && active == [] && immutable == []
      ensures GoodQueue(drained) && drained == Queue(old(immutable), old(active))
      ensures View(AllSources(segments, drained, [], columnMeta), columnMeta) == old(Contents())
    {
      hide View, GoodMem, GoodSegments, NoFalseNegatives, DistinctNames, MapMatches, GoodLevels, GoodIndex, GoodQueue;
      RotateMemTable();
      drained := immutable;
      immutable := [];
      EmptyQueueIsGood();
    }

    static lemma EmptyQueueIsGood()
      ensures GoodQueue([])
    {
    }

    static lemma RestOfQueueIsGood(mems: Sources<Row>, i: nat)
      requires GoodQueue(mems) && i <= |mems|
      ensures GoodQueue(mems[i..])
      ensures i < |mems| ==> GoodMem(mems[i]) && mems[i] != []
    {
    }

    lemma IdsBelowNext()
      requires Valid()
      ensures forall i :: 0 <= i < |segments| ==> segments[i].id < lastSegId + 1
      ensures GoodSegments(segments, columnMeta, lastSegId + 1)
    {
      hide GoodSegment;
    }

    /** Writes every frozen memtable to a segment, oldest first. `failAt` is the number of
        memtables written before the disk fails; a column that rejects a value, a column of a type
        without an encoding, or a table without columns, fails too. Unwritten memtables go back to the queue. */
    method Flush(failAt: nat) returns (ok: bool, ghost kept: bool)
      requires Valid()
      modifies this`active, this`immutable, this`segments, this`segmentMap, this`levels, this`l0Count, this`lastSegId, primary
      ensures Valid() && Effect(old(Contents()), Op.Flush, ok, kept, Contents(), columnMeta)
      ensures ok ==> active == [] && immutable == []
      ensures Drained(old(segments), segments, Queue(old(immutable), old(active)), columnMeta)
      ensures kept <==> FirstKeep(Queue(old(immutable), old(active)), |segments| - |old(segments)|, columnMeta)
      ensures StopsAt(Queue(old(immutable), old(active)), failAt, columnMeta, |segments| - |old(segments)|)
      ensures ok <==> |segments| - |old(segments)| == |Queue(old(immutable), old(active))|
      ensures active == [] && immutable == Queue(old(immutable), old(active))[|segments| - |old(segments)|..]
    {
      hide View, Sorted, Less, AllSources, GoodMem, GoodQueue, NoFalseNegatives, DistinctNames, MapMatches, GoodLevels, GoodIndex,
        GoodSegment, GoodSegments, FlushedRows, Merged, BareTombstones, Rewritten, FlushKeeps, Queue, TableFits, ColumnsFit, AllAccepted,
        EncodableTypes, CellsShow;
      var drained := DrainImmutable();
      ghost var segs0, added := segments, [];
      GoodParts(segs0, drained);
      var flushed := 0;
      while flushed < |drained|
        invariant Valid() && active == [] && immutable == []
        invariant |added| == flushed <= |drained| && segments == segs0 + added
        invariant forall j :: 0 <= j < flushed ==> added[j].rows == FlushedRows(drained[j], columnMeta)
        invariant flushed <= failAt && forall j :: 0 <= j < flushed ==> TableFits(drained[j], columnMeta)
        invariant flushed > 0 ==> ColumnsFit(columnMeta)
      {
        AcceptanceMeans(drained[flushed], columnMeta);
        RestOfQueueIsGood(drained, flushed);
        if flushed == failAt || !EncodableTypes(columnMeta) || !AllAccepted(drained[flushed], columnMeta) {
          break;
        }
        var seg := FlushOne(drained[flushed]);
        added := added + [seg];
        flushed := flushed + 1;
      }
      kept := FirstKeep(drained, flushed, columnMeta);
      FlushIsEffect(segs0, added, drained, kept, columnMeta);
      RestOfQueueIsGood(drained, flushed);
      immutable := drained[flushed..];
      ok := flushed == |drained|;
    }

    static lemma FlushIsEffect(segs: seq<Segment>, added: seq<Segment>, mems: Sources<Row>, kept: bool, meta: seq<ColumnMeta>)
      requires DistinctNames(meta) && (forall i :: 0 <= i < |segs| ==> CanonicalSegment(segs[i], meta))
      requires |added| <= |mems| && kept == FirstKeep(mems, |added|, meta)
      requires forall i :: 0 <= i < |added| ==> BareTombstones(mems[i]) && added[i].rows == FlushedRows(mems[i], meta)
      ensures Effect(View(AllSources(segs, mems, [], meta), meta), Op.Flush, |added| == |mems|, kept,
        View(AllSources(segs + added, mems[|added|..], [], meta), meta), meta)
    {
      hide View, AllSources, FlushedRows, BareTombstones, FlushKeeps, Seen, DistinctNames, CanonicalSegment, Flushed;
      var v, ok, w := View(AllSources(segs, mems, [], meta), meta), |added| == |mems|, View(AllSources(segs + added, mems[|added|..], [], meta), meta);
      forall all: bool | all ==> kept ensures Rewritten(all, v, Op.Flush, ok, w, meta) {
        FlushEffect(all, segs, added, mems, meta);
      }
    }

    method FlushOne(mem: seq<Entry<Row>>) returns (seg: Segment)
      requires Valid() && GoodMem(mem) && mem != []
      modifies this`segments, this`segmentMap, this`levels, this`l0Count, this`lastSegId, primary
      ensures Valid() && segments == old(segments) + [seg] && seg.rows == FlushedRows(mem, columnMeta)
      ensures |seg.rows| == |mem|
      ensures forall i :: 0 <= i < |mem| ==> seg.rows[i].key == mem[i].key
      ensures forall i :: 0 <= i < |mem| ==>
        CellsShow(FlushKeeps(mem, columnMeta), mem[i].value.columns, seg.rows[i].value, columnMeta)
    {
      hide View, Sorted, Less, GoodMem, GoodQueue, NoFalseNegatives, DistinctNames, MapMatches, GoodLevels, GoodIndex,
        GoodSegment, GoodSegments, FlushedRows, CellsShow, FlushKeeps;
      forall i | 0 <= i < |mem|
        ensures |FlushedRows(mem, columnMeta)| == |mem| && FlushedRows(mem, columnMeta)[i].key == mem[i].key
        ensures CellsShow(FlushKeeps(mem, columnMeta), mem[i].value.columns, FlushedRows(mem, columnMeta)[i].value, columnMeta)
      {
        FlushedShows(mem, columnMeta, i);
      }
      IdsBelowNext();
      lastSegId := lastSegId + 1;
      seg := Segment(lastSegId, mem[0].key, mem[|mem| - 1].key, FlushedRows(mem, columnMeta));
      FlushedIsGood(mem, seg, columnMeta);
      AddSegment(seg, 0);
    }

    lemma GoodParts(segs: seq<Segment>, mems: Sources<Row>)
      requires GoodSegments(segs, columnMeta, lastSegId)
      requires GoodQueue(mems)
      ensures forall i :: 0 <= i < |segs| ==> CanonicalSegment(segs[i], columnMeta)
      ensures forall i :: 0 <= i < |mems| ==> BareTombstones(mems[i])
    {
    }

    // ----- compaction -----

    method CollectSegmentsByLevel(level: nat) returns (segs: seq<Segment>)
      requires |levels| == |segments|
      ensures segs == AtLevel(segments, levels, level)
    {
      segs := [];
      for i := 0 to |levels|
        invariant segs == AtLevel(segments[..i], levels[..i], level)
      {
        assert segments[..i + 1][..i] == segments[..i] && levels[..i + 1][..i] == levels[..i];
        if levels[i] == level {
          segs := segs + [segments[i]];
        }
      }
      assert segments[..|levels|] == segments && levels[..|levels|] == levels;
    }

    static function AtLevel(segs: seq<Segment>, levels: seq<nat>, level: nat): seq<Segment>
      requires |levels| == |segs|
    {
      if segs == [] then []
      else
        var n := |segs| - 1;
        AtLevel(segs[..n], levels[..n], level) + if levels[n] == level then [segs[n]] else []
    }

    static lemma AtLevelLast(segs: seq<Segment>, levels: seq<nat>, level: nat)
      requires |levels| == |segs| > 0
      ensures var n := |segs| - 1; var init := AtLevel(segs[..n], levels[..n], level);
        multiset(AtLevel(segs, levels, level)) == multiset(init) + if levels[n] == level then multiset{segs[n]} else multiset{}
    {
    }

    static lemma NothingAdded(a: multiset<Segment>, b: multiset<Segment>)
      requires a == b + multiset{}
      ensures a == b
    {
    }

    static lemma SplitOffLast(segs: seq<Segment>)
      requires segs != []
      ensures multiset(segs) == multiset(segs[..|segs| - 1]) + multiset{segs[|segs| - 1]}
    {
      assert segs == segs[..|segs| - 1] + [segs[|segs| - 1]];
    }

    static lemma {:induction false} TwoLevels(segs: seq<Segment>, levels: seq<nat>)
      requires |levels| == |segs| && forall i :: 0 <= i < |levels| ==> levels[i] <= 1
      ensures multiset(AtLevel(segs, levels, 0)) + multiset(AtLevel(segs, levels, 1)) == multiset(segs)
    {
      if segs != [] {
        hide AtLevel;
        var n := |segs| - 1;
        TwoLevels(segs[..n], levels[..n]);
        var m0, m1 := multiset(AtLevel(segs[..n], levels[..n], 0)), multiset(AtLevel(segs[..n], levels[..n], 1));
        AtLevelLast(segs, levels, 0);
        AtLevelLast(segs, levels, 1);
        SplitOffLast(segs);
        AddOne(m0, m1, multiset(segs[..n]), segs[n]);
        if levels[n] == 0 {
          NothingAdded(multiset(AtLevel(segs, levels, 1)), m1);
        } else {
          NothingAdded(multiset(AtLevel(segs, levels, 0)), m0);
        }
      }
    }

    /** Merges all segments of level 0 and 1 into one of level 1. `diskOk` is whether the
        new segment could be written; `merged` are the rows it was given. */
    method Compact(diskOk: bool) returns (ok: bool, ghost kept: bool, ghost merged: seq<Entry<Cells>>)
      requires Valid()
      modifies this`segments, this`segmentMap, this`levels, this`l0Count, this`lastSegId, primary
      ensures Valid() && Effect(old(Contents()), Op.Compact, ok, kept, Contents(), columnMeta)
      ensures ok <==> old(l0Count) == 0 || (ColumnsFit(columnMeta) && diskOk)
      ensures !ok || old(l0Count) == 0 ==> segments == old(segments) && levels == old(levels)
      ensures ok && old(l0Count) > 0 ==> |segments| == 1 && l0Count == 0
      ensures CanonicalRows(merged, columnMeta) && (kept <==> KeepsBools(merged, columnMeta))
      ensures ok && old(l0Count) > 0 ==>
        Sorted(merged) && ToMap(merged) == Merged(RowSources(old(segments))) && segments[0].rows == Encoded(merged, columnMeta)
    {
      hide View, Sorted, Less, AllSources, GoodMem, GoodQueue, NoFalseNegatives, DistinctNames, MapMatches, GoodIndex,
        GoodSegment, GoodSegments, Merged, AtLevel, Rewritten, Encoded, CanonicalRows, KeepsBools, ToMap, ColumnsFit, EncodableTypes, CountL0;
      kept, merged := true, [];
      NothingMerged(Contents(), columnMeta);
      AcceptanceMeans([], columnMeta);
      NoL0(segments, levels);
      var l0 := CollectSegmentsByLevel(0);
      if |l0| == 0 {
        return true, kept, merged;
      }
      var l1 := CollectSegmentsByLevel(1);
      var all := l0 + l1;
      TwoLevels(segments, levels);
      var sorted := SortSegsById(all);
      OldestFirst();
      OrderingUnique(sorted, segments);
      SegmentFacts();
      var rows := MergeForCompaction(RowSources(sorted));
      NoEmptyMergedKey(RowSources(segments));
      SomethingMerged(rows);
      if |rows| == 0 || !EncodableTypes(columnMeta) || !diskOk {
        return false, kept, merged;
      }
      IdsBelowNext();
      lastSegId := lastSegId + 1;
      MergedRowsCanonical(segments, rows, columnMeta);
      var newSeg := Segment(lastSegId, rows[0].key, rows[|rows| - 1].key, Encoded(rows, columnMeta));
      MergedIsGood(rows, newSeg, columnMeta);
      merged, kept := rows, KeepsBools(rows, columnMeta);
      CompactIsEffect(segments, rows, newSeg, immutable, active, columnMeta);
      AddSegment(newSeg, 1);
      RemoveCompactedSegments();
      ok := true;
    }

    static lemma {:induction false} NoL0(segs: seq<Segment>, levels: seq<nat>)
      requires |levels| == |segs|
      ensures |AtLevel(segs, levels, 0)| == CountL0(levels) && (segs == [] ==> CountL0(levels) == 0)
    {
      if segs != [] { NoL0(segs[..|segs| - 1], levels[..|segs| - 1]); }
    }

    /** Segments are never empty, so neither is their merge. */
    lemma SomethingMerged(rows: seq<Entry<Cells>>)
      requires Valid() && segments != [] && ToMap(rows) == Merged(RowSources(segments))
      ensures rows != []
    {
      hide ToMap, Merged, Sorted, View, MapMatches, GoodIndex, GoodQueue, GoodMem, GoodLevels;
      FirstSegmentHasRows();
      var k := segments[0].rows[0].key;
      ToMapKeys(segments[0].rows, k);
      assert RowSources(segments)[0] == segments[0].rows;
      MergedKeys(RowSources(segments), k);
      ToMapKeys(rows, k);
    }

    lemma FirstSegmentHasRows()
      requires Valid() && segments != []
      ensures segments[0].rows != []
    {
    }

    lemma OldestFirst()
      requires Valid()
      ensures forall i, j :: 0 <= i < j < |segments| ==> segments[i].id < segments[j].id
    {
    }

    lemma SegmentFacts()
      requires Valid()
      ensures forall i :: 0 <= i < |segments| ==> CanonicalSegment(segments[i], columnMeta) && Sorted(segments[i].rows)
      ensures forall i :: 0 <= i < |segments| ==> NoEmptyKeys(segments[i].rows)
    {
    }

    static lemma NoEmptyMergedKey(s: Sources<Cells>)
      requires forall i :: 0 <= i < |s| ==> NoEmptyKeys(s[i])
      ensures Merged(s) - {[]} == Merged(s)
    {
      hide ToMap, Merged;
      MergedKeys(s, []);
      forall i | 0 <= i < |s| ensures [] !in ToMap(s[i]) { ToMapKeys(s[i], []); }
    }

    static lemma MergedIsGood(rows: seq<Entry<Cells>>, seg: Segment, meta: seq<ColumnMeta>)
      requires seg.id > 0 && rows != [] && Sorted(rows) && CanonicalRows(rows, meta) && seg.rows == Encoded(rows, meta)
      requires seg.minKey == rows[0].key && seg.maxKey == rows[|rows| - 1].key
      requires [] !in ToMap(rows)
      ensures GoodSegment(seg, meta)
    {
      hide ToMap, Sorted, CanonicalRows, RowBack;
      ToMapKeys(rows, []);
      EncodedFacts(rows, meta);
      forall i | 0 <= i < |seg.rows| ensures seg.rows[i].key != [] { assert rows[i].key != []; }
    }

    static lemma NothingMerged(v: map<Key, Cell>, meta: seq<ColumnMeta>)
      ensures CanonicalRows([], meta) && KeepsBools([], meta)
      ensures forall ok: bool, kept: bool :: Effect(v, Op.Compact, ok, kept, v, meta)
    {
    }

    static lemma CompactIsEffect(segs: seq<Segment>, rows: seq<Entry<Cells>>, seg: Segment, mems: Sources<Row>, active: seq<Entry<Row>>, meta: seq<ColumnMeta>)
      requires DistinctNames(meta) && (forall i :: 0 <= i < |segs| ==> CanonicalSegment(segs[i], meta))
      requires CanonicalRows(rows, meta) && ToMap(rows) == Merged(RowSources(segs)) && seg.rows == Encoded(rows, meta)
      ensures Effect(View(AllSources(segs, mems, active, meta), meta), Op.Compact, true, KeepsBools(rows, meta),
        View(AllSources([seg], mems, active, meta), meta), meta)
    {
      hide View, AllSources, DistinctNames, CanonicalSegment, CanonicalRows, Encoded, KeepsBools, Seen, ToMap, Merged;
      var v, w := View(AllSources(segs, mems, active, meta), meta), View(AllSources([seg], mems, active, meta), meta);
      forall all: bool | all ==> KeepsBools(rows, meta) ensures Rewritten(all, v, Op.Compact, true, w, meta) {
        CompactEffect(all, segs, rows, seg, mems, active, meta);
      }
    }

    /** Drops every segment but the last, which has just replaced them. */
    method RemoveCompactedSegments()
      requires Valid() && segments != [] && levels[|levels| - 1] == 1
      modifies this`segments, this`segmentMap, this`levels, this`l0Count, primary
      ensures Valid() && segments == [old(segments)[|old(segments)| - 1]] && l0Count == 0
    {
      hide View, Sorted, Less, GoodMem, GoodQueue, NoFalseNegatives, DistinctNames, GoodIndex, GoodSegment, GoodSegments, MapMatches;
      OldestFirst();
      var n := |segments| - 1;
      var last := segments[n];
      LastIsGood();
      UnregisterAllBut(n);
      segmentMap := map[last.id := last];
      segments := [last];
      levels := [1];
      l0Count := 0;
      assert [1][..0] == [];
    }

    lemma LastIsGood()
      requires Valid() && segments != []
      ensures var last := segments[|segments| - 1];
        GoodSegments([last], columnMeta, lastSegId) && MapMatches(map[last.id := last], [last])
    {
      assert [segments[|segments| - 1]][0].id == segments[|segments| - 1].id;
    }

    static lemma HeadRemoved(before: seq<SegmentMeta>, after: seq<SegmentMeta>, rest: seq<SegmentMeta>)
      requires rest != [] && multiset(before) == multiset(rest)
      requires forall i, j :: 0 <= i < j < |rest| ==> rest[i].id < rest[j].id
      requires exists m: SegmentMeta :: m.id == rest[0].id && multiset(before) == multiset(after) + multiset{m}
      ensures multiset(after) == multiset(rest[1..])
    {
      var m: SegmentMeta :| m.id == rest[0].id && multiset(before) == multiset(after) + multiset{m};
      assert m in multiset(rest);
      var i :| 0 <= i < |rest| && rest[i] == m;
      assert rest == [rest[0]] + rest[1..];
      assert multiset(rest) == multiset(rest[1..]) + multiset{m};
      CancelOne(multiset(after), multiset(rest[1..]), m);
    }

    method UnregisterAllBut(n: nat)
      requires GoodIndex(primary.segments, segments, levels) && n + 1 == |segments| && levels[n] == 1
      requires forall i, j :: 0 <= i < j < |segments| ==> segments[i].id < segments[j].id
      modifies primary
      ensures GoodIndex(primary.segments, [segments[n]], [1])
    {
      hide Less, ByMinKey;
      ghost var metas := Metas(segments, levels);
      for i := 0 to n
        invariant ByMinKey(primary.segments)
        invariant multiset(primary.segments) == multiset(metas[i..])
      {
        UnregisterFirst(segments[i].id, metas[i..]);
        assert metas[i..][1..] == metas[i + 1..];
      }
      assert metas[n..] == Metas([segments[n]], [1]);
    }

    method UnregisterFirst(id: nat, ghost rest: seq<SegmentMeta>)
      requires ByMinKey(primary.segments) && multiset(primary.segments) == multiset(rest)
      requires rest != [] && rest[0].id == id
      requires forall i, j :: 0 <= i < j < |rest| ==> rest[i].id < rest[j].id
      modifies primary
      ensures ByMinKey(primary.segments) && multiset(primary.segments) == multiset(rest[1..])
    {
      hide Less, ByMinKey;
      ghost var before := primary.segments;
      assert rest[0] in multiset(before);
      var err := primary.UnregisterSegment(id);
      HeadRemoved(before, primary.segments, rest);
    }

    // ----- reads -----

    /** The newest row under `key`, unless it is a tombstone. */
    method Get(key: Key) returns (found: Option<Row>)
      requires Valid()
      ensures found.Some? <==> key in Contents() && Contents()[key].Live?
      ensures found.Some? ==> Live(Store(found.value.columns, columnMeta)) == Contents()[key]
      ensures found.Some? ==> ReadsAs(found.value.columns, Contents()[key], columnMeta)
    {
      found := FindRow(key);
      if found.Some? {
        LiveReadsAs(found.value.columns, columnMeta);
      }
    }

    /** The active table, the frozen ones from the newest on, then the segments. */
    method FindRow(key: Key) returns (found: Option<Row>)
      requires Valid()
      ensures found.Some? <==> key in Contents() && Contents()[key].Live?
      ensures found.Some? ==> Live(Store(found.value.columns, columnMeta)) == Contents()[key]
    {
      hide Less, Merged, Sorted, GoodMem, NoFalseNegatives, DistinctNames, MapMatches, GoodLevels, GoodIndex, GoodSegment, GoodSegments,
        SegmentSources, Lookup;
      ghost var below := SegmentSources(segments, columnMeta);
      MergedSnoc(below + immutable, active);
      MemLookup(active, key);
      var a := Lookup(active, key);
      if a.Some? {
        return if a.value.tombstone then None else a;
      }
      MergedConcat(below, immutable);
      var i := |immutable|;
      while i > 0
        invariant 0 <= i <= |immutable|
        invariant forall j :: i <= j < |immutable| ==> key !in ToMap(immutable[j])
      {
        i := i - 1;
        MemLookup(immutable[i], key);
        var b := Lookup(immutable[i], key);
        if b.Some? {
          MergedAt(immutable, i, key);
          return if b.value.tombstone then None else b;
        }
      }
      MergedKeys(immutable, key);
      found := GetFromSegments(key);
      if found.Some? && found.value.tombstone {
        found := None;
      }
    }

    static lemma MemLookup(mem: seq<Entry<Row>>, key: Key)
      requires GoodMem(mem)
      ensures Lookup(mem, key) == if key in ToMap(mem) then Some(ToMap(mem)[key]) else None
    {
      LookupIsMap(mem, key);
    }

    /** Orders ids ascending. */
    static method SortIds(ids: seq<nat>) returns (sorted: seq<nat>)
      ensures IdsAscending(sorted) && multiset(sorted) == multiset(ids)
    {
      sorted := [];
      for i := 0 to |ids|
        invariant IdsAscending(sorted) && multiset(sorted) == multiset(ids[..i])
      {
        var j := |sorted|;
        while j > 0 && ids[i] < sorted[j - 1]
          invariant 0 <= j <= |sorted|
          invariant forall q :: j <= q < |sorted| ==> ids[i] < sorted[q]
        {
          j := j - 1;
        }
        PlacedAscending(sorted, ids[i], j);
        InsertedMultiset(sorted, ids[i], j);
        assert ids[..i + 1] == ids[..i] + [ids[i]];
        sorted := sorted[..j] + [ids[i]] + sorted[j..];
      }
      assert ids[..|ids|] == ids;
    }

    static ghost predicate IdsAscending(ids: seq<nat>) {
      forall i, j :: 0 <= i < j < |ids| ==> ids[i] <= ids[j]
    }

    static lemma PlacedAscending(rest: seq<nat>, x: nat, j: nat)
      requires IdsAscending(rest) && j <= |rest|
      requires j > 0 ==> rest[j - 1] <= x
      requires forall q :: j <= q < |rest| ==> x < rest[q]
      ensures IdsAscending(rest[..j] + [x] + rest[j..])
    {
    }

    static lemma AtMostLast(ids: seq<nat>, i: nat, id: nat)
      requires IdsAscending(ids) && i < |ids| && id in ids[..i + 1]
      ensures id <= ids[i]
    {
    }

    /** The row of the newest segment that holds `key`. */
    method GetFromSegments(key: Key) returns (found: Option<Row>)
      requires Valid()
      ensures var m := Merged(SegmentSources(segments, columnMeta));
        found == if key in m then Some(m[key]) else None
    {
      hide Less, Merged, Sorted, GoodMem, GoodQueue, NoFalseNegatives, DistinctNames, GoodLevels, GoodIndex, GoodSegment, GoodSegments,
        KeyInRange, Covers, MapMatches, ByMinKey;
      IndexIsSorted();
      var unsorted := primary.Lookup(key);
      var segIds := SortIds(unsorted);
      assert forall id :: id in unsorted ==> id in multiset(segIds);
      CandidatesAreComplete(key);
      OldestFirst();
      var i := |segIds|;
      while i > 0
        invariant 0 <= i <= |segIds|
        invariant forall s :: 0 <= s < |segments| && HasKey(segments[s].rows, key) ==> segments[s].id in segIds[..i]
      {
        i := i - 1;
        assert segIds[..i + 1] == segIds[..i] + [segIds[i]];
        if segIds[i] in segmentMap {
          var seg := segmentMap[segIds[i]];
          ghost var s := IndexOf(segIds[i]);
          BloomAnswers(seg, key);
          if mayContain(seg, key) {
            SegmentKeys(s);
            var row, ok := FindRowByKey(KeysOf(seg.rows), key);
            if ok {
              forall t | s < t < |segments| ensures !HasKey(segments[t].rows, key) {
                if HasKey(segments[t].rows, key) { AtMostLast(segIds, i, segments[t].id); }
              }
              FoundRow(s, row, key);
              return Some(SegmentRow(seg.id, seg.rows[row].value, columnMeta));
            }
          }
          OnlyOneWith(segIds[i], s);
          assert !HasKey(segments[s].rows, key);
        } else {
          NotMapped(segIds[i]);
        }
      }
      NotFoundAnywhere(key);
      return None;
    }

    lemma IndexIsSorted()
      requires Valid()
      ensures ByMinKey(primary.segments)
    {
    }

    lemma BloomAnswers(seg: Segment, key: Key)
      requires Valid()
      ensures HasKey(seg.rows, key) ==> mayContain(seg, key)
    {
    }

    /** Every segment that holds the key is among the index's candidates. */
    lemma CandidatesAreComplete(key: Key)
      requires Valid()
      ensures forall s :: 0 <= s < |segments| && HasKey(segments[s].rows, key) ==> Covers(primary.segments, segments[s].id, key)
    {
      hide Less, KeyInRange, GoodMem, MapMatches, GoodLevels, NoFalseNegatives, GoodSegment;
      forall s | 0 <= s < |segments| && HasKey(segments[s].rows, key) ensures Covers(primary.segments, segments[s].id, key) {
        SegmentRange(segments[s], columnMeta);
        var m := Metas(segments, levels)[s];
        assert m in multiset(primary.segments);
        var i :| 0 <= i < |primary.segments| && primary.segments[i] == m;
      }
    }

    ghost function IndexOf(id: nat): (s: nat)
      requires Valid() && id in segmentMap
      reads this, primary
      ensures s < |segments| && segments[s].id == id && segmentMap[id] == segments[s]
    {
      var s :| 0 <= s < |segments| && segments[s].id == id;
      s
    }

    lemma OnlyOneWith(id: nat, s: nat)
      requires Valid() && s < |segments| && segments[s].id == id
      ensures forall t :: 0 <= t < |segments| && segments[t].id == id ==> t == s
    {
    }

    lemma NotMapped(id: nat)
      requires Valid() && id !in segmentMap
      ensures forall t :: 0 <= t < |segments| ==> segments[t].id != id
    {
    }

    lemma SegmentKeys(s: nat)
      requires Valid() && s < |segments|
      ensures Ascending(KeysOf(segments[s].rows)) && Sorted(segments[s].rows)
      ensures forall k :: k in KeysOf(segments[s].rows) <==> HasKey(segments[s].rows, k)
    {
      hide Less;
      var rows := segments[s].rows;
      forall k | HasKey(rows, k) ensures k in KeysOf(rows) {
        var i :| 0 <= i < |rows| && rows[i].key == k;
        assert KeysOf(rows)[i] == k;
      }
    }

    lemma FoundRow(s: nat, row: nat, key: Key)
      requires Valid() && s < |segments| && row < |segments[s].rows| && segments[s].rows[row].key == key
      requires forall t :: s < t < |segments| ==> !HasKey(segments[t].rows, key)
      ensures var m := Merged(SegmentSources(segments, columnMeta));
        key in m && m[key] == SegmentRow(segments[s].id, segments[s].rows[row].value, columnMeta)
    {
      hide Less, Merged, ToMap;
      var src := SegmentSources(segments, columnMeta);
      SegmentKeys(s);
      var seg, meta := segments[s], columnMeta;
      MappedSorted(seg.rows, (c: Cells) => SegmentRow(seg.id, c, meta));
      SortedAt(src[s], row);
      forall t | s < t < |segments| ensures key !in ToMap(src[t]) { ToMapKeys(src[t], key); MappedKeys(segments[t], key, columnMeta); }
      MergedAt(src, s, key);
    }

    static lemma MappedKeys(seg: Segment, key: Key, meta: seq<ColumnMeta>)
      ensures HasKey(SegmentRows(seg, meta), key) <==> HasKey(seg.rows, key)
    {
      hide SegmentRow;
      var r := SegmentRows(seg, meta);
      if HasKey(seg.rows, key) {
        var i :| 0 <= i < |seg.rows| && seg.rows[i].key == key;
        assert r[i].key == key;
      }
    }

    lemma NotFoundAnywhere(key: Key)
      requires Valid() && forall t :: 0 <= t < |segments| ==> !HasKey(segments[t].rows, key)
      ensures key !in Merged(SegmentSources(segments, columnMeta))
    {
      hide Merged, ToMap;
      var src := SegmentSources(segments, columnMeta);
      MergedKeys(src, key);
      forall t | 0 <= t < |segments| ensures key !in ToMap(src[t]) { ToMapKeys(src[t], key); MappedKeys(segments[t], key, columnMeta); }
    }

    /** The live rows with `start <= key <= end`, each key once, in order. */
    method ScanRange(start: Key, end: Key) returns (results: seq<Entry<Row>>)
      requires Valid()
      ensures Sorted(results)
      ensures MapValues(ToMap(results), (r: Row) => Store(r.columns, columnMeta)) == Visible(Contents(), start, end)
      ensures forall i :: 0 <= i < |results| ==>
        results[i].key in Contents() && ReadsAs(results[i].value.columns, Contents()[results[i].key], columnMeta)
    {
      results := ScanRows(start, end);
      ResultsReadAs(results, Contents(), columnMeta, start, end);
    }

    static lemma ResultsReadAs(results: seq<Entry<Row>>, v: map<Key, Cell>, meta: seq<ColumnMeta>, start: Key, end: Key)
      requires Sorted(results) && MapValues(ToMap(results), (r: Row) => Store(r.columns, meta)) == Visible(v, start, end)
      ensures forall i :: 0 <= i < |results| ==> results[i].key in v && ReadsAs(results[i].value.columns, v[results[i].key], meta)
    {
      hide Less, Sorted, ToMap, Store, ReadsAs, Within;
      var m := MapValues(ToMap(results), (r: Row) => Store(r.columns, meta));
      forall i | 0 <= i < |results| ensures results[i].key in v && ReadsAs(results[i].value.columns, v[results[i].key], meta) {
        SortedAt(results, i);
        assert m[results[i].key] == Store(results[i].value.columns, meta);
        assert results[i].key in Visible(v, start, end);
        LiveReadsAs(results[i].value.columns, meta);
      }
    }

    method ScanRows(start: Key, end: Key) returns (results: seq<Entry<Row>>)
      requires Valid()
      ensures Sorted(results)
      ensures MapValues(ToMap(results), (r: Row) => Store(r.columns, columnMeta)) == Visible(Contents(), start, end)
    {
      hide Less, Merged, Sorted, GoodMem, GoodSegments, NoFalseNegatives, DistinctNames, MapMatches, GoodLevels, GoodIndex, GoodSegment,
        SegmentSources, SegmentRows, Slice, ToMap, Restrict, AllSources, MapValues, Visible;
      var iters := BuildScanIterators(start, end);
      var merged := MergeAll(iters);
      results := [];
      for i := 0 to |merged|
        invariant results == Untombed(merged[..i])
      {
        assert merged[..i + 1][..i] == merged[..i];
        if merged[i].value.tombstone {
          continue;
        }
        results := results + [merged[i]];
      }
      assert merged[..|merged|] == merged;
      UntombedFacts(merged);
      UntombedIsVisible(Merged(AllSources(segments, immutable, active, columnMeta)), columnMeta, start, end, ToMap(results));
    }

    static function Untombed(s: seq<Entry<Row>>): seq<Entry<Row>> {
      if s == [] then []
      else
        var n := |s| - 1;
        Untombed(s[..n]) + if s[n].value.tombstone then [] else [s[n]]
    }

    static function LiveRows(m: map<Key, Row>): map<Key, Row> {
      map k | k in m && !m[k].tombstone :: m[k]
    }

    static lemma {:induction false} UntombedSorted(s: seq<Entry<Row>>)
      requires Sorted(s)
      ensures Sorted(Untombed(s))
      ensures forall e :: e in Untombed(s) ==> e in s
    {
      hide Less;
      if s != [] {
        var n := |s| - 1;
        UntombedSorted(s[..n]);
        var t := Untombed(s[..n]);
        forall e | e in t ensures Less(e.key, s[n].key) {
          var i :| 0 <= i < n && s[..n][i] == e;
          assert s[i] == e;
        }
      }
    }

    static lemma {:induction false} UntombedFacts(s: seq<Entry<Row>>)
      requires Sorted(s)
      ensures Sorted(Untombed(s)) && ToMap(Untombed(s)) == LiveRows(ToMap(s))
    {
      UntombedSorted(s);
      if s != [] {
        hide Less, ToMap, LiveRows;
        var n := |s| - 1;
        UntombedFacts(s[..n]);
        SplitLast(s);
        assert s == s[..n] + [s[n]];
        ToMapSnoc(s[..n], s[n]);
        ToMapSnoc(Untombed(s[..n]), s[n]);
        LiveRowsUpdate(ToMap(s[..n]), s[n].key, s[n].value);
        assert Untombed(s) == if s[n].value.tombstone then Untombed(s[..n]) else Untombed(s[..n]) + [s[n]];
      }
    }

    static lemma LiveRowsUpdate(m: map<Key, Row>, k: Key, row: Row)
      requires k !in m
      ensures LiveRows(m[k := row]) == if row.tombstone then LiveRows(m) else LiveRows(m)[k := row]
    {
    }

    static lemma UntombedIsVisible(m: map<Key, Row>, meta: seq<ColumnMeta>, start: Key, end: Key, r: map<Key, Row>)
      requires r == LiveRows(Restrict(m, start, end))
      ensures MapValues(r, (row: Row) => Store(row.columns, meta)) ==
        Visible(MapValues(m, (row: Row) => Observed(row, meta)), start, end)
    {
      hide Less, Store, Within;
    }

    /** One iterator per source that can hold a key of the range, oldest first. */
    method BuildScanIterators(start: Key, end: Key) returns (iters: Sources<Row>)
      requires Valid()
      ensures AllSorted(iters)
      ensures Merged(iters) == Restrict(Merged(AllSources(segments, immutable, active, columnMeta)), start, end)
    {
      hide Less, Merged, Sorted, GoodSegments, NoFalseNegatives, DistinctNames, MapMatches, GoodLevels, GoodIndex, GoodSegment,
        SegmentRows, Slice, ToMap, Restrict, GoodQueue, AllSorted, GoodMem;
      ghost var all := AllSources(segments, immutable, active, columnMeta);
      iters := [];
      NothingRead(start, end);
      for i := 0 to |segments|
        invariant AllSorted(iters) && Merged(iters) == Restrict(Merged(all[..i]), start, end)
      {
        var seg := segments[i];
        assert all[i] == SegmentRows(seg, columnMeta);
        SegmentRowsSorted(i);
        if Less(end, seg.minKey) || Less(seg.maxKey, start) {
          OutsideRange(i, start, end);
          SkipSource(all, i, iters, start, end);
          continue;
        }
        var rows := SegmentScan(SegmentRows(seg, columnMeta), start, end);
        ReadSource(all, i, iters, start, end);
        iters := iters + [rows];
      }
      for i := 0 to |immutable|
        invariant AllSorted(iters) && Merged(iters) == Restrict(Merged(all[..|segments| + i]), start, end)
      {
        MemSorted(immutable, i);
        assert all[|segments| + i] == immutable[i];
        ReadSource(all, |segments| + i, iters, start, end);
        iters := iters + [Slice(immutable[i], start, end)];
      }
      assert all[|all| - 1] == active && all[..|all|] == all;
      ActiveSorted();
      ReadSource(all, |all| - 1, iters, start, end);
      iters := iters + [Slice(active, start, end)];
    }

    static lemma NothingRead(start: Key, end: Key)
      ensures AllSorted<Row>([]) && Merged<Row>([]) == Restrict(Merged<Row>([]), start, end)
    {
    }

    static lemma MemSorted(mems: Sources<Row>, i: nat)
      requires GoodQueue(mems) && i < |mems|
      ensures Sorted(mems[i])
    {
    }

    lemma ActiveSorted()
      requires Valid()
      ensures Sorted(active)
    {
    }

    lemma SegmentRowsSorted(i: nat)
      requires Valid() && i < |segments|
      ensures Sorted(SegmentRows(segments[i], columnMeta))
    {
      hide Less;
      var seg, meta := segments[i], columnMeta;
      MappedSorted(seg.rows, (c: Cells) => SegmentRow(seg.id, c, meta));
    }

    lemma OutsideRange(i: nat, start: Key, end: Key)
      requires Valid() && i < |segments|
      requires Less(end, segments[i].minKey) || Less(segments[i].maxKey, start)
      ensures Slice(SegmentRows(segments[i], columnMeta), start, end) == []
    {
      hide Less, Slice, SegmentRow;
      var seg := segments[i];
      SegmentRange(seg, columnMeta);
      var rows := SegmentRows(seg, columnMeta);
      forall j | 0 <= j < |rows| ensures !Within(rows[j].key, start, end) {
        assert HasKey(seg.rows, seg.rows[j].key);
        OutOfReach(rows[j].key, seg.minKey, seg.maxKey, start, end);
      }
      SliceNone(rows, start, end);
    }

    static lemma OutOfReach(k: Key, minKey: Key, maxKey: Key, start: Key, end: Key)
      requires KeyInRange(k, minKey, maxKey) && (Less(end, minKey) || Less(maxKey, start))
      ensures !Within(k, start, end)
    {
      hide Less;
      if Less(end, minKey) {
        LessTotal(minKey, k);
        if minKey != k { LessTransitive(end, minKey, k); }
      } else {
        LessTotal(k, maxKey);
        if maxKey != k { LessTransitive(k, maxKey, start); }
      }
    }

    static lemma ReadSource(all: Sources<Row>, i: nat, iters: Sources<Row>, start: Key, end: Key)
      requires i < |all| && Sorted(all[i]) && AllSorted(iters)
      requires Merged(iters) == Restrict(Merged(all[..i]), start, end)
      ensures AllSorted(iters + [Slice(all[i], start, end)])
      ensures Merged(iters + [Slice(all[i], start, end)]) == Restrict(Merged(all[..i + 1]), start, end)
    {
      hide Less, Merged, Sorted, Slice, ToMap, Restrict;
      SliceSorted(all[i], start, end);
      SliceFacts(all[i], start, end);
      assert all[..i + 1] == all[..i] + [all[i]];
      MergedSnoc(all[..i], all[i]);
      MergedSnoc(iters, Slice(all[i], start, end));
      RestrictUnion(Merged(all[..i]), ToMap(all[i]), start, end);
    }

    static lemma SkipSource(all: Sources<Row>, i: nat, iters: Sources<Row>, start: Key, end: Key)
      requires i < |all| && Sorted(all[i]) && Slice(all[i], start, end) == []
      requires Merged(iters) == Restrict(Merged(all[..i]), start, end)
      ensures Merged(iters) == Restrict(Merged(all[..i + 1]), start, end)
    {
      hide Less, Merged, Sorted, Slice, Restrict;
      SliceFacts(all[i], start, end);
      assert all[..i + 1] == all[..i] + [all[i]];
      MergedSnoc(all[..i], all[i]);
      RestrictUnion(Merged(all[..i]), ToMap(all[i]), start, end);
      assert ToMap<Row>([]) == map[];
    }

    static lemma RestrictUnion(a: map<Key, Row>, b: map<Key, Row>, start: Key, end: Key)
      ensures Restrict(a + b, start, end) == Restrict(a, start, end) + Restrict(b, start, end)
    {
      hide Less;
    }

    // ----- runs -----

    /** Applies one operation; `fault` chooses where a flush or a compaction fails. */
    method Apply(op: Op, fault: nat) returns (ok: bool, ghost kept: bool)
      requires Valid()
      modifies this, primary
      ensures Valid() && Effect(old(Contents()), op, ok, kept, Contents(), columnMeta)
    {
      hide View, GoodMem, GoodQueue, GoodSegments, GoodLevels, GoodIndex, MapMatches, DistinctNames, NoFalseNegatives;
      hide Drained, FirstKeep, CanonicalRows, KeepsBools, Rewritten, Encoded, ToMap, Merged;
      kept := true;
      match op {
        case Write(key, columns) => ok := Write(key, columns);
        case WriteBatch(rows) => ok := WriteBatch(rows);
        case Delete(key) => ok := Delete(key);
        case Rotate => RotateMemTable(); ok := true;
        case Flush => ok, kept := Flush(fault);
        case Compact =>
          ghost var merged;
          ok, kept, merged := Compact(fault > 0);
      }
    }

    /** Every sequence of operations is a run of the model. */
    method Run(ops: seq<Op>, faults: seq<nat>) returns (oks: seq<bool>, ghost kepts: seq<bool>, ghost views: seq<map<Key, Cell>>)
      requires Valid() && |faults| == |ops|
      modifies this, primary
      ensures Valid() && IsRun(views, ops, oks, kepts, columnMeta)
      ensures views[0] == old(Contents()) && views[|ops|] == Contents()
    {
      hide Valid, View, Effect;
      oks, kepts, views := [], [], [Contents()];
      for i := 0 to |ops|
        invariant Valid() && |oks| == |kepts| == i && |views| == i + 1
        invariant views[0] == old(Contents()) && views[i] == Contents()
        invariant forall j :: 0 <= j < i ==> Effect(views[j], ops[j], oks[j], kepts[j], views[j + 1], columnMeta)
      {
        ghost var kept;
        var ok;
        ok, kept := Apply(ops[i], faults[i]);
        oks, kepts, views := oks + [ok], kepts + [kept], views + [Contents()];
      }
    }
  }
}
