/** Loading segments from a directory: the order of file names against the order of segment ids,
    and which row a scan and a point read then pick. */
module SegmentLoading {
  import opened Keys
  import opened SortedEntries
  import opened Merges
  import opened LsmModel
  import opened PrimaryIndexes
  import opened LsmEngine

  // ----- file names -----

  function Digit(d: nat): byte
    requires d < 10
  {
    (48 + d) as byte
  }

  /** The decimal form of an id. */
  function Decimal(n: nat): (r: Str)
    ensures r != [] && AllDigits(r)
  {
    if n < 10 then [Digit(n)] else Decimal(n / 10) + [Digit(n % 10)]
  }

  predicate AllDigits(s: Str) {
    forall i :: 0 <= i < |s| ==> 48 <= s[i] <= 57
  }

  function NumberOf(s: Str): nat
    requires AllDigits(s)
  {
    if s == [] then 0 else 10 * NumberOf(s[..|s| - 1]) + (s[|s| - 1] as nat - 48)
  }

  lemma {:induction false} NumberOfDecimal(n: nat)
    ensures NumberOf(Decimal(n)) == n
  {
    if n >= 10 {
      NumberOfDecimal(n / 10);
      assert Decimal(n)[..|Decimal(n)| - 1] == Decimal(n / 10);
    }
  }

  /** "segment_" before the id and ".widb" behind it. */
  const PREFIX: Str := [115, 101, 103, 109, 101, 110, 116, 95]
  const SUFFIX: Str := [46, 119, 105, 100, 98]

  function FileName(id: nat): Str {
    PREFIX + (Decimal(id) + SUFFIX)
  }

  lemma {:induction false} CommonPrefix(p: Str, a: Str, b: Str)
    ensures Less(p + a, p + b) <==> Less(a, b)
  {
    if p == [] {
      assert p + a == a && p + b == b;
    } else {
      assert (p + a)[1..] == p[1..] + a && (p + b)[1..] == p[1..] + b;
      CommonPrefix(p[1..], a, b);
    }
  }

  lemma {:induction false} SameLengthHeads(x: Str, y: Str, t: Str, u: Str)
    requires |x| == |y|
    ensures Less(x + t, y + u) <==> Less(x, y) || (x == y && Less(t, u))
  {
    if x == [] {
      assert x + t == t && y + u == u;
    } else {
      assert (x + t)[1..] == x[1..] + t && (y + u)[1..] == y[1..] + u;
      SameLengthHeads(x[1..], y[1..], t, u);
      assert x == y <==> x[0] == y[0] && x[1..] == y[1..] by {
        assert x == [x[0]] + x[1..] && y == [y[0]] + y[1..];
      }
    }
  }

  lemma LessOfOne(a: byte, b: byte)
    ensures Less([a], [b]) <==> a < b
  {
    assert [a][1..] == [] && [b][1..] == [];
  }

  /** On digit strings of one length the byte order is the numeric order. */
  lemma {:induction false} SameLengthOrder(x: Str, y: Str)
    requires |x| == |y| && AllDigits(x) && AllDigits(y)
    ensures Less(x, y) <==> NumberOf(x) < NumberOf(y)
    ensures x == y <==> NumberOf(x) == NumberOf(y)
  {
    if x != [] {
      var n := |x| - 1;
      var p, q, a, b := x[..n], y[..n], x[n], y[n];
      assert x == p + [a] && y == q + [b];
      SameLengthOrder(p, q);
      SameLengthHeads(p, q, [a], [b]);
      LessOfOne(a, b);
      hide Less;
    }
  }

  /** The number without its last `k` digits. */
  function Leading(n: nat, k: nat): nat {
    if k == 0 then n else Leading(n / 10, k - 1)
  }

  lemma {:induction false} LeadingDigits(s: Str, n: nat)
    requires AllDigits(s) && n <= |s|
    ensures NumberOf(s[..n]) == Leading(NumberOf(s), |s| - n)
    decreases |s|
  {
    if n < |s| {
      var m := |s| - 1;
      LeadingDigits(s[..m], n);
      assert s[..m][..n] == s[..n];
      assert NumberOf(s) / 10 == NumberOf(s[..m]);
    } else {
      assert s[..n] == s;
    }
  }

  /** File `a` comes before file `b` exactly when `a` is at most the number that as many leading
      digits of `b` make: 9 comes after 10, 1 before it. */
  lemma NameOrderIff(a: nat, b: nat)
    requires a < b && |Decimal(a)| <= |Decimal(b)|
    ensures Less(FileName(a), FileName(b)) <==> a <= Leading(b, |Decimal(b)| - |Decimal(a)|)
  {
    hide Less, NumberOf, Decimal;
    var x, y := Decimal(a), Decimal(b);
    var n := |x|;
    var y1, y2 := y[..n], y[n..];
    CommonPrefix(PREFIX, x + SUFFIX, y + SUFFIX);
    assert y + SUFFIX == y1 + (y2 + SUFFIX);
    SameLengthHeads(x, y1, SUFFIX, y2 + SUFFIX);
    SameLengthOrder(x, y1);
    NumberOfDecimal(a);
    NumberOfDecimal(b);
    LeadingDigits(y, n);
    if y2 == [] {
      assert y1 == y && y2 + SUFFIX == SUFFIX;
      LessIrreflexive(SUFFIX);
    } else {
      DotBeforeDigit(y2);
    }
  }

  lemma DotBeforeDigit(y: Str)
    requires y != [] && AllDigits(y)
    ensures Less(SUFFIX, y + SUFFIX)
  {
    assert (y + SUFFIX)[0] == y[0];
  }

  /** Of ids with the same number of digits the files stand in id order. */
  lemma SameDigitsInOrder(a: nat, b: nat)
    requires a < b && |Decimal(a)| == |Decimal(b)|
    ensures Less(FileName(a), FileName(b))
  {
    hide Less, Decimal;
    NameOrderIff(a, b);
  }

  /** The tenth segment is listed before the ninth. */
  lemma TenBeforeNine()
    ensures Less(FileName(10), FileName(9))
  {
    var nine, ten := Decimal(9), Decimal(10);
    assert nine == [57] && ten == [49, 48];
    CommonPrefix(PREFIX, ten + SUFFIX, nine + SUFFIX);
    assert (ten + SUFFIX)[0] == 49 && (nine + SUFFIX)[0] == 57;
  }

  lemma {:induction false} MoreDigits(a: nat, b: nat)
    requires a <= b
    ensures |Decimal(a)| <= |Decimal(b)|
  {
    if b >= 10 && a >= 10 {
      MoreDigits(a / 10, b / 10);
    }
  }

  /** The smaller id is at most the number that as many leading digits of the larger make. */
  predicate ListsFirst(a: nat, b: nat)
    requires a < b
  {
    MoreDigits(a, b);
    a <= Leading(b, |Decimal(b)| - |Decimal(a)|)
  }

  /** As a directory lists them. */
  ghost predicate ListedByName(ids: seq<nat>) {
    forall i, j :: 0 <= i < j < |ids| ==> Less(FileName(ids[i]), FileName(ids[j]))
  }

  /** A directory lists its segment files in id order exactly when every two of their ids stand that way. */
  lemma ListedInIdOrderIff(ids: seq<nat>)
    requires ListedByName(ids)
    ensures AscendingIds(ids) <==> forall a, b :: a in ids && b in ids && a < b ==> ListsFirst(a, b)
  {
    hide Less, FileName, ListsFirst;
    if AscendingIds(ids) {
      forall a, b | a in ids && b in ids && a < b ensures ListsFirst(a, b) {
        var i :| 0 <= i < |ids| && ids[i] == a;
        var j :| 0 <= j < |ids| && ids[j] == b;
        assert !(j < i);
        NamesInOrder(a, b);
      }
    } else {
      var i, j :| 0 <= i < j < |ids| && ids[j] <= ids[i];
      LessIrreflexive(FileName(ids[i]));
      assert ids[j] < ids[i];
      NamesInOrder(ids[j], ids[i]);
      if ListsFirst(ids[j], ids[i]) { LessTransitive(FileName(ids[i]), FileName(ids[j]), FileName(ids[i])); }
    }
  }

  lemma NamesInOrder(a: nat, b: nat)
    requires a < b
    ensures Less(FileName(a), FileName(b)) <==> ListsFirst(a, b)
  {
    hide Less, FileName, Decimal;
    MoreDigits(a, b);
    NameOrderIff(a, b);
  }

  // ----- what readers pick -----

  datatype Holder<V> = Holder(id: nat, rows: seq<Entry<V>>)

  /** A scan takes a key from the last source that holds it. */
  function ScanPicks<V>(hs: seq<Holder<V>>, k: Key): Option<V> {
    if hs == [] then None
    else
      var n := |hs| - 1;
      if k in ToMap(hs[n].rows) then Some(ToMap(hs[n].rows)[k]) else ScanPicks(hs[..n], k)
  }

  /** A point read takes it from the holder with the greatest id. */
  function NewestHolder<V>(hs: seq<Holder<V>>, k: Key): (r: Option<nat>)
    ensures r.Some? ==> r.value < |hs| && k in ToMap(hs[r.value].rows)
  {
    if hs == [] then None
    else
      var n := |hs| - 1;
      var best := NewestHolder(hs[..n], k);
      if k in ToMap(hs[n].rows) && (best.None? || hs[best.value].id < hs[n].id) then Some(n) else best
  }

  function GetPicks<V>(hs: seq<Holder<V>>, k: Key): Option<V> {
    var h := NewestHolder(hs, k);
    if h.None? then None else Some(ToMap(hs[h.value].rows)[k])
  }

  function Sources<V>(hs: seq<Holder<V>>): (r: seq<seq<Entry<V>>>)
    ensures |r| == |hs| && forall i :: 0 <= i < |r| ==> r[i] == hs[i].rows
  {
    seq(|hs|, i requires 0 <= i < |hs| => hs[i].rows)
  }

  /** The merge's choice is the last source's. */
  lemma {:induction false} ScanPicksMerged<V>(hs: seq<Holder<V>>, k: Key)
    ensures ScanPicks(hs, k) == if k in Merged(Sources(hs)) then Some(Merged(Sources(hs))[k]) else None
  {
    hide ToMap;
    if hs != [] {
      var n := |hs| - 1;
      ScanPicksMerged(hs[..n], k);
      assert Sources(hs)[..n] == Sources(hs[..n]);
    }
  }

  ghost predicate AscendingIds(ids: seq<nat>) {
    forall i, j :: 0 <= i < j < |ids| ==> ids[i] < ids[j]
  }

  function IdsOf<V>(hs: seq<Holder<V>>): (r: seq<nat>)
    ensures |r| == |hs| && forall i :: 0 <= i < |r| ==> r[i] == hs[i].id
  {
    seq(|hs|, i requires 0 <= i < |hs| => hs[i].id)
  }

  lemma {:induction false} AscendingAgree<V>(hs: seq<Holder<V>>, k: Key)
    requires AscendingIds(IdsOf(hs))
    ensures ScanPicks(hs, k) == GetPicks(hs, k)
  {
    hide ToMap;
    if hs != [] {
      var n := |hs| - 1;
      assert IdsOf(hs[..n]) == IdsOf(hs)[..n];
      AscendingAgree(hs[..n], k);
      var best := NewestHolder(hs[..n], k);
      if best.Some? { assert IdsOf(hs)[best.value] < IdsOf(hs)[n]; }
    }
  }

  /** Only segments `i` and `j` hold a key, with different rows. */
  function Witness(ids: seq<nat>, i: nat, j: nat): (r: seq<Holder<bool>>)
    ensures |r| == |ids|
    ensures forall t :: 0 <= t < |ids| ==> r[t] == Holder(ids[t], if t == i then [Entry([1], true)] else if t == j then [Entry([1], false)] else [])
  {
    seq(|ids|, t requires 0 <= t < |ids| => Holder(ids[t], if t == i then [Entry([1], true)] else if t == j then [Entry([1], false)] else []))
  }

  lemma WitnessRows(hs: seq<Holder<bool>>, t: nat)
    requires t < |hs|
    ensures hs[t].rows == [] ==> ToMap(hs[t].rows) == map[]
    ensures forall b: bool :: hs[t].rows == [Entry([1], b)] ==> ToMap(hs[t].rows) == map[[1] := b]
  {
    if hs[t].rows != [] && hs[t].rows == [hs[t].rows[0]] {
      assert hs[t].rows[..0] == [];
    }
  }

  lemma {:induction false} WitnessPicks(hs: seq<Holder<bool>>, ids: seq<nat>, i: nat, j: nat, n: nat)
    requires hs == Witness(ids, i, j) && i < j < |ids| && n <= |ids| && ids[j] < ids[i]
    ensures n <= i ==> ScanPicks(hs[..n], [1]) == None && NewestHolder(hs[..n], [1]) == None
    ensures i < n <= j ==> NewestHolder(hs[..n], [1]) == Some(i)
    ensures j < n ==> ScanPicks(hs[..n], [1]) == Some(false) && NewestHolder(hs[..n], [1]) == Some(i)
  {
    hide ToMap;
    if n > 0 {
      var m := n - 1;
      assert hs[..n][..m] == hs[..m] && hs[..n][m] == hs[m];
      WitnessPicks(hs, ids, i, j, m);
      WitnessRows(hs, m);
      hide Witness;
    }
  }

  /** A scan and a point read agree on every content exactly when the segments stand in ascending
      order of their ids (which are distinct). */
  lemma ReadersAgreeIff(ids: seq<nat>)
    requires forall i, j :: 0 <= i < j < |ids| ==> ids[i] != ids[j]
    ensures (forall hs: seq<Holder<bool>>, k :: IdsOf(hs) == ids ==> ScanPicks(hs, k) == GetPicks(hs, k)) <==> AscendingIds(ids)
  {
    hide ScanPicks, GetPicks;
    if AscendingIds(ids) {
      forall hs: seq<Holder<bool>>, k | IdsOf(hs) == ids ensures ScanPicks(hs, k) == GetPicks(hs, k) { AscendingAgree(hs, k); }
    } else {
      var i, j :| 0 <= i < j < |ids| && ids[j] <= ids[i];
      Disagree(ids, i, j);
      assert IdsOf(Witness(ids, i, j)) == ids;
    }
  }

  /** After loading a directory, a scan and a point read agree on every content exactly when every
      two of the ids list in order. */
  lemma LoadedReadersAgreeIff(ids: seq<nat>)
    requires ListedByName(ids)
    ensures (forall hs: seq<Holder<bool>>, k :: IdsOf(hs) == ids ==> ScanPicks(hs, k) == GetPicks(hs, k))
      <==> forall a, b :: a in ids && b in ids && a < b ==> ListsFirst(a, b)
  {
    hide Less, FileName, ListsFirst, ScanPicks, GetPicks, AscendingIds;
    ListedInIdOrderIff(ids);
    forall i, j | 0 <= i < j < |ids| ensures ids[i] != ids[j] { LessIrreflexive(FileName(ids[i])); }
    ReadersAgreeIff(ids);
  }

  lemma Disagree(ids: seq<nat>, i: nat, j: nat)
    requires i < j < |ids| && ids[j] < ids[i]
    ensures ScanPicks(Witness(ids, i, j), [1]) != GetPicks(Witness(ids, i, j), [1])
  {
    var hs := Witness(ids, i, j);
    WitnessPicks(hs, ids, i, j, |ids|);
    assert hs[..|ids|] == hs;
    WitnessRows(hs, i);
  }

  // ----- the loading loop -----

  /** A directory entry: not a segment file, a segment file that does not parse, or a segment. */
  datatype DirEntry = Other | Broken | Parsed(seg: Segment)

  function Loaded(entries: seq<DirEntry>): seq<Segment> {
    if entries == [] then []
    else
      var n := |entries| - 1;
      Loaded(entries[..n]) + if entries[n].Parsed? then [entries[n].seg] else []
  }

  /** The segments by id; of two files with one id the later wins. */
  function ById(segs: seq<Segment>): map<nat, Segment> {
    if segs == [] then map[]
    else ById(segs[..|segs| - 1])[segs[|segs| - 1].id := segs[|segs| - 1]]
  }

  lemma {:induction false} ByIdMeans(segs: seq<Segment>)
    requires forall i, j :: 0 <= i < j < |segs| ==> segs[i].id != segs[j].id
    ensures MapMatches(ById(segs), segs)
  {
    if segs != [] {
      var n := |segs| - 1;
      ByIdMeans(segs[..n]);
      assert forall i :: 0 <= i < n ==> segs[..n][i] == segs[i];
    }
  }

  function LevelZero(n: nat): (r: seq<nat>)
    ensures |r| == n && forall i :: 0 <= i < n ==> r[i] == 0
  {
    seq(n, i => 0)
  }

  predicate Registrable(seg: Segment) {
    seg.id != 0 && !(Less(seg.maxKey, seg.minKey) && seg.minKey != [] && seg.maxKey != [])
  }

  ghost predicate SomeReadable(entries: seq<DirEntry>) {
    (forall i :: 0 <= i < |entries| ==> !entries[i].Broken?) || exists i :: 0 <= i < |entries| && entries[i].Parsed?
  }

  lemma LoadedMore(entries: seq<DirEntry>, i: nat)
    requires i < |entries|
    ensures Loaded(entries[..i + 1]) == Loaded(entries[..i]) + if entries[i].Parsed? then [entries[i].seg] else []
  {
    assert entries[..i + 1][..i] == entries[..i];
  }

  lemma OneMoreLoaded(segs: seq<Segment>, seg: Segment)
    ensures ById(segs + [seg]) == ById(segs)[seg.id := seg] && LevelZero(|segs| + 1) == LevelZero(|segs|) + [0]
  {
    assert (segs + [seg])[..|segs|] == segs;
  }

  ghost predicate GreatestId(segs: seq<Segment>, m: nat) {
    && (forall i :: 0 <= i < |segs| ==> segs[i].id <= m)
    && (m == 0 || exists i :: 0 <= i < |segs| && segs[i].id == m)
  }

  lemma GreatestMore(segs: seq<Segment>, seg: Segment, m: nat)
    requires GreatestId(segs, m)
    ensures GreatestId(segs + [seg], if seg.id > m then seg.id else m)
  {
    var all := segs + [seg];
    assert all[|segs|] == seg && forall i :: 0 <= i < |segs| ==> all[i] == segs[i];
  }

  /** Among the first `n` entries: segment files, and those that do not parse. */
  ghost predicate Tally(entries: seq<DirEntry>, n: nat, files: nat, failed: nat)
    requires n <= |entries|
  {
    && failed <= files
    && (failed > 0 <==> exists j :: 0 <= j < n && entries[j].Broken?)
    && (failed < files <==> exists j :: 0 <= j < n && entries[j].Parsed?)
  }

  lemma TallyMore(entries: seq<DirEntry>, n: nat, files: nat, failed: nat)
    requires n < |entries| && Tally(entries, n, files, failed)
    ensures Tally(entries, n + 1, if entries[n].Other? then files else files + 1, if entries[n].Broken? then failed + 1 else failed)
  {
  }

  lemma TallyMeans(entries: seq<DirEntry>, files: nat, failed: nat)
    requires Tally(entries, |entries|, files, failed)
    ensures SomeReadable(entries) <==> !(failed > 0 && failed == files)
  {
  }

  datatype Loading = Loading(segments: seq<Segment>, segmentMap: map<nat, Segment>, levels: seq<nat>, maxSegID: nat, files: nat, failed: nat)

  /** The state of the loop after the first `n` entries. */
  ghost predicate Progress(entries: seq<DirEntry>, n: nat, s: Loading)
    requires n <= |entries|
  {
    && s.segments == Loaded(entries[..n]) && s.segmentMap == ById(s.segments) && s.levels == LevelZero(|s.segments|)
    && GreatestId(s.segments, s.maxSegID) && Tally(entries, n, s.files, s.failed)
  }

  function AfterEntry(s: Loading, e: DirEntry): Loading {
    match e
    case Other => s
    case Broken => s.(files := s.files + 1, failed := s.failed + 1)
    case Parsed(seg) =>
      s.(segments := s.segments + [seg], segmentMap := s.segmentMap[seg.id := seg], levels := s.levels + [0],
        maxSegID := if seg.id > s.maxSegID then seg.id else s.maxSegID, files := s.files + 1)
  }

  lemma ProgressMore(entries: seq<DirEntry>, n: nat, s: Loading)
    requires n < |entries| && Progress(entries, n, s)
    ensures Progress(entries, n + 1, AfterEntry(s, entries[n]))
  {
    hide Loaded, ById, LevelZero, GreatestId, Tally;
    LoadedMore(entries, n);
    TallyMore(entries, n, s.files, s.failed);
    if entries[n].Parsed? {
      GreatestMore(s.segments, entries[n].seg, s.maxSegID);
      OneMoreLoaded(s.segments, entries[n].seg);
    } else {
      assert Loaded(entries[..n]) + [] == Loaded(entries[..n]);
    }
  }

  lemma NoProgress(entries: seq<DirEntry>)
    ensures Progress(entries, 0, Loading([], map[], [], 0, 0, 0))
  {
    assert entries[..0] == [];
  }

  /** Every readable segment is kept, in directory order, and found by its id; loading the files fails
      only when there are segment files and none of them can be read. The next id is drawn above the
      greatest. */
  method LoadFiles(entries: seq<DirEntry>)
    returns (ok: bool, segments: seq<Segment>, segmentMap: map<nat, Segment>, levels: seq<nat>, maxSegID: nat)
    ensures segments == Loaded(entries) && segmentMap == ById(segments) && levels == LevelZero(|segments|)
    ensures ok <==> SomeReadable(entries)
    ensures GreatestId(segments, maxSegID)
  {
    hide Progress, Tally;
    segments, segmentMap, levels, maxSegID := [], map[], [], 0;
    var segFileCount: nat, failedCount: nat := 0, 0;
    NoProgress(entries);
    for i := 0 to |entries|
      invariant Progress(entries, i, Loading(segments, segmentMap, levels, maxSegID, segFileCount, failedCount))
    {
      ProgressMore(entries, i, Loading(segments, segmentMap, levels, maxSegID, segFileCount, failedCount));
      match entries[i] {
        case Other =>
        case Broken =>
          segFileCount, failedCount := segFileCount + 1, failedCount + 1;
        case Parsed(seg) =>
          segFileCount := segFileCount + 1;
          segments := segments + [seg];
          segmentMap := segmentMap[seg.id := seg];
          levels := levels + [0];
          if seg.id > maxSegID {
            maxSegID := seg.id;
          }
      }
    }
    AllProgress(entries, Loading(segments, segmentMap, levels, maxSegID, segFileCount, failedCount));
    ok := !(failedCount > 0 && failedCount == segFileCount);
  }

  lemma AllProgress(entries: seq<DirEntry>, s: Loading)
    requires Progress(entries, |entries|, s)
    ensures s.segments == Loaded(entries) && s.segmentMap == ById(s.segments) && s.levels == LevelZero(|s.segments|)
    ensures GreatestId(s.segments, s.maxSegID) && (SomeReadable(entries) <==> !(s.failed > 0 && s.failed == s.files))
  {
    assert entries[..|entries|] == entries;
    TallyMeans(entries, s.files, s.failed);
  }

  /** Opening a directory: the loaded segments stand in the map, at level 0, and in the index with
      their key ranges; it succeeds exactly when some file could be read, or none is there, and the
      index takes every segment. */
  method LoadSegments(entries: seq<DirEntry>, primary: PrimaryIndex)
    returns (ok: bool, segments: seq<Segment>, segmentMap: map<nat, Segment>, levels: seq<nat>, maxSegID: nat)
    requires primary.segments == []
    modifies primary
    ensures segments == Loaded(entries) && levels == LevelZero(|segments|)
    ensures (forall i, j :: 0 <= i < j < |segments| ==> segments[i].id != segments[j].id) ==> MapMatches(segmentMap, segments)
    ensures ok <==> SomeReadable(entries) && forall i :: 0 <= i < |segments| ==> Registrable(segments[i])
    ensures ok ==> GoodIndex(primary.segments, segments, levels)
    ensures GreatestId(segments, maxSegID)
  {
    hide Less, ByMinKey, SomeReadable, MapMatches, ById, GreatestId, Registrable, GoodIndex, Loaded, LevelZero;
    ok, segments, segmentMap, levels, maxSegID := LoadFiles(entries);
    if forall i, j :: 0 <= i < j < |segments| ==> segments[i].id != segments[j].id { ByIdMeans(segments); }
    if !ok {
      return;
    }
    ok := RegisterAll(primary, segments, levels);
  }

  /** Registers the segments in list order; it stops at the first one the index refuses. */
  method RegisterAll(primary: PrimaryIndex, segs: seq<Segment>, levels: seq<nat>) returns (ok: bool)
    requires primary.segments == [] && |levels| == |segs|
    modifies primary
    ensures ok <==> forall i :: 0 <= i < |segs| ==> Registrable(segs[i])
    ensures ok ==> GoodIndex(primary.segments, segs, levels)
  {
    hide Less, ByMinKey;
    EmptyIndex();
    for i := 0 to |segs|
      invariant ByMinKey(primary.segments) && multiset(primary.segments) == multiset(Metas(segs[..i], levels[..i]))
      invariant forall j :: 0 <= j < i ==> Registrable(segs[j])
    {
      MetasMore(segs, levels, i);
      var err := primary.RegisterSegment(MetaOf(segs[i], levels[i]));
      if !err.Fine? {
        return false;
      }
    }
    assert segs[..|segs|] == segs && levels[..|levels|] == levels;
    return true;
  }

  lemma EmptyIndex()
    ensures ByMinKey([]) && Metas([], []) == []
  {
  }

  lemma MetasMore(segs: seq<Segment>, levels: seq<nat>, i: nat)
    requires |levels| == |segs| && i < |segs|
    ensures multiset(Metas(segs[..i + 1], levels[..i + 1])) == multiset(Metas(segs[..i], levels[..i])) + multiset{MetaOf(segs[i], levels[i])}
  {
    assert Metas(segs[..i + 1], levels[..i + 1]) == Metas(segs[..i], levels[..i]) + [MetaOf(segs[i], levels[i])];
  }
}
