/** The in-memory engine: one slice of rows, strictly ascending by key. */
module MemoryEngines {
  import opened Keys
  import opened SortedEntries
  import opened Values
  import opened MemTables

  type Rows = seq<Entry<Row>>

  datatype WriteRow = WriteRow(key: Key, columns: map<Str, Value>)

  datatype WriteError = Fine | EmptyKey | EngineClosed

  // ----- stable sorting and last-wins deduplication -----

  ghost predicate Ordered(s: Rows) {
    forall i, j :: 0 <= i < j < |s| ==> AtMost(s[i].key, s[j].key)
  }

  /** Inserts behind every entry that is not greater. */
  function InsertBehind(s: Rows, e: Entry<Row>): (r: Rows)
    ensures |r| == |s| + 1
  {
    if s == [] || !Less(e.key, s[|s| - 1].key) then s + [e]
    else InsertBehind(s[..|s| - 1], e) + [s[|s| - 1]]
  }

  /** The stable sort of the rows. */
  function StableSorted(s: Rows): (r: Rows)
    ensures |r| == |s|
  {
    if s == [] then [] else InsertBehind(StableSorted(s[..|s| - 1]), s[|s| - 1])
  }

  lemma {:induction false} InsertOrdered(s: Rows, e: Entry<Row>)
    requires Ordered(s)
    ensures Ordered(InsertBehind(s, e))
    ensures forall x :: x in InsertBehind(s, e) <==> x in s || x == e
  {
    hide Less;
    OrderLaws();
    if s != [] && Less(e.key, s[|s| - 1].key) {
      var last := s[|s| - 1];
      InsertOrdered(s[..|s| - 1], e);
      var r := InsertBehind(s[..|s| - 1], e);
      assert s == s[..|s| - 1] + [last];
      forall i | 0 <= i < |r| ensures AtMost(r[i].key, last.key) {
        assert r[i] in r;
        if r[i] in s[..|s| - 1] { var k :| 0 <= k < |s| - 1 && s[k] == r[i]; }
      }
    }
  }

  /** Inserting keeps every key's last entry last. */
  lemma {:induction false} InsertMeans(s: Rows, e: Entry<Row>)
    requires Ordered(s)
    ensures ToMap(InsertBehind(s, e)) == ToMap(s)[e.key := e.value]
  {
    hide Less;
    if s == [] || !Less(e.key, s[|s| - 1].key) {
      ToMapSnoc(s, e);
    } else {
      var last := s[|s| - 1];
      InsertMeans(s[..|s| - 1], e);
      ToMapSnoc(InsertBehind(s[..|s| - 1], e), last);
      LessIrreflexive(e.key);
      assert ToMap(s[..|s| - 1])[e.key := e.value][last.key := last.value] == ToMap(s[..|s| - 1])[last.key := last.value][e.key := e.value];
    }
  }

  /** Sorting is in order and leaves the last write to each key. */
  lemma {:induction false} SortMeans(s: Rows)
    ensures Ordered(StableSorted(s)) && ToMap(StableSorted(s)) == ToMap(s)
  {
    hide InsertBehind;
    if s != [] {
      var n := |s| - 1;
      SortMeans(s[..n]);
      InsertOrdered(StableSorted(s[..n]), s[n]);
      InsertMeans(StableSorted(s[..n]), s[n]);
    }
  }

  /** In-place deduplication of ordered rows: a later entry overwrites the kept one of its key. */
  method Dedup(ordered: Rows) returns (rows: Rows)
    requires Ordered(ordered)
    ensures Sorted(rows) && ToMap(rows) == ToMap(ordered)
  {
    hide Less, ToMap;
    rows := ordered;
    if |rows| <= 1 {
      return;
    }
    var w := 0;
    FirstKept(ordered);
    for i := 1 to |ordered|
      invariant 0 <= w < i && |rows| == |ordered| && rows[i..] == ordered[i..]
      invariant Sorted(rows[..w + 1]) && ToMap(rows[..w + 1]) == ToMap(ordered[..i])
      invariant rows[w].key == ordered[i - 1].key
    {
      assert rows[i] == rows[i..][0] == ordered[i];
      ghost var kept := rows[..w + 1];
      KeepNext(kept, ordered, i);
      if rows[i].key == rows[w].key {
        rows := rows[w := rows[i]];
        assert rows[..w + 1] == kept[w := ordered[i]];
      } else {
        w := w + 1;
        rows := rows[w := rows[i]];
        assert rows[..w + 1] == kept + [ordered[i]];
      }
    }
    assert ordered[..|ordered|] == ordered;
    rows := rows[..w + 1];
  }

  lemma FirstKept(ordered: Rows)
    requires |ordered| > 1
    ensures ordered[..1] == [ordered[0]] && Sorted(ordered[..1])
  {
  }

  /** The next row replaces the last kept one or follows it. */
  lemma KeepNext(kept: Rows, ordered: Rows, i: nat)
    requires kept != [] && 0 < i < |ordered| && Ordered(ordered) && Sorted(kept) && ToMap(kept) == ToMap(ordered[..i])
    requires kept[|kept| - 1].key == ordered[i - 1].key
    ensures var last := |kept| - 1;
      var next := if ordered[i].key == kept[last].key then kept[last := ordered[i]] else kept + [ordered[i]];
      Sorted(next) && ToMap(next) == ToMap(ordered[..i + 1])
  {
    hide Less, ToMap;
    var last, e := |kept| - 1, ordered[i];
    assert ordered[..i + 1] == ordered[..i] + [e];
    ToMapSnoc(ordered[..i], e);
    OrderLaws();
    if e.key == kept[last].key {
      assert kept[last := e] == kept[..last] + [e] && kept == kept[..last] + [kept[last]];
      ToMapSnoc(kept[..last], e);
      ToMapSnoc(kept[..last], kept[last]);
    } else {
      assert AtMost(ordered[i - 1].key, e.key);
      ToMapSnoc(kept, e);
    }
  }

  /** Upserting the entries one after the other. */
  function UpsertAll(s: Rows, es: Rows): Rows {
    if es == [] then s else Upsert(UpsertAll(s, es[..|es| - 1]), es[|es| - 1].key, es[|es| - 1].value)
  }

  lemma {:induction false} UpsertAllMeans(s: Rows, es: Rows)
    requires Sorted(s)
    ensures Sorted(UpsertAll(s, es)) && ToMap(UpsertAll(s, es)) == ToMap(s + es)
  {
    hide Less, Upsert, ToMap;
    if es == [] {
      assert s + es == s;
    } else {
      var n := |es| - 1;
      UpsertAllMeans(s, es[..n]);
      UpsertSorted(UpsertAll(s, es[..n]), es[n].key, es[n].value);
      assert s + es == (s + es[..n]) + [es[n]];
      ToMapSnoc(s + es[..n], es[n]);
    }
  }

  /** Appending, sorting stably and keeping the last of each key is upserting one by one. */
  lemma SortedDedupIsUpserts(s: Rows, es: Rows, deduped: Rows)
    requires Sorted(s) && Sorted(deduped) && ToMap(deduped) == ToMap(StableSorted(s + es))
    ensures deduped == UpsertAll(s, es)
  {
    hide Less, ToMap, StableSorted, Sorted;
    SortMeans(s + es);
    UpsertAllMeans(s, es);
    SortedCanonical(deduped, UpsertAll(s, es));
  }

  // ----- ranges -----

  /** An empty bound does not bound. */
  predicate InRange(k: Key, start: Key, end: Key) {
    (start == [] || AtMost(start, k)) && (end == [] || AtMost(k, end))
  }

  function Ranged(s: Rows, start: Key, end: Key): Rows {
    if s == [] then []
    else Ranged(s[..|s| - 1], start, end) + if InRange(s[|s| - 1].key, start, end) then [s[|s| - 1]] else []
  }

  /** Entries of consecutive versions for a batch. */
  function Versioned(rows: seq<WriteRow>, base: nat): (r: Rows)
    ensures |r| == |rows|
    ensures forall i :: 0 <= i < |r| ==> r[i] == Entry(rows[i].key, Row(base + i + 1, rows[i].columns, false))
  {
    seq(|rows|, i requires 0 <= i < |rows| => Entry(rows[i].key, Row(base + i + 1, rows[i].columns, false)))
  }

  predicate HasEmptyKey(rows: seq<WriteRow>) {
    exists i :: 0 <= i < |rows| && rows[i].key == []
  }

  class MemoryEngine {
    var rows: Rows
    var nextVer: nat
    var closed: bool

    ghost predicate Valid()
      reads this
    {
      Sorted(rows)
    }

    ghost function Contents(): map<Key, Row>
      reads this
    {
      ToMap(rows)
    }

    constructor ()
      ensures Valid() && Contents() == map[] && nextVer == 0 && !closed
    {
      rows, nextVer, closed := [], 0, false;
    }

    /** Binary search for the first row not below the key. */
    method Search(key: Key) returns (idx: nat)
      requires Valid()
      ensures idx == LowerBound(rows, key)
    {
      hide Less, LowerBound;
      var i, j := 0, |rows|;
      while i < j
        invariant i <= j <= |rows|
        invariant forall x :: 0 <= x < i ==> Less(rows[x].key, key)
        invariant forall x :: j <= x < |rows| ==> !Less(rows[x].key, key)
      {
        var h := (i + j) / 2;
        if Less(rows[h].key, key) {
          forall x | 0 <= x <= h ensures Less(rows[x].key, key) {
            if x < h { LessTransitive(rows[x].key, rows[h].key, key); }
          }
          i := h + 1;
        } else {
          forall x | h <= x < |rows| ensures !Less(rows[x].key, key) {
            if h < x && Less(rows[x].key, key) { LessTransitive(rows[h].key, rows[x].key, key); }
          }
          j := h;
        }
      }
      LowerBoundUnique(rows, key, i);
      return i;
    }

    /** Writes one row under the next version; a closed engine still uses the version up. */
    method Write(key: Key, columns: map<Str, Value>) returns (err: WriteError)
      requires Valid()
      modifies this
      ensures Valid() && closed == old(closed)
      ensures err == if key == [] then EmptyKey else if closed then EngineClosed else Fine
      ensures nextVer == if key == [] then old(nextVer) else old(nextVer) + 1
      ensures rows == if err.Fine? then Upsert(old(rows), key, Row(old(nextVer) + 1, columns, false)) else old(rows)
      ensures Contents() == if err.Fine? then old(Contents())[key := Row(old(nextVer) + 1, columns, false)] else old(Contents())
    {
      hide Sorted, ToMap, Less;
      if key == [] {
        return EmptyKey;
      }
      nextVer := nextVer + 1;
      if closed {
        return EngineClosed;
      }
      var row := Row(nextVer, columns, false);
      UpsertSorted(rows, key, row);
      var idx := Search(key);
      if idx < |rows| && rows[idx].key == key {
        rows := rows[idx := Entry(key, row)];
        return Fine;
      }
      rows := rows[..idx] + [Entry(key, row)] + rows[idx..];
      return Fine;
    }

    /** Appends all rows, then sorts and deduplicates once; the result is that of writing the
        rows one by one, versions included. */
    method WriteBatch(batch: seq<WriteRow>) returns (err: WriteError)
      requires Valid()
      modifies this
      ensures Valid() && closed == old(closed)
      ensures err == if batch == [] then Fine else if HasEmptyKey(batch) then EmptyKey else if closed then EngineClosed else Fine
      ensures nextVer == if err.Fine? then old(nextVer) + |batch| else old(nextVer)
      ensures rows == if err.Fine? then UpsertAll(old(rows), Versioned(batch, old(nextVer))) else old(rows)
    {
      hide Sorted, ToMap, Less, StableSorted;
      if |batch| == 0 {
        return Fine;
      }
      for i := 0 to |batch|
        invariant forall j :: 0 <= j < i ==> batch[j].key != []
        invariant rows == old(rows) && nextVer == old(nextVer) && closed == old(closed)
      {
        if batch[i].key == [] {
          return EmptyKey;
        }
      }
      if closed {
        return EngineClosed;
      }
      nextVer := nextVer + |batch|;
      var base := nextVer;
      ghost var all := Versioned(batch, old(nextVer));
      for i := 0 to |batch|
        invariant nextVer == base == old(nextVer) + |batch| && closed == old(closed)
        invariant rows == old(rows) + all[..i]
      {
        var version := base - |batch| + i + 1;
        assert all[..i + 1] == all[..i] + [all[i]];
        rows := rows + [Entry(batch[i].key, Row(version, batch[i].columns, false))];
      }
      assert all[..|batch|] == all;
      SortMeans(rows);
      var deduped := Dedup(StableSorted(rows));
      SortedDedupIsUpserts(old(rows), all, deduped);
      rows := deduped;
      return Fine;
    }

    /** Deleting a missing key, or the empty one, is no error. */
    method Delete(key: Key) returns (err: WriteError)
      requires Valid()
      modifies this
      ensures Valid() && closed == old(closed) && nextVer == old(nextVer)
      ensures err == if key != [] && closed then EngineClosed else Fine
      ensures rows == if err.Fine? && key != [] then Remove(old(rows), key) else old(rows)
      ensures Contents() == if err.Fine? && key != [] then old(Contents()) - {key} else old(Contents())
    {
      hide Sorted, ToMap, Less;
      if key == [] {
        return Fine;
      }
      if closed {
        return EngineClosed;
      }
      RemoveSorted(rows, key);
      var idx := Search(key);
      if idx >= |rows| || rows[idx].key != key {
        return Fine;
      }
      rows := rows[..idx] + rows[idx + 1..];
      return Fine;
    }

    method Get(key: Key) returns (row: Option<Row>)
      requires Valid()
      ensures row == if !closed && key in Contents() then Some(Contents()[key]) else None
    {
      hide Sorted, ToMap, Less;
      if closed {
        return None;
      }
      LookupIsMap(rows, key);
      var idx := Search(key);
      if idx < |rows| && rows[idx].key == key {
        return Some(rows[idx].value);
      }
      return None;
    }

    /** The rows of the range, in order. */
    method ScanRange(start: Key, end: Key) returns (entries: Rows)
      requires Valid()
      ensures entries == if closed then [] else Ranged(rows, start, end)
    {
      hide Less, LowerBound, Sorted;
      entries := [];
      if closed {
        return;
      }
      var startIdx := 0;
      if start != [] {
        startIdx := Search(start);
        LowerBoundSplits(rows, start);
      }
      NothingBefore(rows, start, end, startIdx);
      var i := startIdx;
      while i < |rows|
        invariant startIdx <= i <= |rows| && entries == Ranged(rows[..i], start, end)
      {
        assert rows[..i + 1][..i] == rows[..i];
        if end != [] && Less(end, rows[i].key) {
          NothingAfter(rows, start, end, i);
          return;
        }
        entries := entries + [rows[i]];
        i := i + 1;
      }
      assert rows[..|rows|] == rows;
    }

    method Close()
      requires Valid()
      modifies this
      ensures Valid() && closed && rows == []
    {
      closed := true;
      rows := [];
    }
  }

  lemma {:induction false} NothingBefore(s: Rows, start: Key, end: Key, n: nat)
    requires n <= |s| && forall i :: 0 <= i < n ==> !InRange(s[i].key, start, end)
    ensures Ranged(s[..n], start, end) == []
  {
    if n > 0 {
      assert s[..n][..n - 1] == s[..n - 1];
      NothingBefore(s, start, end, n - 1);
    }
  }

  lemma {:induction false} NothingAfter(s: Rows, start: Key, end: Key, n: nat)
    requires n < |s| && Sorted(s) && end != [] && Less(end, s[n].key)
    ensures Ranged(s, start, end) == Ranged(s[..n], start, end)
    decreases |s|
  {
    hide Less;
    var last := |s| - 1;
    if n < last {
      LessTransitive(end, s[n].key, s[last].key);
      NothingAfter(s[..last], start, end, n);
      assert s[..last][..n] == s[..n];
    }
  }

  lemma {:induction false} RangedSorted(s: Rows, start: Key, end: Key)
    requires Sorted(s)
    ensures Sorted(Ranged(s, start, end))
    ensures forall e :: e in Ranged(s, start, end) ==> e in s
  {
    hide Less, InRange;
    if s != [] {
      var n := |s| - 1;
      RangedSorted(s[..n], start, end);
      assert s == s[..n] + [s[n]];
      var r := Ranged(s[..n], start, end);
      forall i | 0 <= i < |r| ensures Less(r[i].key, s[n].key) {
        assert r[i] in s[..n];
        var j :| 0 <= j < n && s[j] == r[i];
      }
    }
  }

  function InRangeOf(m: map<Key, Row>, start: Key, end: Key): map<Key, Row> {
    map k | k in m && InRange(k, start, end) :: m[k]
  }

  lemma InRangeUpdate(m: map<Key, Row>, k: Key, row: Row, start: Key, end: Key)
    requires k !in m
    ensures InRangeOf(m[k := row], start, end) ==
      if InRange(k, start, end) then InRangeOf(m, start, end)[k := row] else InRangeOf(m, start, end)
  {
    hide InRange;
  }

  lemma RangedLast(s: Rows, start: Key, end: Key)
    requires s != []
    ensures var r, last := Ranged(s[..|s| - 1], start, end), s[|s| - 1];
      Ranged(s, start, end) == if InRange(last.key, start, end) then r + [last] else r
  {
    hide InRange;
  }

  lemma NothingRanged(start: Key, end: Key)
    ensures ToMap(Ranged([], start, end)) == InRangeOf(ToMap([]), start, end)
  {
  }

  lemma LastIsNew(s: Rows)
    requires Sorted(s) && s != []
    ensures Sorted(s[..|s| - 1]) && s[|s| - 1].key !in ToMap(s[..|s| - 1])
    ensures ToMap(s) == ToMap(s[..|s| - 1])[s[|s| - 1].key := s[|s| - 1].value]
  {
    hide Less;
    SplitLast(s);
  }

  lemma {:induction false} RangedMap(s: Rows, start: Key, end: Key)
    requires Sorted(s)
    ensures ToMap(Ranged(s, start, end)) == InRangeOf(ToMap(s), start, end)
  {
    hide Less, InRange, ToMap, Sorted, InRangeOf, Ranged;
    if s == [] {
      NothingRanged(start, end);
    } else {
      var p, last := s[..|s| - 1], s[|s| - 1];
      LastIsNew(s);
      RangedMap(p, start, end);
      RangedLast(s, start, end);
      ToMapSnoc(Ranged(p, start, end), last);
      InRangeUpdate(ToMap(p), last.key, last.value, start, end);
    }
  }

  /** A range scan delivers exactly the rows in range, each once, in order. */
  lemma RangedMeans(s: Rows, start: Key, end: Key)
    requires Sorted(s)
    ensures Sorted(Ranged(s, start, end)) && ToMap(Ranged(s, start, end)) == InRangeOf(ToMap(s), start, end)
  {
    hide Less, InRange, ToMap, InRangeOf, Ranged, Sorted;
    RangedSorted(s, start, end);
    RangedMap(s, start, end);
  }
}
