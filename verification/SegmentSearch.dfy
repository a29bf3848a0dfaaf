/** Binary searches over the sorted keys of a segment. */
module SegmentSearch {
  import opened Keys
  import opened SortedEntries

  lemma AscendingAt(keys: seq<Key>, i: nat, j: nat)
    requires Ascending(keys) && i <= j < |keys|
    ensures AtMost(keys[i], keys[j])
  {
    hide Less;
    LessIrreflexive(keys[i]);
    if i < j && Less(keys[j], keys[i]) { LessTransitive(keys[i], keys[j], keys[i]); }
  }

  /** The row that holds exactly `key`. */
  method FindRowByKey(keys: seq<Key>, key: Key) returns (row: nat, found: bool)
    requires Ascending(keys)
    ensures found <==> key in keys
    ensures found ==> row < |keys| && keys[row] == key
    ensures !found ==> row == 0
  {
    hide Less;
    row, found := 0, false;
    if |keys| == 0 {
      return;
    }
    var lo: int, hi: int := 0, |keys| - 1;
    while lo <= hi
      invariant 0 <= lo <= hi + 1 <= |keys|
      invariant forall i :: 0 <= i < lo ==> Less(keys[i], key)
      invariant forall i :: hi < i < |keys| ==> Less(key, keys[i])
    {
      var mid := lo + (hi - lo) / 2;
      if keys[mid] == key {
        return mid, true;
      }
      if Less(keys[mid], key) {
        forall i | 0 <= i <= mid ensures Less(keys[i], key) {
          if i < mid { LessTransitive(keys[i], keys[mid], key); }
        }
        lo := mid + 1;
      } else {
        LessTotal(keys[mid], key);
        forall i | mid <= i < |keys| ensures Less(key, keys[i]) {
          if mid < i { LessTransitive(key, keys[mid], keys[i]); }
        }
        hi := mid - 1;
      }
    }
    LessIrreflexive(key);
  }

  /** The first row whose key is at least `key`. */
  method FindRowByKeyGE(keys: seq<Key>, key: Key) returns (row: nat, found: bool)
    requires Ascending(keys)
    ensures found ==> row < |keys| && AtMost(key, keys[row]) && forall i :: 0 <= i < row ==> Less(keys[i], key)
    ensures !found ==> row == 0 && forall i :: 0 <= i < |keys| ==> Less(keys[i], key)
  {
    hide Less;
    var n := |keys|;
    if n == 0 {
      return 0, false;
    }
    var lo, hi := 0, n;
    while lo < hi
      invariant 0 <= lo <= hi <= n
      invariant forall i :: 0 <= i < lo ==> Less(keys[i], key)
      invariant forall i :: hi <= i < n ==> AtMost(key, keys[i])
    {
      var mid := (lo + hi) / 2;
      if Less(keys[mid], key) {
        forall i | 0 <= i <= mid ensures Less(keys[i], key) {
          if i < mid { LessTransitive(keys[i], keys[mid], key); }
        }
        lo := mid + 1;
      } else {
        forall i | mid <= i < n ensures AtMost(key, keys[i]) {
          if mid < i && Less(keys[i], key) { LessTransitive(keys[mid], keys[i], key); }
        }
        hi := mid;
      }
    }
    if lo >= n {
      return 0, false;
    }
    return lo, true;
  }

  /** The last row whose key is at most `key`. */
  method FindRowByKeyLE(keys: seq<Key>, key: Key) returns (row: nat, found: bool)
    requires Ascending(keys)
    ensures found ==> row < |keys| && AtMost(keys[row], key) && forall i :: row < i < |keys| ==> Less(key, keys[i])
    ensures !found ==> row == 0 && forall i :: 0 <= i < |keys| ==> Less(key, keys[i])
  {
    hide Less;
    var n := |keys|;
    if n == 0 {
      return 0, false;
    }
    var lo, hi := 0, n;
    while lo < hi
      invariant 0 <= lo <= hi <= n
      invariant forall i :: 0 <= i < lo ==> AtMost(keys[i], key)
      invariant forall i :: hi <= i < n ==> Less(key, keys[i])
    {
      var mid := (lo + hi) / 2;
      if AtMost(keys[mid], key) {
        forall i | 0 <= i <= mid ensures AtMost(keys[i], key) {
          if i < mid && Less(key, keys[i]) { LessTransitive(key, keys[i], keys[mid]); }
        }
        lo := mid + 1;
      } else {
        forall i | mid <= i < n ensures Less(key, keys[i]) {
          if mid < i { LessTransitive(key, keys[mid], keys[i]); }
        }
        hi := mid;
      }
    }
    if lo == 0 {
      return 0, false;
    }
    return lo - 1, true;
  }

  /** The rows with `start <= key <= end`: exactly `first..last` when `found`. */
  method ComputeRange(keys: seq<Key>, start: Key, end: Key) returns (first: nat, last: nat, found: bool)
    requires Ascending(keys)
    ensures found ==> first <= last < |keys|
    ensures found ==> forall i :: 0 <= i < |keys| ==> (first <= i <= last <==> Within(keys[i], start, end))
    ensures !found ==> forall i :: 0 <= i < |keys| ==> !Within(keys[i], start, end)
  {
    hide Less;
    if |keys| == 0 {
      return 0, 0, false;
    }
    var s, startOk := FindRowByKeyGE(keys, start);
    if !startOk {
      return 0, 0, false;
    }
    var e, endOk := FindRowByKeyLE(keys, end);
    forall i | s <= i < |keys| ensures AtMost(start, keys[i]) {
      AscendingAt(keys, s, i);
      if Less(keys[i], start) { LessTotal(keys[s], keys[i]); if keys[s] != keys[i] { LessTransitive(keys[s], keys[i], start); } }
    }
    if !endOk || s > e {
      return 0, 0, false;
    }
    forall i | 0 <= i <= e ensures AtMost(keys[i], end) {
      AscendingAt(keys, i, e);
      if Less(end, keys[i]) { LessTotal(keys[i], keys[e]); if keys[i] != keys[e] { LessTransitive(end, keys[i], keys[e]); } }
    }
    return s, e, true;
  }

  function KeysOf<V>(rows: seq<Entry<V>>): (keys: seq<Key>)
    ensures |keys| == |rows| && forall i :: 0 <= i < |rows| ==> keys[i] == rows[i].key
  {
    seq(|rows|, i requires 0 <= i < |rows| => rows[i].key)
  }

  /** A segment iterator yields exactly the in-range rows, in order. */
  method SegmentScan<V>(rows: seq<Entry<V>>, start: Key, end: Key) returns (out: seq<Entry<V>>)
    requires Sorted(rows)
    ensures out == Slice(rows, start, end)
  {
    hide Less, Slice;
    var first, last, found := ComputeRange(KeysOf(rows), start, end);
    if !found {
      SliceNone(rows, start, end);
      return [];
    }
    out := [];
    var rowIdx: int := first - 1;
    while true
      invariant first - 1 <= rowIdx <= last && out == rows[first..rowIdx + 1]
      decreases last - rowIdx
    {
      if rowIdx + 1 > last || rowIdx + 1 >= |rows| {
        break;
      }
      rowIdx := rowIdx + 1;
      out := out + [rows[rowIdx]];
    }
    SliceNone(rows[..first], start, end);
    SliceAll(rows[first..last + 1], start, end);
    SliceNone(rows[last + 1..], start, end);
    SlicePieces(rows[..first], rows[first..last + 1], start, end);
    SlicePieces(rows[..last + 1], rows[last + 1..], start, end);
    assert rows[..first] + rows[first..last + 1] == rows[..last + 1] && rows[..last + 1] + rows[last + 1..] == rows;
  }
}
