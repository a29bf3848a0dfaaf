/** The primary-key index: the key range of every segment, ordered by smallest key. */
module PrimaryIndexes {
  import opened Keys

  datatype SegmentMeta = SegmentMeta(id: nat, minKey: Key, maxKey: Key, level: nat)

  predicate KeyInRange(key: Key, minKey: Key, maxKey: Key) {
    if minKey == [] && maxKey == [] then false
    else AtMost(minKey, key) && AtMost(key, maxKey)
  }

  predicate RangeOverlap(start: Key, end: Key, minKey: Key, maxKey: Key) {
    if minKey == [] && maxKey == [] then false
    else AtMost(start, maxKey) && AtMost(minKey, end)
  }

  /** A key is in the range when it is not below the least key nor above the greatest; a range without keys holds none. */
  lemma KeyInRangeMeans(key: Key, minKey: Key, maxKey: Key)
    ensures KeyInRange(key, minKey, maxKey) <==>
      (minKey != [] || maxKey != []) && (Less(minKey, key) || key == minKey) && (Less(key, maxKey) || key == maxKey)
  {
    AtMostMeans(minKey, key);
    AtMostMeans(key, maxKey);
    hide AtMost;
  }

  /** Two ranges overlap exactly when some key is in both. */
  lemma RangeOverlapIff(start: Key, end: Key, minKey: Key, maxKey: Key)
    requires AtMost(start, end) && AtMost(minKey, maxKey)
    ensures RangeOverlap(start, end, minKey, maxKey) <==> exists k :: AtMost(start, k) && AtMost(k, end) && KeyInRange(k, minKey, maxKey)
  {
    OrderLaws();
    hide Less;
    if RangeOverlap(start, end, minKey, maxKey) {
      var k := if Less(start, minKey) then minKey else start;
      assert AtMost(start, k) && AtMost(k, end) && KeyInRange(k, minKey, maxKey);
    }
  }

  ghost predicate ByMinKey(s: seq<SegmentMeta>) {
    forall i, j :: 0 <= i < j < |s| ==> AtMost(s[i].minKey, s[j].minKey)
  }

  ghost predicate Covers(s: seq<SegmentMeta>, id: nat, key: Key) {
    exists i :: 0 <= i < |s| && s[i].id == id && KeyInRange(key, s[i].minKey, s[i].maxKey)
  }

  ghost predicate Overlaps(s: seq<SegmentMeta>, id: nat, start: Key, end: Key) {
    exists i :: 0 <= i < |s| && s[i].id == id && RangeOverlap(start, end, s[i].minKey, s[i].maxKey)
  }

  datatype IndexError = InvalidId | MinAboveMax | NotFound | Fine

  class PrimaryIndex {
    var segments: seq<SegmentMeta>

    constructor ()
      ensures segments == []
    {
      segments := [];
    }

    method RegisterSegment(seg: SegmentMeta) returns (err: IndexError)
      requires ByMinKey(segments)
      modifies this
      ensures ByMinKey(segments)
      ensures err == if seg.id == 0 then InvalidId
        else if Less(seg.maxKey, seg.minKey) && seg.minKey != [] && seg.maxKey != [] then MinAboveMax else Fine
      ensures multiset(segments) == old(multiset(segments)) + if err.Fine? then multiset{seg} else multiset{}
    {
      if seg.id == 0 {
        return InvalidId;
      }
      if Less(seg.maxKey, seg.minKey) && seg.minKey != [] && seg.maxKey != [] {
        return MinAboveMax;
      }
      segments := segments + [seg];
      SortLast();
      return Fine;
    }

    /** Sorting after an append: only the last entry can be out of place. */
    method SortLast()
      requires segments != [] && ByMinKey(segments[..|segments| - 1])
      modifies this
      ensures ByMinKey(segments) && multiset(segments) == old(multiset(segments))
    {
      hide Less, ByMinKey;
      var x := segments[|segments| - 1];
      var rest := segments[..|segments| - 1];
      assert segments == rest + [x];
      var i := |rest|;
      while i > 0 && Less(x.minKey, rest[i - 1].minKey)
        invariant 0 <= i <= |rest|
        invariant forall j :: i <= j < |rest| ==> Less(x.minKey, rest[j].minKey)
      {
        i := i - 1;
      }
      assert rest == rest[..i] + rest[i..];
      segments := rest[..i] + [x] + rest[i..];
      PlacedByMinKey(rest, x, i);
    }

    static lemma PlacedByMinKey(rest: seq<SegmentMeta>, x: SegmentMeta, i: nat)
      requires ByMinKey(rest) && i <= |rest|
      requires i > 0 ==> !Less(x.minKey, rest[i - 1].minKey)
      requires forall j :: i <= j < |rest| ==> Less(x.minKey, rest[j].minKey)
      ensures ByMinKey(rest[..i] + [x] + rest[i..])
    {
      hide Less;
      forall j | 0 <= j < i ensures AtMost(rest[j].minKey, x.minKey) {
        AtMostTransitive(rest[j].minKey, rest[i - 1].minKey, x.minKey);
      }
      forall j | i <= j < |rest| ensures AtMost(x.minKey, rest[j].minKey) {
        if Less(rest[j].minKey, x.minKey) {
          LessTransitive(x.minKey, rest[j].minKey, x.minKey);
          LessIrreflexive(x.minKey);
        }
      }
    }

    static lemma AtMostTransitive(a: Key, b: Key, c: Key)
      requires a == b || AtMost(a, b)
      requires AtMost(b, c)
      ensures AtMost(a, c)
    {
      hide Less;
      if a != b && Less(c, a) {
        LessTotal(a, b);
        LessTransitive(c, a, b);
      }
    }

    method UnregisterSegment(id: nat) returns (err: IndexError)
      requires ByMinKey(segments)
      modifies this
      ensures ByMinKey(segments)
      ensures err == if exists i :: 0 <= i < |old(segments)| && old(segments)[i].id == id then Fine else NotFound
      ensures err.NotFound? ==> segments == old(segments)
      ensures err.Fine? ==> exists m: SegmentMeta :: m.id == id && old(multiset(segments)) == multiset(segments) + multiset{m}
    {
      hide Less;
      for i := 0 to |segments|
        invariant segments == old(segments)
        invariant forall j :: 0 <= j < i ==> segments[j].id != id
      {
        if segments[i].id == id {
          assert segments == segments[..i] + [segments[i]] + segments[i + 1..];
          segments := segments[..i] + segments[i + 1..];
          return Fine;
        }
      }
      return NotFound;
    }

    /** The first index whose smallest key is above `key`. */
    method FirstAbove(key: Key) returns (idx: nat)
      requires ByMinKey(segments)
      ensures idx <= |segments|
      ensures forall i :: 0 <= i < idx ==> AtMost(segments[i].minKey, key)
      ensures forall i :: idx <= i < |segments| ==> Less(key, segments[i].minKey)
    {
      hide Less;
      var lo, hi := 0, |segments|;
      while lo < hi
        invariant lo <= hi <= |segments|
        invariant forall i :: 0 <= i < lo ==> AtMost(segments[i].minKey, key)
        invariant forall i :: hi <= i < |segments| ==> Less(key, segments[i].minKey)
      {
        var mid := (lo + hi) / 2;
        if !Less(key, segments[mid].minKey) {
          forall i | 0 <= i <= mid ensures AtMost(segments[i].minKey, key) {
            if i < mid { AtMostTransitive(segments[i].minKey, segments[mid].minKey, key); }
          }
          lo := mid + 1;
        } else {
          forall i | mid <= i < |segments| ensures Less(key, segments[i].minKey) {
            if mid < i && !Less(key, segments[i].minKey) {
              AtMostTransitive(segments[mid].minKey, segments[i].minKey, key);
            }
          }
          hi := mid;
        }
      }
      idx := lo;
    }

    /** Exactly the segments whose key range covers `key`. */
    method Lookup(key: Key) returns (result: seq<nat>)
      requires ByMinKey(segments)
      ensures forall id :: id in result <==> Covers(segments, id, key)
    {
      hide Less;
      result := [];
      if |segments| == 0 {
        return;
      }
      var idx := FirstAbove(key);
      var i := idx as int - 1;
      while i >= 0
        invariant -1 <= i < idx
        invariant forall id :: id in result <==> Covers(segments[i + 1..idx], id, key)
      {
        var seg := segments[i];
        CoversCons(seg, segments[i + 1..idx], key);
        assert [seg] + segments[i + 1..idx] == segments[i..idx];
        if KeyInRange(key, seg.minKey, seg.maxKey) {
          result := result + [seg.id];
        }
        i := i - 1;
      }
      CoversPrefix(segments, idx, key);
      assert segments[0..idx] == segments[..idx];
      // the scan from idx upwards stops at its first segment: by FirstAbove they all start above the key
    }

    static lemma CoversCons(m: SegmentMeta, s: seq<SegmentMeta>, key: Key)
      ensures forall id :: Covers([m] + s, id, key) <==>
        (id == m.id && KeyInRange(key, m.minKey, m.maxKey)) || Covers(s, id, key)
    {
      hide Less, KeyInRange;
      var t := [m] + s;
      forall id | Covers(s, id, key) ensures Covers(t, id, key) {
        var i :| 0 <= i < |s| && s[i].id == id && KeyInRange(key, s[i].minKey, s[i].maxKey);
        assert t[i + 1] == s[i];
      }
      assert t[0] == m;
      forall id | Covers(t, id, key) ensures (id == m.id && KeyInRange(key, m.minKey, m.maxKey)) || Covers(s, id, key) {
        var i :| 0 <= i < |t| && t[i].id == id && KeyInRange(key, t[i].minKey, t[i].maxKey);
        if i > 0 { assert s[i - 1] == t[i]; }
      }
    }

    static lemma CoversPrefix(s: seq<SegmentMeta>, idx: nat, key: Key)
      requires idx <= |s| && forall i :: idx <= i < |s| ==> Less(key, s[i].minKey)
      ensures forall id :: Covers(s, id, key) <==> Covers(s[..idx], id, key)
    {
      hide Less;
      forall id | Covers(s[..idx], id, key) ensures Covers(s, id, key) {
        var i :| 0 <= i < idx && s[..idx][i].id == id && KeyInRange(key, s[..idx][i].minKey, s[..idx][i].maxKey);
        assert s[i] == s[..idx][i];
      }
      forall id | Covers(s, id, key) ensures Covers(s[..idx], id, key) {
        var i :| 0 <= i < |s| && s[i].id == id && KeyInRange(key, s[i].minKey, s[i].maxKey);
        assert i < idx && s[..idx][i] == s[i];
      }
    }

    /** Every segment whose key range meets `[start, end]`. */
    method Range(start: Key, end: Key) returns (result: seq<nat>)
      requires ByMinKey(segments)
      ensures forall id :: id in result <==> Overlaps(segments, id, start, end)
    {
      hide Less;
      result := [];
      if |segments| == 0 {
        return;
      }
      var idx := FirstAbove(end);
      for i := 0 to idx
        invariant forall id :: id in result <==> exists j :: 0 <= j < i && segments[j].id == id && RangeOverlap(start, end, segments[j].minKey, segments[j].maxKey)
      {
        if RangeOverlap(start, end, segments[i].minKey, segments[i].maxKey) {
          result := result + [segments[i].id];
        }
      }
    }
  }
}
