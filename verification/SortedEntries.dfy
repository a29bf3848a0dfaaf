/** Key/value sequences: the map a write history stands for, and the strictly
    ascending sequences that represent such a map canonically. */
module SortedEntries {
  import opened Keys

  datatype Option<+T> = None | Some(value: T)

  datatype Entry<+V> = Entry(key: Key, value: V)

  /** The map left by writing the entries in order: the last write to a key wins. */
  function ToMap<V>(s: seq<Entry<V>>): map<Key, V> {
    if s == [] then map[]
    else ToMap(s[..|s| - 1])[s[|s| - 1].key := s[|s| - 1].value]
  }

  ghost predicate Sorted<V>(s: seq<Entry<V>>) {
    forall i, j :: 0 <= i < j < |s| ==> Less(s[i].key, s[j].key)
  }

  ghost predicate HasKey<V>(s: seq<Entry<V>>, k: Key) {
    exists i :: 0 <= i < |s| && s[i].key == k
  }

  /** The first index whose key is not below `k`. */
  function LowerBound<V>(s: seq<Entry<V>>, k: Key): (r: nat)
    ensures r <= |s|
    ensures forall i :: 0 <= i < r ==> Less(s[i].key, k)
    ensures r < |s| ==> !Less(s[r].key, k)
  {
    if s == [] || !Less(s[0].key, k) then 0 else 1 + LowerBound(s[1..], k)
  }

  function Upsert<V>(s: seq<Entry<V>>, k: Key, v: V): seq<Entry<V>> {
    var i := LowerBound(s, k);
    if i < |s| && s[i].key == k then s[i := Entry(k, v)]
    else s[..i] + [Entry(k, v)] + s[i..]
  }

  function Remove<V>(s: seq<Entry<V>>, k: Key): seq<Entry<V>> {
    var i := LowerBound(s, k);
    if i < |s| && s[i].key == k then s[..i] + s[i + 1..] else s
  }

  function Lookup<V>(s: seq<Entry<V>>, k: Key): Option<V> {
    var i := LowerBound(s, k);
    if i < |s| && s[i].key == k then Some(s[i].value) else None
  }

  predicate Within(k: Key, lo: Key, hi: Key) {
    AtMost(lo, k) && AtMost(k, hi)
  }

  /** The entries with `lo <= key <= hi`, in order. */
  function Slice<V>(s: seq<Entry<V>>, lo: Key, hi: Key): seq<Entry<V>> {
    if s == [] then []
    else
      var rest := Slice(s[..|s| - 1], lo, hi);
      var last := s[|s| - 1];
      if Within(last.key, lo, hi) then rest + [last] else rest
  }

  function Restrict<V>(m: map<Key, V>, lo: Key, hi: Key): map<Key, V> {
    map k | k in m && Within(k, lo, hi) :: m[k]
  }

  lemma {:induction false} ToMapKeys<V>(s: seq<Entry<V>>, k: Key)
    ensures k in ToMap(s) <==> HasKey(s, k)
  {
    hide Less;
    if s != [] {
      var p := s[..|s| - 1];
      ToMapKeys(p, k);
      if HasKey(p, k) {
        var i :| 0 <= i < |p| && p[i].key == k;
        assert s[i].key == k;
      }
      if HasKey(s, k) && s[|s| - 1].key != k {
        var i :| 0 <= i < |s| && s[i].key == k;
        assert p[i].key == k;
      }
    }
  }

  /** The last entry of a key decides its value. */
  lemma {:induction false} ToMapLast<V>(s: seq<Entry<V>>, i: nat)
    requires i < |s|
    requires forall j :: i < j < |s| ==> s[j].key != s[i].key
    ensures s[i].key in ToMap(s) && ToMap(s)[s[i].key] == s[i].value
  {
    hide Less;
    if i < |s| - 1 {
      ToMapLast(s[..|s| - 1], i);
    }
  }

  lemma ToMapSnoc<V>(s: seq<Entry<V>>, e: Entry<V>)
    ensures ToMap(s + [e]) == ToMap(s)[e.key := e.value]
  {
    assert (s + [e])[..|s|] == s;
  }

  lemma SortedAt<V>(s: seq<Entry<V>>, i: nat)
    requires Sorted(s) && i < |s|
    ensures s[i].key in ToMap(s) && ToMap(s)[s[i].key] == s[i].value
  {
    hide Less;
    LessIrreflexive(s[i].key);
    ToMapLast(s, i);
  }

  /** In a sorted sequence the lower bound splits the keys, and it is the only
      place where `k` can stand. */
  lemma LowerBoundSplits<V>(s: seq<Entry<V>>, k: Key)
    requires Sorted(s)
    ensures var r := LowerBound(s, k);
      && (forall i :: r <= i < |s| ==> !Less(s[i].key, k))
      && (forall i :: r < i < |s| ==> Less(k, s[i].key))
      && (HasKey(s, k) <==> r < |s| && s[r].key == k)
  {
    hide Less, LowerBound;
    OrderLaws();
    var r := LowerBound(s, k);
    forall i | r < i < |s| ensures Less(k, s[i].key) {
      assert Less(s[r].key, s[i].key);
    }
  }

  lemma LowerBoundUnique<V>(s: seq<Entry<V>>, k: Key, r: nat)
    requires r <= |s|
    requires forall i :: 0 <= i < r ==> Less(s[i].key, k)
    requires r < |s| ==> !Less(s[r].key, k)
    ensures LowerBound(s, k) == r
  {
  }

  lemma LookupIsMap<V>(s: seq<Entry<V>>, k: Key)
    requires Sorted(s)
    ensures Lookup(s, k) == if k in ToMap(s) then Some(ToMap(s)[k]) else None
  {
    hide Less, LowerBound;
    LowerBoundSplits(s, k);
    ToMapKeys(s, k);
    var r := LowerBound(s, k);
    if r < |s| && s[r].key == k { SortedAt(s, r); }
  }

  lemma UpsertSorted<V>(s: seq<Entry<V>>, k: Key, v: V)
    requires Sorted(s)
    ensures Sorted(Upsert(s, k, v))
    ensures ToMap(Upsert(s, k, v)) == ToMap(s)[k := v]
  {
    hide Less, LowerBound, Upsert;
    UpsertPosition(s, k, v);
    var t := Upsert(s, k, v);
    SortedAt(t, LowerBound(s, k));
    forall x | x != k
      ensures x in ToMap(t) <==> x in ToMap(s)
      ensures x in ToMap(s) ==> ToMap(t)[x] == ToMap(s)[x]
    {
      forall e: Entry<V> | e.key == x ensures e in s <==> e in t { UpsertOthers(s, k, v, e); }
      SameElsewhere(s, t, x);
    }
    assert ToMap(t).Keys == ToMap(s)[k := v].Keys;
  }

  lemma UpsertPosition<V>(s: seq<Entry<V>>, k: Key, v: V)
    requires Sorted(s)
    ensures Sorted(Upsert(s, k, v))
    ensures var r := LowerBound(s, k); r < |Upsert(s, k, v)| && Upsert(s, k, v)[r] == Entry(k, v)
  {
    hide Less, LowerBound;
    LowerBoundSplits(s, k);
    var t := Upsert(s, k, v);
    var r := LowerBound(s, k);
    if r < |s| { LessTotal(s[r].key, k); }
    assert t[r] == Entry(k, v);
    SortedAround(s, t, r);
  }

  lemma UpsertOthers<V>(s: seq<Entry<V>>, k: Key, v: V, e: Entry<V>)
    requires e.key != k
    ensures e in s <==> e in Upsert(s, k, v)
  {
    hide Less, LowerBound;
    var t := Upsert(s, k, v);
    var r := LowerBound(s, k);
    if e in s {
      var i :| 0 <= i < |s| && s[i] == e;
      assert e == if i < r || |t| == |s| then t[i] else t[i + 1];
    }
  }

  /** Putting an entry at its lower bound keeps the order. */
  lemma SortedAround<V>(s: seq<Entry<V>>, t: seq<Entry<V>>, r: nat)
    requires Sorted(s) && r < |t| && r <= |s|
    requires t[..r] == s[..r]
    requires t[r + 1..] == s[r..] || (r < |s| && t[r + 1..] == s[r + 1..])
    requires forall i :: 0 <= i < r ==> Less(t[i].key, t[r].key)
    requires forall i :: r < i < |t| ==> Less(t[r].key, t[i].key)
    ensures Sorted(t)
  {
    hide Less;
    var d := |t| - |s|;
    forall i, j | 0 <= i < j < |t| ensures Less(t[i].key, t[j].key) {
      if j < r {
        assert t[i] == t[..r][i] == s[i] && t[j] == t[..r][j] == s[j];
      } else if i < r < j {
        LessTransitive(t[i].key, t[r].key, t[j].key);
      } else if r < i {
        assert t[i] == t[r + 1..][i - r - 1] == s[i - d];
        assert t[j] == t[r + 1..][j - r - 1] == s[j - d];
      }
    }
  }

  lemma RemoveSorted<V>(s: seq<Entry<V>>, k: Key)
    requires Sorted(s)
    ensures Sorted(Remove(s, k))
    ensures ToMap(Remove(s, k)) == ToMap(s) - {k}
  {
    hide Less, LowerBound;
    LowerBoundSplits(s, k);
    var t := Remove(s, k);
    var r := LowerBound(s, k);
    ToMapKeys(t, k);
    ToMapKeys(s, k);
    LessIrreflexive(k);
    assert !HasKey(t, k);
    forall x | x != k
      ensures x in ToMap(t) <==> x in ToMap(s)
      ensures x in ToMap(s) ==> ToMap(t)[x] == ToMap(s)[x]
    {
      forall e: Entry<V> | e.key == x ensures e in s <==> e in t {
        if e in s {
          var i :| 0 <= i < |s| && s[i] == e;
          assert e == if i < r || |t| == |s| then t[i] else t[i - 1];
        }
      }
      SameElsewhere(s, t, x);
    }
    assert ToMap(t).Keys == (ToMap(s) - {k}).Keys;
  }

  /** Sorted sequences with the same entries under `x` agree on `x`. */
  lemma SameElsewhere<V>(s: seq<Entry<V>>, t: seq<Entry<V>>, x: Key)
    requires Sorted(s) && Sorted(t)
    requires forall e: Entry<V> :: e.key == x ==> (e in s <==> e in t)
    ensures x in ToMap(s) <==> x in ToMap(t)
    ensures x in ToMap(s) ==> ToMap(t)[x] == ToMap(s)[x]
  {
    hide Less;
    ToMapKeys(s, x);
    ToMapKeys(t, x);
    if HasKey(s, x) {
      var i :| 0 <= i < |s| && s[i].key == x;
      assert s[i] in s;
      var j :| 0 <= j < |t| && t[j] == s[i];
      SortedAt(s, i);
      SortedAt(t, j);
    }
    if HasKey(t, x) {
      var j :| 0 <= j < |t| && t[j].key == x;
      assert t[j] in t;
    }
  }

  lemma SplitLast<V>(s: seq<Entry<V>>)
    requires Sorted(s) && s != []
    ensures var n := |s| - 1; ToMap(s[..n]) == ToMap(s) - {s[n].key}
  {
    hide Less;
    var n := |s| - 1;
    ToMapKeys(s[..n], s[n].key);
    if HasKey(s[..n], s[n].key) {
      var i :| 0 <= i < n && s[i].key == s[n].key;
      LessIrreflexive(s[n].key);
    }
  }

  lemma SameLast<V>(s: seq<Entry<V>>, t: seq<Entry<V>>)
    requires Sorted(s) && Sorted(t) && ToMap(s) == ToMap(t) && s != [] && t != []
    ensures s[|s| - 1] == t[|t| - 1]
  {
    hide Less;
    var i, j := |s| - 1, |t| - 1;
    SortedAt(s, i);
    SortedAt(t, j);
    ToMapKeys(t, s[i].key);
    ToMapKeys(s, t[j].key);
    var a :| 0 <= a < |t| && t[a].key == s[i].key;
    var b :| 0 <= b < |s| && s[b].key == t[j].key;
    if s[i].key != t[j].key {
      LessTransitive(s[i].key, t[j].key, s[i].key);
      LessIrreflexive(s[i].key);
    }
  }

  /** A map has only one sorted representation. */
  lemma {:induction false} SortedCanonical<V>(s: seq<Entry<V>>, t: seq<Entry<V>>)
    requires Sorted(s) && Sorted(t) && ToMap(s) == ToMap(t)
    ensures s == t
  {
    hide Less;
    if s == [] {
      if t != [] { SortedAt(t, 0); }
    } else if t == [] {
      SortedAt(s, 0);
    } else {
      SameLast(s, t);
      SplitLast(s);
      SplitLast(t);
      SortedCanonical(s[..|s| - 1], t[..|t| - 1]);
      assert s == s[..|s| - 1] + [s[|s| - 1]] && t == t[..|t| - 1] + [t[|t| - 1]];
    }
  }

  lemma {:induction false} SliceSorted<V>(s: seq<Entry<V>>, lo: Key, hi: Key)
    requires Sorted(s)
    ensures Sorted(Slice(s, lo, hi))
    ensures forall e :: e in Slice(s, lo, hi) ==> e in s
  {
    hide Less;
    if s != [] {
      var p, last := s[..|s| - 1], s[|s| - 1];
      SliceSorted(p, lo, hi);
      forall e | e in Slice(p, lo, hi) ensures Less(e.key, last.key) {
        var i :| 0 <= i < |p| && p[i] == e;
        assert s[i] == e;
      }
    }
  }

  lemma {:induction false} SliceFacts<V>(s: seq<Entry<V>>, lo: Key, hi: Key)
    requires Sorted(s)
    ensures ToMap(Slice(s, lo, hi)) == Restrict(ToMap(s), lo, hi)
  {
    hide Less;
    if s != [] {
      var p, last := s[..|s| - 1], s[|s| - 1];
      SliceFacts(p, lo, hi);
      SplitLast(s);
      var rest := Slice(p, lo, hi);
      if Within(last.key, lo, hi) {
        assert (rest + [last])[..|rest|] == rest;
      }
      RestrictUpdate(ToMap(p), last.key, last.value, lo, hi);
    }
  }

  lemma RestrictUpdate<V>(m: map<Key, V>, k: Key, v: V, lo: Key, hi: Key)
    requires k !in m
    ensures Restrict(m[k := v], lo, hi) ==
      if Within(k, lo, hi) then Restrict(m, lo, hi)[k := v] else Restrict(m, lo, hi)
  {
    hide Less;
  }

  lemma {:induction false} SlicePieces<V>(s: seq<Entry<V>>, t: seq<Entry<V>>, lo: Key, hi: Key)
    ensures Slice(s + t, lo, hi) == Slice(s, lo, hi) + Slice(t, lo, hi)
  {
    if t == [] {
      assert s + t == s;
    } else {
      var n := |t| - 1;
      assert (s + t)[..|s + t| - 1] == s + t[..n];
      SlicePieces(s, t[..n], lo, hi);
    }
  }

  lemma {:induction false} SliceAll<V>(s: seq<Entry<V>>, lo: Key, hi: Key)
    requires forall i :: 0 <= i < |s| ==> Within(s[i].key, lo, hi)
    ensures Slice(s, lo, hi) == s
  {
    hide Less;
    if s != [] {
      SliceAll(s[..|s| - 1], lo, hi);
    }
  }

  lemma {:induction false} SliceNone<V>(s: seq<Entry<V>>, lo: Key, hi: Key)
    requires forall i :: 0 <= i < |s| ==> !Within(s[i].key, lo, hi)
    ensures Slice(s, lo, hi) == []
  {
    hide Less;
    if s != [] {
      SliceNone(s[..|s| - 1], lo, hi);
    }
  }

  /** The range of a sorted sequence is the window between its two bounds. */
  lemma SliceIsWindow<V>(s: seq<Entry<V>>, lo: Key, hi: Key, a: nat, b: nat)
    requires Sorted(s) && a == LowerBound(s, lo) && a <= b <= |s|
    requires forall i :: a <= i < b ==> AtMost(s[i].key, hi)
    requires b < |s| ==> Less(hi, s[b].key)
    ensures Slice(s, lo, hi) == s[a..b]
  {
    hide Less, LowerBound, Slice, Sorted;
    LowerBoundSplits(s, lo);
    forall i | b <= i < |s| ensures !AtMost(s[i].key, hi) { AboveStaysAbove(s, hi, b, i); }
    SliceNone(s[..a], lo, hi);
    SliceAll(s[a..b], lo, hi);
    SliceNone(s[b..], lo, hi);
    SlicePieces(s[..a], s[a..b], lo, hi);
    SlicePieces(s[..b], s[b..], lo, hi);
    assert s[..a] + s[a..b] == s[..b] && s[..b] + s[b..] == s;
  }

  lemma AboveStaysAbove<V>(s: seq<Entry<V>>, k: Key, b: nat, i: nat)
    requires Sorted(s) && b <= i < |s| && Less(k, s[b].key)
    ensures Less(k, s[i].key)
  {
    hide Less;
    if b < i { LessTransitive(k, s[b].key, s[i].key); }
  }
}
