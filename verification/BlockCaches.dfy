/** The LRU cache of decoded columns: entries by key, the recency list, the keys of each segment
    and the bytes used. A list element is named by its key. */
module BlockCaches {
  import opened SortedEntries

  datatype CacheKey = CacheKey(segmentID: nat, columnIdx: nat)

  datatype CacheEntry<+T> = CacheEntry(data: T, size: nat)

  type Recency = seq<CacheKey>

  ghost predicate Distinct(order: Recency) {
    forall i, j :: 0 <= i < j < |order| ==> order[i] != order[j]
  }

  /** Takes a key out of a list. */
  function Without(order: Recency, k: CacheKey): Recency {
    if order == [] then []
    else if order[0] == k then order[1..]
    else [order[0]] + Without(order[1..], k)
  }

  function Total<T>(order: Recency, items: map<CacheKey, CacheEntry<T>>): nat {
    if order == [] then 0
    else (if order[0] in items then items[order[0]].size else 0) + Total(order[1..], items)
  }

  // ----- lists -----

  lemma {:induction false} WithoutMember(order: Recency, k: CacheKey, x: CacheKey)
    requires Distinct(order)
    ensures x in Without(order, k) <==> x in order && x != k
  {
    if order != [] {
      var tail := order[1..];
      assert order == [order[0]] + tail;
      DistinctTail(order);
      WithoutMember(tail, k, x);
      hide Distinct;
    }
  }

  lemma DistinctTail(order: Recency)
    requires Distinct(order) && order != []
    ensures Distinct(order[1..]) && order[0] !in order[1..]
  {
    forall i | 0 <= i < |order| - 1 ensures order[1..][i] != order[0] { assert order[1..][i] == order[i + 1]; }
  }

  lemma DistinctCons(k: CacheKey, order: Recency)
    requires Distinct(order) && k !in order
    ensures Distinct([k] + order)
  {
  }

  lemma {:induction false} WithoutDistinct(order: Recency, k: CacheKey)
    requires Distinct(order)
    ensures Distinct(Without(order, k))
  {
    if order != [] {
      DistinctTail(order);
      if order[0] != k {
        WithoutDistinct(order[1..], k);
        WithoutMember(order[1..], k, order[0]);
        DistinctCons(order[0], Without(order[1..], k));
      }
    }
  }

  lemma WithoutMembers(order: Recency, k: CacheKey)
    requires Distinct(order)
    ensures Distinct(Without(order, k))
    ensures forall x :: x in Without(order, k) <==> x in order && x != k
  {
    hide Distinct, Without;
    WithoutDistinct(order, k);
    forall x ensures x in Without(order, k) <==> x in order && x != k { WithoutMember(order, k, x); }
  }

  lemma {:induction false} TotalWithout<T>(order: Recency, items: map<CacheKey, CacheEntry<T>>, k: CacheKey)
    requires Distinct(order) && k in order && k in items
    ensures Total(order, items) == items[k].size + Total(Without(order, k), items)
  {
    assert order == [order[0]] + order[1..];
    DistinctTail(order);
    if order[0] != k {
      var rest := [order[0]] + Without(order[1..], k);
      TotalWithout(order[1..], items, k);
      assert rest[1..] == Without(order[1..], k);
    }
  }

  /** Entries outside the list do not count. */
  lemma {:induction false} TotalSame<T>(order: Recency, a: map<CacheKey, CacheEntry<T>>, b: map<CacheKey, CacheEntry<T>>)
    requires forall k :: k in order ==> (k in a <==> k in b) && (k in a ==> a[k] == b[k])
    ensures Total(order, a) == Total(order, b)
  {
    if order != [] {
      assert order[0] in order;
      assert forall k :: k in order[1..] ==> k in order;
      TotalSame(order[1..], a, b);
    }
  }

  lemma TotalCons<T>(k: CacheKey, order: Recency, items: map<CacheKey, CacheEntry<T>>)
    requires k in items
    ensures Total([k] + order, items) == items[k].size + Total(order, items)
  {
    assert ([k] + order)[1..] == order;
  }

  // ----- segment index -----

  type SegIndex = map<nat, seq<CacheKey>>

  ghost predicate Filed(index: SegIndex, k: CacheKey) {
    k.segmentID in index && k in index[k.segmentID]
  }

  ghost predicate GoodFile(s: nat, keys: seq<CacheKey>) {
    keys != [] && Distinct(keys) && forall k :: k in keys ==> k.segmentID == s
  }

  /** The index files exactly these keys, each once under its segment, and no empty list. */
  ghost predicate Files(index: SegIndex, keys: set<CacheKey>) {
    && (forall s :: s in index ==> GoodFile(s, index[s]))
    && (forall k :: k in keys <==> Filed(index, k))
  }

  function Added(index: SegIndex, k: CacheKey): SegIndex {
    index[k.segmentID := (if k.segmentID in index then index[k.segmentID] else []) + [k]]
  }

  lemma AddedFiles(index: SegIndex, keys: set<CacheKey>, k: CacheKey)
    requires Files(index, keys) && k !in keys
    ensures Files(Added(index, k), keys + {k})
  {
    var next := Added(index, k);
    var was := if k.segmentID in index then index[k.segmentID] else [];
    assert k !in was;
    forall x ensures Filed(next, x) <==> Filed(index, x) || x == k {
      assert x in was + [k] <==> x in was || x == k;
    }
  }

  /** Overwrites the key by the last one of its segment and shortens the list. */
  function Removed(index: SegIndex, k: CacheKey): SegIndex {
    if !(k.segmentID in index) then index
    else
      var keys := index[k.segmentID];
      var rest := SwapOut(keys, k);
      if rest == [] then map s | s in index && s != k.segmentID :: index[s] else index[k.segmentID := rest]
  }

  function PositionOf(keys: seq<CacheKey>, k: CacheKey): (r: nat)
    ensures r <= |keys|
    ensures r < |keys| ==> keys[r] == k
    ensures r == |keys| ==> k !in keys
  {
    if keys == [] then 0 else if keys[0] == k then 0 else 1 + PositionOf(keys[1..], k)
  }

  function SwapOut(keys: seq<CacheKey>, k: CacheKey): seq<CacheKey> {
    var i, last := PositionOf(keys, k), |keys| - 1;
    if i == |keys| then keys
    else if i < last then keys[i := keys[last]][..last]
    else keys[..last]
  }

  lemma SwapOutMeans(keys: seq<CacheKey>, k: CacheKey)
    requires Distinct(keys) && k in keys
    ensures Distinct(SwapOut(keys, k))
    ensures forall x :: x in SwapOut(keys, k) <==> x in keys && x != k
  {
    hide PositionOf;
    var i, last := PositionOf(keys, k), |keys| - 1;
    var rest := SwapOut(keys, k);
    forall x | x in keys && x != k ensures x in rest {
      var j :| 0 <= j < |keys| && keys[j] == x;
      assert rest[if j == last then i else j] == x;
    }
    forall x | x in rest ensures x in keys && x != k {
      var j :| 0 <= j < |rest| && rest[j] == x;
      assert x == keys[if j == i then last else j];
    }
  }

  lemma RemovedFiles(index: SegIndex, keys: set<CacheKey>, k: CacheKey)
    requires Files(index, keys) && k in keys
    ensures Files(Removed(index, k), keys - {k})
  {
    var s := k.segmentID;
    assert Filed(index, k);
    SwapOutMeans(index[s], k);
    hide SwapOut, Distinct;
    var next := Removed(index, k);
    forall x ensures Filed(next, x) <==> Filed(index, x) && x != k {
      if x.segmentID == s && SwapOut(index[s], k) == [] { assert x !in SwapOut(index[s], k); }
    }
  }

  // ----- steps on the three structures -----

  /** The item map, the list and the segment index hold the same keys, each once. */
  ghost predicate Linked<T>(order: Recency, items: map<CacheKey, CacheEntry<T>>, index: SegIndex) {
    Distinct(order) && (forall k :: k in order <==> k in items) && Files(index, items.Keys)
  }

  ghost predicate Sized<T>(items: map<CacheKey, CacheEntry<T>>, sizeOf: T -> nat) {
    forall k :: k in items ==> items[k].size == sizeOf(items[k].data)
  }

  function Front(order: Recency, k: CacheKey): Recency {
    [k] + Without(order, k)
  }

  lemma MovedToFront<T>(order: Recency, k: CacheKey, items: map<CacheKey, CacheEntry<T>>, index: SegIndex)
    requires Linked(order, items, index) && k in items
    ensures Linked(Front(order, k), items, index) && Total(Front(order, k), items) == Total(order, items)
  {
    hide Files;
    WithoutMembers(order, k);
    TotalWithout(order, items, k);
    TotalCons(k, Without(order, k), items);
    DistinctCons(k, Without(order, k));
    hide Distinct, Without;
  }

  lemma Updated<T>(order: Recency, k: CacheKey, items: map<CacheKey, CacheEntry<T>>, index: SegIndex, e: CacheEntry<T>)
    requires Linked(order, items, index) && k in items
    ensures Linked(order, items[k := e], index)
    ensures Total(order, items[k := e]) == Total(order, items) - items[k].size + e.size
  {
    hide Files;
    var next := items[k := e];
    assert next.Keys == items.Keys;
    TotalWithout(order, items, k);
    TotalWithout(order, next, k);
    WithoutMembers(order, k);
    hide Distinct, Without;
    TotalSame(Without(order, k), items, next);
  }

  lemma Evicted<T>(order: Recency, k: CacheKey, items: map<CacheKey, CacheEntry<T>>, index: SegIndex)
    requires Linked(order, items, index) && k in items
    ensures Linked(Without(order, k), items - {k}, Removed(index, k))
    ensures Total(Without(order, k), items - {k}) == Total(order, items) - items[k].size
  {
    RemovedFiles(index, items.Keys, k);
    assert (items - {k}).Keys == items.Keys - {k};
    hide Files, Removed;
    WithoutMembers(order, k);
    TotalWithout(order, items, k);
    hide Distinct, Without;
    TotalSame(Without(order, k), items, items - {k});
  }

  lemma {:induction false} WithoutLast(order: Recency)
    requires Distinct(order) && order != []
    ensures Without(order, order[|order| - 1]) == order[..|order| - 1]
  {
    DistinctTail(order);
    var last := order[|order| - 1];
    if |order| > 1 {
      assert order[1..][|order| - 2] == last;
      WithoutLast(order[1..]);
      assert order[..|order| - 1] == [order[0]] + order[1..][..|order| - 2];
    }
  }

  lemma EvictedLast<T>(order: Recency, items: map<CacheKey, CacheEntry<T>>, index: SegIndex)
    requires Linked(order, items, index) && order != []
    ensures var last := |order| - 1;
      && order[last] in items
      && Linked(order[..last], items - {order[last]}, Removed(index, order[last]))
      && Total(order[..last], items - {order[last]}) == Total(order, items) - items[order[last]].size
  {
    hide Files, Removed, Without;
    WithoutLast(order);
    assert order[|order| - 1] in order;
    Evicted(order, order[|order| - 1], items, index);
  }

  lemma Inserted<T>(order: Recency, k: CacheKey, items: map<CacheKey, CacheEntry<T>>, index: SegIndex, e: CacheEntry<T>)
    requires Linked(order, items, index) && k !in items
    ensures Linked([k] + order, items[k := e], Added(index, k))
    ensures Total([k] + order, items[k := e]) == Total(order, items) + e.size
  {
    AddedFiles(index, items.Keys, k);
    assert items[k := e].Keys == items.Keys + {k};
    hide Files, Added;
    DistinctCons(k, order);
    hide Distinct;
    TotalSame(order, items, items[k := e]);
    TotalCons(k, order, items[k := e]);
  }

  function Kept<T>(items: map<CacheKey, CacheEntry<T>>, order: Recency): map<CacheKey, CacheEntry<T>> {
    map k | k in items && k in order :: items[k]
  }

  // ----- the cache -----

  class BlockCache<T(==)> {
    const capacity: int
    const sizeOf: T -> nat
    var used: int
    var items: map<CacheKey, CacheEntry<T>>
    var segIndex: SegIndex
    var order: Recency
    var hits: nat
    var misses: nat

    /** The three structures agree; `used` is the sum of the entry sizes and stays within the capacity. */
    ghost predicate Valid()
      reads this
    {
      && Linked(order, items, segIndex) && used == Total(order, items) && Sized(items, sizeOf)
      && (if capacity <= 0 then items == map[] else used <= capacity)
    }

    ghost function Contents(): map<CacheKey, T>
      reads this
    {
      map k | k in items :: items[k].data
    }

    constructor (capacity: int, sizeOf: T -> nat)
      ensures Valid() && Contents() == map[] && this.capacity == capacity && this.sizeOf == sizeOf
    {
      this.capacity := capacity;
      this.sizeOf := sizeOf;
      used, items, segIndex, order, hits, misses := 0, map[], map[], [], 0, 0;
    }

    /** Looks a column up; a hit becomes the most recently used. */
    method Get(key: CacheKey) returns (found: Option<T>)
      requires Valid()
      modifies this
      ensures Valid() && items == old(items) && used == old(used)
      ensures found == if key in items then Some(items[key].data) else None
      ensures order == if key in items then Front(old(order), key) else old(order)
      ensures Reorders(old(order), CacheOp<T>.Get(key), order)
    {
      hide Linked, Without;
      ListedIffCached();
      if capacity <= 0 {
        return None;
      }
      if key !in items {
        misses := misses + 1;
        return None;
      }
      hits := hits + 1;
      MovedToFront(order, key, items, segIndex);
      if |order| > 0 && order[0] == key {
        AlreadyFront(order);
        return Some(items[key].data);
      }
      order := Front(order, key);
      return Some(items[key].data);
    }

    /** Stores a column. A key that is present is updated and becomes the most recent, or leaves
        when the new size no longer fits; a new key takes the front, the least recently used
        leaving until it fits, or is refused when it never can. */
    method Put(key: CacheKey, data: T)
      requires Valid()
      modifies this
      ensures Valid()
      ensures capacity <= 0 || (key !in old(items) && sizeOf(data) > capacity) ==> items == old(items) && order == old(order)
      ensures capacity > 0 && key in old(items) ==> PutPresent(old(order), old(items), old(used), key, data)
      ensures capacity > 0 && key !in old(items) && sizeOf(data) <= capacity ==>
        exists n: nat :: n <= |old(order)| && PutNew(old(order), old(items), key, data, n)
      ensures Effect(old(items), CacheOp.Put(key, data), items)
      ensures Reorders(old(order), CacheOp.Put(key, data), order)
    {
      hide Linked, Sized, Without;
      ListedIffCached();
      if capacity <= 0 {
        return;
      }
      var size := sizeOf(data);
      if key in items {
        Update(key, data, size);
        return;
      }
      if size > capacity {
        return;
      }
      ghost var n := EvictFor(size);
      Insert(key, data, size);
      assert PutNew(old(order), old(items), key, data, n);
    }

    lemma ListedIffCached()
      requires Valid()
      ensures forall k :: k in order <==> k in items
      ensures capacity <= 0 ==> order == []
    {
    }

    ghost predicate PutPresent(was: Recency, had: map<CacheKey, CacheEntry<T>>, usedBefore: int, key: CacheKey, data: T)
      requires key in had
      reads this
    {
      if usedBefore - had[key].size + sizeOf(data) <= capacity then
        items == had[key := CacheEntry(data, sizeOf(data))] && order == Front(was, key)
      else items == had - {key} && order == Without(was, key)
    }

    /** The new key in front of the longest prefix of the old list that leaves it room. */
    ghost predicate PutNew(was: Recency, had: map<CacheKey, CacheEntry<T>>, key: CacheKey, data: T, n: nat)
      requires n <= |was|
      reads this
    {
      && order == [key] + was[..n] && items == Kept(had, was[..n])[key := CacheEntry(data, sizeOf(data))]
      && Total(was[..n], had) + sizeOf(data) <= capacity
      && (n < |was| ==> Total(was[..n + 1], had) + sizeOf(data) > capacity)
    }

    method Update(key: CacheKey, data: T, size: nat)
      requires Valid() && capacity > 0 && key in items && size == sizeOf(data)
      modifies this
      ensures Valid() && PutPresent(old(order), old(items), old(used), key, data)
    {
      hide Linked, Without, Removed;
      ghost var had := items;
      var entry := CacheEntry(data, size);
      Updated(order, key, items, segIndex, entry);
      used := used - items[key].size;
      items := items[key := entry];
      used := used + size;
      MovedToFront(order, key, items, segIndex);
      Evicted(order, key, items, segIndex);
      ghost var was := order;
      order := Front(order, key);
      if used > capacity {
        order := order[1..];
        items := items - {key};
        segIndex := Removed(segIndex, key);
        used := used - size;
        assert items == had - {key} && order == Without(was, key);
      }
    }

    /** Drops entries from the back until `size` more bytes fit. */
    method EvictFor(size: nat) returns (ghost n: nat)
      requires Valid() && capacity > 0 && size <= capacity
      modifies this
      ensures Valid() && used + size <= capacity
      ensures n <= |old(order)| && order == old(order)[..n] && items == Kept(old(items), order)
      ensures Total(order, old(items)) == used
      ensures n < |old(order)| ==> Total(old(order)[..n + 1], old(items)) + size > capacity
    {
      hide Linked, Sized;
      n := |order|;
      assert order[..n] == order;
      AllKept(order, items, segIndex);
      while used + size > capacity && |order| > 0
        invariant Valid() && n <= |old(order)| && order == old(order)[..n] && items == Kept(old(items), order)
        invariant Total(order, old(items)) == used
        invariant n < |old(order)| ==> Total(old(order)[..n + 1], old(items)) + size > capacity
        decreases |order|
      {
        assert old(order)[..n][..n - 1] == old(order)[..n - 1];
        KeptFewer(old(items), order, items, segIndex);
        EvictOldest();
        n := n - 1;
        KeptTotal(old(items), order);
      }
      if |order| == 0 { assert Total(order, items) == 0; }
    }

    method EvictOldest()
      requires Valid() && order != [] && capacity > 0
      modifies this
      ensures Valid() && order == old(order)[..|old(order)| - 1]
      ensures items == old(items) - {old(order)[|old(order)| - 1]}
    {
      hide Linked, Removed;
      var oldest := order[|order| - 1];
      EvictedLast(order, items, segIndex);
      used := used - items[oldest].size;
      order := order[..|order| - 1];
      items := items - {oldest};
      segIndex := Removed(segIndex, oldest);
    }

    method Insert(key: CacheKey, data: T, size: nat)
      requires Valid() && capacity > 0 && key !in items && size == sizeOf(data) && used + size <= capacity
      modifies this
      ensures Valid() && order == [key] + old(order) && items == old(items)[key := CacheEntry(data, size)]
    {
      hide Linked, Added;
      Inserted(order, key, items, segIndex, CacheEntry(data, size));
      order := [key] + order;
      items := items[key := CacheEntry(data, size)];
      used := used + size;
      segIndex := Added(segIndex, key);
    }

    /** Removes exactly the segment's columns; the others keep their place. */
    method Invalidate(segmentID: nat)
      requires Valid()
      modifies this
      ensures Valid()
      ensures items == OtherItems(old(items), segmentID) && order == OfOthers(old(order), segmentID)
      ensures Reorders(old(order), CacheOp<T>.Invalidate(segmentID), order)
    {
      hide Linked, Sized, OfOthers;
      if capacity <= 0 {
        EmptyCache(order, items, segIndex, segmentID);
        return;
      }
      if segmentID !in segIndex {
        NotFiled(order, items, segIndex, segmentID);
        return;
      }
      SegmentOut(order, items, segIndex, segmentID);
      SizedFewer(items, segmentID, sizeOf);
      TotalBound(order, items, segmentID);
      DropKeys(segIndex[segmentID], segmentID);
      segIndex := map s | s in segIndex && s != segmentID :: segIndex[s];
    }

    /** The loop over the segment's keys. */
    method DropKeys(keys: seq<CacheKey>, ghost segmentID: nat)
      requires Linked(order, items, segIndex) && used == Total(order, items)
      requires segmentID in segIndex && keys == segIndex[segmentID]
      modifies this`order, this`used, this`items
      ensures order == WithoutAll(old(order), Set(keys)) && items == old(items) - Set(keys) && used == Total(order, items)
    {
      hide Linked, Without, WithoutAll, Set;
      NothingOut(order, items);
      assert keys[..0] == [];
      for i := 0 to |keys|
        invariant order == WithoutAll(old(order), Set(keys[..i])) && items == old(items) - Set(keys[..i])
        invariant used == Total(order, items)
      {
        var key := keys[i];
        OneMoreOut(old(order), old(items), segIndex, segmentID, keys, i);
        if key in items {
          order := Without(order, key);
          used := used - items[key].size;
          items := items - {key};
        }
      }
      assert keys[..|keys|] == keys;
    }
  }

  function OtherItems<T>(items: map<CacheKey, CacheEntry<T>>, segmentID: nat): map<CacheKey, CacheEntry<T>> {
    map k | k in items && k.segmentID != segmentID :: items[k]
  }

  lemma EmptyCache<T>(order: Recency, items: map<CacheKey, CacheEntry<T>>, index: SegIndex, s: nat)
    requires Linked(order, items, index) && items == map[]
    ensures OfOthers(order, s) == order && OtherItems(items, s) == items
  {
    assert order != [] ==> order[0] in order;
  }

  lemma SizedFewer<T>(items: map<CacheKey, CacheEntry<T>>, s: nat, sizeOf: T -> nat)
    requires Sized(items, sizeOf)
    ensures Sized(OtherItems(items, s), sizeOf)
  {
  }

  /** What is left is no larger. */
  lemma {:induction false} TotalBound<T>(order: Recency, items: map<CacheKey, CacheEntry<T>>, s: nat)
    ensures Total(OfOthers(order, s), OtherItems(items, s)) <= Total(order, items)
  {
    if order != [] {
      TotalBound(order[1..], items, s);
      var rest := OfOthers(order[1..], s);
      if order[0].segmentID != s { assert ([order[0]] + rest)[1..] == rest; }
    }
  }

  // ----- removing a segment -----

  function Set(ks: seq<CacheKey>): set<CacheKey> {
    set k | k in ks
  }

  /** The list without the keys of a set. */
  function WithoutAll(order: Recency, ks: set<CacheKey>): Recency {
    if order == [] then []
    else if order[0] in ks then WithoutAll(order[1..], ks)
    else [order[0]] + WithoutAll(order[1..], ks)
  }

  /** The list without one segment's keys. */
  function OfOthers(order: Recency, segmentID: nat): Recency {
    if order == [] then []
    else if order[0].segmentID == segmentID then OfOthers(order[1..], segmentID)
    else [order[0]] + OfOthers(order[1..], segmentID)
  }

  lemma {:induction false} WithoutAllNothing(order: Recency)
    ensures WithoutAll(order, {}) == order
  {
    if order != [] { WithoutAllNothing(order[1..]); }
  }

  lemma NothingOut<T>(order: Recency, items: map<CacheKey, CacheEntry<T>>)
    ensures WithoutAll(order, Set([])) == order && items - Set([]) == items
  {
    WithoutAllNothing(order);
    assert Set([]) == {};
  }

  lemma {:induction false} WithoutAllMember(order: Recency, ks: set<CacheKey>, x: CacheKey)
    ensures x in WithoutAll(order, ks) <==> x in order && x !in ks
  {
    if order != [] {
      assert order == [order[0]] + order[1..];
      WithoutAllMember(order[1..], ks, x);
    }
  }

  lemma {:induction false} WithoutAllMore(order: Recency, ks: set<CacheKey>, k: CacheKey)
    requires Distinct(order)
    ensures Distinct(WithoutAll(order, ks))
    ensures Without(WithoutAll(order, ks), k) == WithoutAll(order, ks + {k})
  {
    if order != [] {
      DistinctTail(order);
      var rest := WithoutAll(order[1..], ks);
      WithoutAllMore(order[1..], ks, k);
      WithoutAllMember(order[1..], ks, order[0]);
      if order[0] !in ks {
        DistinctCons(order[0], rest);
        assert ([order[0]] + rest)[1..] == rest;
        if order[0] == k {
          WithoutAllMember(order[1..], ks, k);
          WithoutAllSame(order[1..], ks, k);
        }
      }
    }
  }

  lemma {:induction false} WithoutAllSame(order: Recency, ks: set<CacheKey>, k: CacheKey)
    requires k !in order
    ensures WithoutAll(order, ks + {k}) == WithoutAll(order, ks)
  {
    if order != [] {
      assert order[0] in order && forall x :: x in order[1..] ==> x in order;
      WithoutAllSame(order[1..], ks, k);
    }
  }

  lemma OneMoreOut<T>(order: Recency, items: map<CacheKey, CacheEntry<T>>, index: SegIndex, s: nat, keys: seq<CacheKey>, i: nat)
    requires Linked(order, items, index) && s in index && index[s] == keys && i < |keys|
    ensures var was, had := WithoutAll(order, Set(keys[..i])), items - Set(keys[..i]);
      && keys[i] in had
      && Without(was, keys[i]) == WithoutAll(order, Set(keys[..i + 1]))
      && had - {keys[i]} == items - Set(keys[..i + 1])
      && Total(Without(was, keys[i]), had - {keys[i]}) == Total(was, had) - had[keys[i]].size
  {
    var was, had := WithoutAll(order, Set(keys[..i])), items - Set(keys[..i]);
    assert GoodFile(s, keys);
    assert Filed(index, keys[i]);
    assert keys[i] !in keys[..i];
    assert Set(keys[..i + 1]) == Set(keys[..i]) + {keys[i]};
    WithoutAllMore(order, Set(keys[..i]), keys[i]);
    WithoutAllMember(order, Set(keys[..i]), keys[i]);
    hide WithoutAll, Files;
    TotalWithout(was, had, keys[i]);
    WithoutMembers(was, keys[i]);
    hide Without, Distinct;
    TotalSame(Without(was, keys[i]), had, had - {keys[i]});
  }

  lemma {:induction false} OthersAre(order: Recency, s: nat, ks: set<CacheKey>)
    requires forall k :: k in order ==> (k in ks <==> k.segmentID == s)
    ensures WithoutAll(order, ks) == OfOthers(order, s)
  {
    if order != [] {
      assert order[0] in order && forall x :: x in order[1..] ==> x in order;
      OthersAre(order[1..], s, ks);
    }
  }

  lemma SegmentOut<T>(order: Recency, items: map<CacheKey, CacheEntry<T>>, index: SegIndex, s: nat)
    requires Linked(order, items, index) && s in index
    ensures var ks, rest := Set(index[s]), map x | x in index && x != s :: index[x];
      && Linked(WithoutAll(order, ks), items - ks, rest)
      && items - ks == OtherItems(items, s)
      && WithoutAll(order, ks) == OfOthers(order, s)
  {
    hide Files, Distinct, WithoutAll, OfOthers, Set;
    SegmentUnfiled(index, items.Keys, s);
    var ks := Set(index[s]);
    assert (items - ks).Keys == items.Keys - ks;
    OthersAre(order, s, ks);
    WithoutAllMembers(order, ks);
  }

  lemma WithoutAllMembers(order: Recency, ks: set<CacheKey>)
    requires Distinct(order)
    ensures Distinct(WithoutAll(order, ks))
    ensures forall x :: x in WithoutAll(order, ks) <==> x in order && x !in ks
  {
    WithoutAllMore(order, ks, CacheKey(0, 0));
    hide Distinct, WithoutAll;
    forall x ensures x in WithoutAll(order, ks) <==> x in order && x !in ks { WithoutAllMember(order, ks, x); }
  }

  lemma SegmentUnfiled(index: SegIndex, keys: set<CacheKey>, s: nat)
    requires Files(index, keys) && s in index
    ensures Files(map x | x in index && x != s :: index[x], keys - Set(index[s]))
    ensures forall k :: k in keys ==> (k in Set(index[s]) <==> k.segmentID == s)
  {
    hide Distinct;
    var rest := map x | x in index && x != s :: index[x];
    assert GoodFile(s, index[s]);
    forall k | k in keys ensures k in Set(index[s]) <==> k.segmentID == s { assert Filed(index, k); }
    forall k ensures k in keys - Set(index[s]) <==> Filed(rest, k) { assert k in keys <==> Filed(index, k); }
  }

  lemma {:induction false} NoOthers(order: Recency, s: nat)
    requires forall k :: k in order ==> k.segmentID != s
    ensures OfOthers(order, s) == order
  {
    if order != [] {
      assert order[0] in order && forall x :: x in order[1..] ==> x in order;
      NoOthers(order[1..], s);
    }
  }

  lemma NotFiled<T>(order: Recency, items: map<CacheKey, CacheEntry<T>>, index: SegIndex, s: nat)
    requires Linked(order, items, index) && s !in index
    ensures OfOthers(order, s) == order && OtherItems(items, s) == items
  {
    forall k | k in items ensures k.segmentID != s { assert Filed(index, k); }
    NoOthers(order, s);
  }

  lemma AlreadyFront(order: Recency)
    requires order != []
    ensures Front(order, order[0]) == order
  {
  }

  lemma AllKept<T>(order: Recency, items: map<CacheKey, CacheEntry<T>>, index: SegIndex)
    requires Linked(order, items, index)
    ensures Kept(items, order) == items
  {
    hide Files, Distinct;
  }

  lemma KeptFewer<T>(had: map<CacheKey, CacheEntry<T>>, order: Recency, items: map<CacheKey, CacheEntry<T>>, index: SegIndex)
    requires Linked(order, items, index) && order != [] && items == Kept(had, order)
    ensures var last := |order| - 1; Kept(had, order[..last]) == items - {order[last]}
  {
    hide Files;
    var last := |order| - 1;
    assert order == order[..last] + [order[last]];
    assert order[last] !in order[..last];
  }

  lemma KeptTotal<T>(had: map<CacheKey, CacheEntry<T>>, order: Recency)
    ensures Total(order, Kept(had, order)) == Total(order, had)
  {
    TotalSame(order, Kept(had, order), had);
  }

  // ----- runs -----

  datatype CacheOp<T> = Get(key: CacheKey) | Put(key: CacheKey, data: T) | Invalidate(segmentID: nat)

  /** What an operation can leave in the cache: only what was there or what was just put. */
  ghost predicate Effect<T>(v: map<CacheKey, CacheEntry<T>>, op: CacheOp<T>, w: map<CacheKey, CacheEntry<T>>) {
    match op
    case Get(_) => w == v
    case Put(key, data) => forall k :: k in w ==> if k == key then w[k].data == data else k in v && w[k] == v[k]
    case Invalidate(s) => w == OtherItems(v, s)
  }

  ghost predicate IsRun<T>(states: seq<map<CacheKey, CacheEntry<T>>>, ops: seq<CacheOp<T>>) {
    && |states| == |ops| + 1 && states[0] == map[]
    && forall i :: 0 <= i < |ops| ==> Effect(states[i], ops[i], states[i + 1])
  }

  /** Operation `i` puts the data, and no later one before `n` puts to the key or invalidates it. */
  ghost predicate IsLastPut<T>(ops: seq<CacheOp<T>>, i: nat, n: nat, k: CacheKey, data: T)
    requires i < n <= |ops|
  {
    && ops[i] == CacheOp.Put(k, data)
    && forall j :: i < j < n ==> !(ops[j].Put? && ops[j].key == k) && ops[j] != CacheOp.Invalidate(k.segmentID)
  }

  /** Over every run, what is found under a key is the data last put there, with no
      invalidation of its segment since. */
  lemma {:induction false} FoundIsLastPut<T>(states: seq<map<CacheKey, CacheEntry<T>>>, ops: seq<CacheOp<T>>, n: nat, k: CacheKey)
    requires IsRun(states, ops) && n <= |ops| && k in states[n]
    ensures exists i: nat :: i < n && IsLastPut(ops, i, n, k, states[n][k].data)
    decreases n
  {
    assert n > 0;
    assert Effect(states[n - 1], ops[n - 1], states[n]);
    if ops[n - 1].Put? && ops[n - 1].key == k {
      assert IsLastPut(ops, n - 1, n, k, states[n][k].data);
    } else {
      FoundIsLastPut(states, ops, n - 1, k);
      var i: nat :| i < n - 1 && IsLastPut(ops, i, n - 1, k, states[n - 1][k].data);
      assert IsLastPut(ops, i, n, k, states[n][k].data);
    }
  }

  // ----- recency over runs -----

  /** What an operation does to the recency list. */
  ghost predicate Reorders<T>(was: Recency, op: CacheOp<T>, now: Recency) {
    match op
    case Get(k) => now == if k in was then Front(was, k) else was
    case Put(k, _) =>
      || (k !in was && now == was)                                          // refused
      || (k in was && (now == Front(was, k) || now == Without(was, k)))     // updated, or grown too large
      || (k !in was && exists n: nat :: n <= |was| && now == [k] + was[..n])
    case Invalidate(s) => now == OfOthers(was, s)
  }

  predicate Uses<T>(op: CacheOp<T>, k: CacheKey) {
    !op.Invalidate? && op.key == k
  }

  /** One more than the position of the last of the first `n` operations that read or wrote the key. */
  function LastUse<T>(ops: seq<CacheOp<T>>, n: nat, k: CacheKey): (r: nat)
    requires n <= |ops|
    ensures r <= n
  {
    if n == 0 then 0 else if Uses(ops[n - 1], k) then n else LastUse(ops, n - 1, k)
  }

  /** Every key was used later than all keys behind it. */
  ghost predicate ByLastUse<T>(order: Recency, ops: seq<CacheOp<T>>, n: nat)
    requires n <= |ops|
  {
    order != [] ==>
      (forall x :: x in order[1..] ==> LastUse(ops, n, x) < LastUse(ops, n, order[0])) && ByLastUse(order[1..], ops, n)
  }

  lemma {:induction false} WithoutByUse<T>(order: Recency, k: CacheKey, ops: seq<CacheOp<T>>, n: nat)
    requires n <= |ops| && ByLastUse(order, ops, n)
    ensures ByLastUse(Without(order, k), ops, n)
    ensures forall x :: x in Without(order, k) ==> x in order && x != k
  {
    hide LastUse;
    if order != [] && order[0] != k {
      WithoutByUse(order[1..], k, ops, n);
      assert ([order[0]] + Without(order[1..], k))[1..] == Without(order[1..], k);
    }
  }

  lemma {:induction false} OthersByUse<T>(order: Recency, s: nat, ops: seq<CacheOp<T>>, n: nat)
    requires n <= |ops| && ByLastUse(order, ops, n)
    ensures ByLastUse(OfOthers(order, s), ops, n)
    ensures forall x :: x in OfOthers(order, s) ==> x in order
  {
    hide LastUse;
    if order != [] {
      OthersByUse(order[1..], s, ops, n);
      assert ([order[0]] + OfOthers(order[1..], s))[1..] == OfOthers(order[1..], s);
    }
  }

  lemma {:induction false} PrefixByUse<T>(order: Recency, m: nat, ops: seq<CacheOp<T>>, n: nat)
    requires n <= |ops| && m <= |order| && ByLastUse(order, ops, n)
    ensures ByLastUse(order[..m], ops, n)
  {
    hide LastUse;
    if m > 0 {
      assert order[..m][1..] == order[1..][..m - 1];
      PrefixByUse(order[1..], m - 1, ops, n);
    }
  }

  /** An operation on a key that is not listed keeps the list in order. */
  lemma {:induction false} StillByUse<T>(order: Recency, ops: seq<CacheOp<T>>, n: nat)
    requires n < |ops| && ByLastUse(order, ops, n)
    requires forall x :: x in order ==> !Uses(ops[n], x)
    ensures ByLastUse(order, ops, n + 1)
  {
    if order != [] {
      StillByUse(order[1..], ops, n);
    }
  }

  lemma UsedToFront<T>(rest: Recency, k: CacheKey, ops: seq<CacheOp<T>>, n: nat)
    requires n < |ops| && Uses(ops[n], k) && k !in rest && ByLastUse(rest, ops, n)
    ensures ByLastUse([k] + rest, ops, n + 1)
  {
    StillByUse(rest, ops, n);
    assert ([k] + rest)[1..] == rest;
  }

  lemma StepByUse<T>(was: Recency, ops: seq<CacheOp<T>>, n: nat, now: Recency)
    requires n < |ops| && ByLastUse(was, ops, n) && Reorders(was, ops[n], now)
    ensures ByLastUse(now, ops, n + 1)
  {
    hide ByLastUse, LastUse, Without, OfOthers;
    match ops[n] {
      case Get(k) =>
        WithoutByUse(was, k, ops, n);
        if k in was { UsedToFront(Without(was, k), k, ops, n); } else { StillByUse(was, ops, n); }
      case Put(k, _) =>
        WithoutByUse(was, k, ops, n);
        if k in was {
          UsedToFront(Without(was, k), k, ops, n);
          StillByUse(Without(was, k), ops, n);
        } else {
          StillByUse(was, ops, n);
          if m: nat :| m <= |was| && now == [k] + was[..m] {
            PrefixByUse(was, m, ops, n);
            UsedToFront(was[..m], k, ops, n);
          }
        }
      case Invalidate(s) =>
        OthersByUse(was, s, ops, n);
        StillByUse(OfOthers(was, s), ops, n);
    }
  }

  /** Over every run the list holds the cached keys in the order of their last use, latest first, so
      what is evicted is what was used least recently. */
  lemma {:induction false} RecencyIsLastUse<T>(orders: seq<Recency>, ops: seq<CacheOp<T>>, n: nat)
    requires |orders| == |ops| + 1 && n <= |ops| && orders[0] == []
    requires forall i :: 0 <= i < |ops| ==> Reorders(orders[i], ops[i], orders[i + 1])
    ensures ByLastUse(orders[n], ops, n)
    ensures forall i, j :: 0 <= i < j < |orders[n]| ==> LastUse(ops, n, orders[n][j]) < LastUse(ops, n, orders[n][i])
  {
    hide Reorders, LastUse;
    if n > 0 {
      RecencyIsLastUse(orders, ops, n - 1);
      assert Reorders(orders[n - 1], ops[n - 1], orders[n - 1 + 1]);
      StepByUse(orders[n - 1], ops, n - 1, orders[n]);
    }
    Pairwise(orders[n], ops, n);
    hide ByLastUse;
  }

  lemma {:induction false} Pairwise<T>(order: Recency, ops: seq<CacheOp<T>>, n: nat)
    requires n <= |ops| && ByLastUse(order, ops, n)
    ensures forall i, j :: 0 <= i < j < |order| ==> LastUse(ops, n, order[j]) < LastUse(ops, n, order[i])
  {
    hide LastUse;
    if order != [] {
      Pairwise(order[1..], ops, n);
      forall i, j | 0 <= i < j < |order| ensures LastUse(ops, n, order[j]) < LastUse(ops, n, order[i]) {
        assert order[j] == order[1..][j - 1];
        if i > 0 { assert order[i] == order[1..][i - 1]; }
      }
    }
  }
}
