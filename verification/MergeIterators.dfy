/** The iterator behind every scan: merges sorted sources, newest data winning. */
module MergeIterators {
  import opened Keys
  import opened SortedEntries
  import opened MergeHeaps
  import opened Merges

  /** The reading positions of a merge and the heap of their heads. */
  class MergeFront<V> {
    const sources: Sources<V>
    var pos: seq<nat>  // next entry of each source; one reader per source
    const heap: MergeHeap

    ghost predicate Valid()
      reads this, heap
    {
      && Positions(sources, pos)
      && IsHeap(heap.h)
      && multiset(heap.h) == Heads(sources, pos, |sources|)
    }

    ghost function Left(): nat
      requires Positions(sources, pos)
      reads this
    {
      Remaining(sources, pos, |sources|)
    }

    constructor (sources: Sources<V>)
      ensures this.sources == sources && pos == seq(|sources|, _ => 0)
      ensures fresh(heap) && heap.h == []
    {
      this.sources := sources;
      pos := seq(|sources|, _ => 0);
      heap := new MergeHeap();
    }

    /** Puts the first entry of every non-empty source on the heap, then orders it. */
    method LoadAndInit()
      requires pos == seq(|sources|, _ => 0) && heap.h == []
      modifies heap
      ensures Valid()
    {
      hide Leq, Before, Less, IsHeap, Ordered;
      for i := 0 to |sources|
        invariant multiset(heap.h) == Heads(sources, pos, i)
      {
        if sources[i] != [] {
          var node := Node(sources[i][0].key, i);
          assert HeadAt(sources, pos, i) == multiset{node};
          assert multiset(heap.h + [node]) == multiset(heap.h) + multiset{node};
          heap.h := heap.h + [node];
        }
      }
      heap.Init();
    }

    /** The same, pushing one head at a time. */
    method LoadByPush()
      requires pos == seq(|sources|, _ => 0) && heap.h == []
      modifies heap
      ensures Valid()
    {
      hide Leq;
      heap.Init();
      for i := 0 to |sources|
        invariant IsHeap(heap.h) && multiset(heap.h) == Heads(sources, pos, i)
      {
        if sources[i] != [] {
          heap.Push(Node(sources[i][0].key, i));
        }
      }
    }

    /** The root is the least unread entry of all sources. */
    lemma RootIsLeastHead()
      requires Valid() && heap.h != []
      ensures IsHead(sources, pos, heap.h[0])
      ensures forall x :: IsHead(sources, pos, x) ==> Leq(heap.h[0], x)
    {
      hide Leq, IsHeap, Heads;
      var root := heap.h[0];
      assert root in multiset(heap.h);
      HeadsMember(sources, pos, |sources|, root);
      forall x | IsHead(sources, pos, x) ensures Leq(root, x) {
        HeadsMember(sources, pos, |sources|, x);
        assert x in heap.h;
        var j :| 0 <= j < |heap.h| && heap.h[j] == x;
        RootIsLeast(heap.h, j);
      }
    }

    static lemma ExchangeHead(a: multiset<Node>, b: multiset<Node>, top: Node, next: multiset<Node>)
      requires b + multiset{top} == a + next
      ensures top in a ==> b == a - multiset{top} + next
    {
      forall x: Node ensures b[x] + multiset{top}[x] == a[x] + next[x] {
        assert (b + multiset{top})[x] == (a + next)[x];
      }
    }

    /** Consumes the root's entry: its reader moves on, or leaves the heap. */
    method AdvanceHeapTop()
      requires Valid() && heap.h != []
      modifies this`pos, heap
      ensures Valid() && IsHead(sources, old(pos), old(heap.h)[0])
      ensures pos == Advance(old(pos), old(heap.h)[0].index)
      ensures Left() == old(Left()) - 1
    {
      hide Leq, Before, Less, Heads, Remaining;
      RootIsLeastHead();
      var top := heap.h[0];
      var i := top.index;
      HeadsAdvance(sources, pos, i, |sources|);
      RemainingAdvance(sources, pos, i, |sources|);
      pos := Advance(pos, i);
      if pos[i] < |sources[i]| {
        var next := Node(sources[i][pos[i]].key, i);
        var h0 := heap.h;
        heap.h := heap.h[0 := next];
        assert multiset(heap.h) == multiset(h0) - multiset{top} + multiset{next};
        heap.FixRoot();
        ExchangeHead(old(multiset(heap.h)), Heads(sources, pos, |sources|), top, multiset{next});
      } else {
        var x := heap.Pop();
        ExchangeHead(old(multiset(heap.h)), Heads(sources, pos, |sources|), top, multiset{});
        assert multiset(heap.h) == old(multiset(heap.h)) - multiset{top} + multiset{};
      }
    }

    /** An empty heap means every source has been read to its end. */
    lemma AllRead()
      requires Valid() && heap.h == []
      ensures forall i :: 0 <= i < |sources| ==> pos[i] == |sources[i]|
    {
      hide Heads;
      forall i | 0 <= i < |sources| ensures pos[i] == |sources[i]| {
        if pos[i] < |sources[i]| {
          HeadsMember(sources, pos, |sources|, Node(sources[i][pos[i]].key, i));
          assert false;
        }
      }
    }
  }

  class MergeIterator<V> {
    const front: MergeFront<V>
    var current: Option<Entry<V>>
    var finished: bool

    ghost var emitted: seq<Entry<V>>

    ghost predicate Valid()
      reads this, front, front.heap
    {
      && AllSorted(front.sources)
      && front.Valid()
      && Prefix(front.sources, emitted) && Split(front.sources, front.pos, emitted)
      && (current.None? ==> emitted == [])
      && (current.Some? ==> emitted != [] && emitted[|emitted| - 1] == current.value)
      && (finished ==> front.heap.h == [])
    }

    constructor (sources: Sources<V>)
      requires AllSorted(sources)
      ensures Valid() && fresh(front) && fresh(front.heap) && front.sources == sources
      ensures emitted == [] && !finished
    {
      hide Less, Leq, Before, IsHeap, Merged, Sorted, Prefix, Heads;
      front := new MergeFront(sources);
      current, finished, emitted := None, false, [];
      new;
      front.LoadAndInit();
      NothingEmitted(sources);
    }

    /** Moves to the next distinct key; false when the union is exhausted. */
    method Next() returns (ok: bool)
      requires Valid()
      modifies this`current, this`finished, this`emitted, front`pos, front.heap
      ensures Valid()
      ensures ok ==> current.Some? && emitted == old(emitted) + [current.value] && front.Left() < old(front.Left())
      ensures !ok ==> emitted == old(emitted) && Sorted(emitted) && ToMap(emitted) == Merged(front.sources)
    {
      hide Leq, Before, Less, Heads, Merged, Sorted, Prefix, Split, AllSorted, ToMap, IsHeap, Remaining;
      if finished {
        Exhausted();
        return false;
      }
      if current.Some? {
        SkipCurrent();
      }
      if front.heap.h == [] {
        finished := true;
        Exhausted();
        return false;
      }
      front.RootIsLeastHead();
      ClearWhenLeastIs(front.sources, front.pos, emitted, front.heap.h[0]);
      EmitStep(front.sources, front.pos, emitted, front.heap.h[0]);
      SetCurrentFromHeapTop();
      ok := true;
    }

    lemma Exhausted()
      requires Valid() && front.heap.h == []
      ensures Sorted(emitted) && ToMap(emitted) == Merged(front.sources)
    {
      hide Merged, Sorted, Prefix, Split, AllSorted, ToMap;
      front.AllRead();
      Complete(front.sources, front.pos, emitted);
    }

    /** Drops the older versions of the current key. */
    method SkipCurrent()
      requires Valid() && current.Some?
      modifies front`pos, front.heap
      ensures Valid() && front.Left() <= old(front.Left())
      ensures front.heap.h != [] ==> front.heap.h[0].key != current.value.key
    {
      hide Leq, Before, Less, Heads, Merged, Sorted, Prefix, Split, AllSorted, ToMap, IsHeap, Remaining, Advance;
      var prevKey := current.value.key;
      while front.heap.h != [] && front.heap.h[0].key == prevKey
        invariant Valid() && front.Left() <= old(front.Left())
        decreases front.Left()
      {
        front.RootIsLeastHead();
        SkipStep(front.sources, front.pos, emitted, front.heap.h[0].index);
        front.AdvanceHeapTop();
      }
    }

    method SetCurrentFromHeapTop()
      requires front.Valid() && front.heap.h != [] && AllSorted(front.sources) && !finished
      requires IsHead(front.sources, front.pos, front.heap.h[0])
      requires var out := emitted + [front.sources[front.heap.h[0].index][front.pos[front.heap.h[0].index]]];
        Prefix(front.sources, out) && Split(front.sources, front.pos, out)
      modifies this`current, this`emitted, front`pos, front.heap
      ensures Valid() && current.Some? && emitted == old(emitted) + [current.value]
      ensures front.Left() < old(front.Left())
    {
      hide Leq, Before, Less, Heads, Merged, Sorted, Prefix, Split, AllSorted, ToMap, IsHeap, Remaining, Advance;
      var i := front.heap.h[0].index;
      current := Some(front.sources[i][front.pos[i]]);
      emitted := emitted + [front.sources[i][front.pos[i]]];
      SkipStep(front.sources, front.pos, emitted, i);
      front.AdvanceHeapTop();
    }
  }

  /** A scan that runs the iterator to the end lists the union of its sources, each key
      once, in order, with the value of the newest source. */
  method MergeAll<V>(sources: Sources<V>) returns (out: seq<Entry<V>>)
    requires AllSorted(sources)
    ensures Sorted(out) && ToMap(out) == Merged(sources)
  {
    hide Less, Sorted, Merged, ToMap, Prefix, Split;
    var mi := new MergeIterator(sources);
    out := [];
    var ok := mi.Next();
    while ok
      invariant mi.Valid() && fresh(mi) && fresh(mi.front) && fresh(mi.front.heap) && mi.front.sources == sources
      invariant if ok then mi.current.Some? && mi.emitted == out + [mi.current.value]
        else mi.emitted == out && Sorted(out) && ToMap(out) == Merged(sources)
      decreases ok, mi.front.Left()
    {
      out := out + [mi.current.value];
      ok := mi.Next();
    }
  }

  /** Compaction's merge of segments ordered oldest first. It remembers the last key as a
      string that starts out empty, so a row whose key is empty is never written. */
  method MergeForCompaction<V>(sources: Sources<V>) returns (deduped: seq<Entry<V>>)
    requires AllSorted(sources)
    ensures Sorted(deduped) && ToMap(deduped) == Merged(sources) - {[]}
  {
    hide Leq, Before, Less, Heads, Merged, Sorted, Prefix, Split, Clear, AllSorted, ToMap, IsHeap, Remaining, Advance;
    var front := new MergeFront(sources);
    front.LoadByPush();
    deduped := [];
    var prevKey: Key := [];
    ghost var full: seq<Entry<V>> := [];
    NothingEmitted(sources);
    while front.heap.h != []
      invariant fresh(front) && fresh(front.heap) && front.sources == sources && front.Valid()
      invariant Prefix(sources, full) && Split(sources, front.pos, full)
      invariant prevKey == if full == [] then [] else full[|full| - 1].key
      invariant Named(full) == deduped
      decreases front.Left()
    {
      front.RootIsLeastHead();
      var top := front.heap.h[0];
      var row := sources[top.index][front.pos[top.index]];
      if full == [] || top.key != prevKey {
        ClearWhenLeastIs(sources, front.pos, full, top);
        EmitStep(sources, front.pos, full, top);
        NamedStep(full, row);
        full := full + [row];
      }
      SkipStep(sources, front.pos, full, top.index);
      front.AdvanceHeapTop();
      if top.key == prevKey {
        continue;
      }
      deduped := deduped + [row];
      prevKey := top.key;
    }
    front.AllRead();
    Complete(sources, front.pos, full);
    NamedIsRest(full);
  }

  /** The rows with a non-empty key. */
  ghost function Named<V>(s: seq<Entry<V>>): seq<Entry<V>> {
    if s != [] && s[0].key == [] then s[1..] else s
  }

  lemma NamedStep<V>(s: seq<Entry<V>>, e: Entry<V>)
    requires s == [] || e.key != s[|s| - 1].key
    ensures Named(s + [e]) == if s == [] && e.key == [] then Named(s) else Named(s) + [e]
  {
  }

  lemma NamedIsRest<V>(s: seq<Entry<V>>)
    requires Sorted(s)
    ensures Sorted(Named(s)) && ToMap(Named(s)) == ToMap(s) - {[]}
  {
    hide Less;
    var t := Named(s);
    ToMapKeys(t, []);
    forall x | x != [] ensures x in ToMap(s) <==> x in ToMap(t)
      ensures x in ToMap(s) ==> ToMap(t)[x] == ToMap(s)[x]
    {
      assert s != [] ==> s == [s[0]] + s[1..];
      SameElsewhere(s, t, x);
    }
    forall i | 0 <= i < |t| ensures t[i].key != [] {
      if s[0].key == [] { assert Less(s[0].key, s[i + 1].key); LessIrreflexive([]); }
      else { EmptyIsLeast(s, i); }
    }
  }

  lemma EmptyIsLeast<V>(s: seq<Entry<V>>, i: nat)
    requires Sorted(s) && i < |s| && s[0].key != []
    ensures s[i].key != []
  {
    if i > 0 { assert Less(s[0].key, s[i].key); }
  }

  lemma NothingEmitted<V>(sources: Sources<V>)
    ensures Prefix<V>(sources, []) && Split<V>(sources, seq(|sources|, _ => 0), [])
  {
  }
}
