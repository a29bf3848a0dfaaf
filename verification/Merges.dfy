/** What a k-way merge of sorted sources must produce, and how far one has got. */
module Merges {
  import opened Keys
  import opened SortedEntries
  import opened MergeHeaps

  type Sources<V> = seq<seq<Entry<V>>>

  ghost predicate AllSorted<V>(sources: Sources<V>) {
    forall i :: 0 <= i < |sources| ==> Sorted(sources[i])
  }

  /** The union of the sources; on a common key the source with the highest index wins. */
  function Merged<V>(sources: Sources<V>): map<Key, V> {
    if sources == [] then map[]
    else Merged(sources[..|sources| - 1]) + ToMap(sources[|sources| - 1])
  }

  lemma {:induction false} MergedKeys<V>(sources: Sources<V>, k: Key)
    ensures k in Merged(sources) <==> exists i :: 0 <= i < |sources| && k in ToMap(sources[i])
  {
    if sources != [] {
      var n := |sources| - 1;
      MergedKeys(sources[..n], k);
      if k in Merged(sources[..n]) {
        var i :| 0 <= i < n && k in ToMap(sources[..n][i]);
        assert k in ToMap(sources[i]);
      }
      if i :| 0 <= i < |sources| && k in ToMap(sources[i]) {
        if i < n { assert k in ToMap(sources[..n][i]); }
      }
    }
  }

  lemma {:induction false} MergedAt<V>(sources: Sources<V>, i: nat, k: Key)
    requires i < |sources| && k in ToMap(sources[i])
    requires forall j :: i < j < |sources| ==> k !in ToMap(sources[j])
    ensures k in Merged(sources) && Merged(sources)[k] == ToMap(sources[i])[k]
  {
    if i < |sources| - 1 {
      MergedAt(sources[..|sources| - 1], i, k);
    }
  }

  /** Reading positions: `pos[i]` entries of source `i` have been consumed. */
  ghost predicate Positions<V>(sources: Sources<V>, pos: seq<nat>) {
    |pos| == |sources| && forall i :: 0 <= i < |pos| ==> pos[i] <= |sources[i]|
  }

  ghost function HeadAt<V>(sources: Sources<V>, pos: seq<nat>, i: nat): multiset<Node>
    requires Positions(sources, pos) && i < |sources|
  {
    if pos[i] < |sources[i]| then multiset{Node(sources[i][pos[i]].key, i)} else multiset{}
  }

  /** One heap node for every source that is not exhausted, among the first `n`. */
  ghost function Heads<V>(sources: Sources<V>, pos: seq<nat>, n: nat): multiset<Node>
    requires Positions(sources, pos) && n <= |sources|
  {
    if n == 0 then multiset{} else Heads(sources, pos, n - 1) + HeadAt(sources, pos, n - 1)
  }

  ghost predicate IsHead<V>(sources: Sources<V>, pos: seq<nat>, x: Node)
    requires Positions(sources, pos)
  {
    x.index < |sources| && pos[x.index] < |sources[x.index]| && x.key == sources[x.index][pos[x.index]].key
  }

  lemma {:induction false} HeadsMember<V>(sources: Sources<V>, pos: seq<nat>, n: nat, x: Node)
    requires Positions(sources, pos) && n <= |sources|
    ensures x in Heads(sources, pos, n) <==> x.index < n && IsHead(sources, pos, x)
  {
    if n > 0 { HeadsMember(sources, pos, n - 1, x); }
  }

  function Advance(pos: seq<nat>, i: nat): seq<nat>
    requires i < |pos|
  {
    pos[i := pos[i] + 1]
  }

  lemma {:induction false} HeadsSame<V>(sources: Sources<V>, pos: seq<nat>, i: nat, n: nat)
    requires Positions(sources, pos) && n <= i < |sources| && pos[i] < |sources[i]|
    ensures Positions(sources, Advance(pos, i)) && Heads(sources, Advance(pos, i), n) == Heads(sources, pos, n)
  {
    if n > 0 {
      HeadsSame(sources, pos, i, n - 1);
      assert HeadAt(sources, Advance(pos, i), n - 1) == HeadAt(sources, pos, n - 1);
    }
  }

  /** Advancing source `i` exchanges its head and leaves the others. */
  lemma {:induction false} HeadsAdvance<V>(sources: Sources<V>, pos: seq<nat>, i: nat, n: nat)
    requires Positions(sources, pos) && i < n <= |sources| && pos[i] < |sources[i]|
    ensures Positions(sources, Advance(pos, i))
    ensures Heads(sources, Advance(pos, i), n) + HeadAt(sources, pos, i) == Heads(sources, pos, n) + HeadAt(sources, Advance(pos, i), i)
  {
    hide HeadAt;
    var pos' := Advance(pos, i);
    var h, h', c, c' := Heads(sources, pos, n - 1), Heads(sources, pos', n - 1), HeadAt(sources, pos, n - 1), HeadAt(sources, pos', n - 1);
    if i == n - 1 {
      HeadsSame(sources, pos, i, n - 1);
      SumSwap(h, c', c);
    } else {
      HeadsAdvance(sources, pos, i, n - 1);
      OtherHead(sources, pos, i, n - 1);
      SumMore(h, h', c, HeadAt(sources, pos, i), HeadAt(sources, pos', i));
    }
  }

  lemma OtherHead<V>(sources: Sources<V>, pos: seq<nat>, i: nat, j: nat)
    requires Positions(sources, pos) && i < |sources| && j < |sources| && i != j && pos[i] < |sources[i]|
    ensures Positions(sources, Advance(pos, i)) && HeadAt(sources, Advance(pos, i), j) == HeadAt(sources, pos, j)
  {
  }

  lemma SumMore(h: multiset<Node>, h': multiset<Node>, c: multiset<Node>, x: multiset<Node>, x': multiset<Node>)
    requires h' + x == h + x'
    ensures (h' + c) + x == (h + c) + x'
  {
    SumSwap(h', c, x);
    SumSwap(h, c, x');
  }

  lemma SumSwap(a: multiset<Node>, b: multiset<Node>, c: multiset<Node>)
    ensures a + b + c == a + c + b
  {
  }

  ghost function Remaining<V>(sources: Sources<V>, pos: seq<nat>, n: nat): nat
    requires Positions(sources, pos) && n <= |sources|
  {
    if n == 0 then 0 else Remaining(sources, pos, n - 1) + |sources[n - 1]| - pos[n - 1]
  }

  lemma {:induction false} RemainingAdvance<V>(sources: Sources<V>, pos: seq<nat>, i: nat, n: nat)
    requires Positions(sources, pos) && n <= |sources| && i < |sources| && pos[i] < |sources[i]|
    ensures var pos' := Advance(pos, i);
      Positions(sources, pos') && Remaining(sources, pos', n) == Remaining(sources, pos, n) - if i < n then 1 else 0
  {
    if n > 0 { RemainingAdvance(sources, pos, i, n - 1); }
  }

  ghost predicate UpTo<V>(out: seq<Entry<V>>, k: Key) {
    out != [] && AtMost(k, out[|out| - 1].key)
  }

  /** Everything consumed is at most the last output key, everything left at least. */
  ghost predicate Split<V>(sources: Sources<V>, pos: seq<nat>, out: seq<Entry<V>>)
    requires Positions(sources, pos)
  {
    && (forall i, j :: 0 <= i < |sources| && 0 <= j < pos[i] ==> UpTo(out, sources[i][j].key))
    && (out != [] ==> forall i, j :: 0 <= i < |sources| && pos[i] <= j < |sources[i]| ==> AtMost(out[|out| - 1].key, sources[i][j].key))
  }

  /** Every unread key is above the last output key. */
  ghost predicate Clear<V>(sources: Sources<V>, pos: seq<nat>, out: seq<Entry<V>>)
    requires Positions(sources, pos)
  {
    forall i, j :: 0 <= i < |sources| && pos[i] <= j < |sources[i]| ==> !UpTo(out, sources[i][j].key)
  }

  /** `out` is sorted and lists the union of the sources up to its last key. */
  ghost predicate Prefix<V>(sources: Sources<V>, out: seq<Entry<V>>) {
    && Sorted(out)
    && (forall k :: k in Merged(sources) && UpTo(out, k) ==> k in ToMap(out))
    && (forall k :: k in ToMap(out) ==> k in Merged(sources) && ToMap(out)[k] == Merged(sources)[k])
  }

  /** A key above the output stands at or after the reading position of its source. */
  lemma UnreadKey<V>(sources: Sources<V>, pos: seq<nat>, out: seq<Entry<V>>, i: nat, k: Key) returns (j: nat)
    requires Positions(sources, pos) && AllSorted(sources) && Split(sources, pos, out)
    requires i < |sources| && k in ToMap(sources[i]) && !UpTo(out, k)
    ensures pos[i] <= j < |sources[i]| && sources[i][j].key == k
    ensures AtMost(sources[i][pos[i]].key, k)
  {
    hide Less;
    ToMapKeys(sources[i], k);
    j :| 0 <= j < |sources[i]| && sources[i][j].key == k;
    LessIrreflexive(k);
    if pos[i] < j && Less(k, sources[i][pos[i]].key) {
      assert Sorted(sources[i]) && Less(sources[i][pos[i]].key, sources[i][j].key);
      LessTransitive(k, sources[i][pos[i]].key, k);
    }
  }

  /** The least head carries the merged value of the next key. */
  lemma LeastHeadWins<V>(sources: Sources<V>, pos: seq<nat>, out: seq<Entry<V>>, top: Node)
    requires Positions(sources, pos) && AllSorted(sources) && Split(sources, pos, out) && Clear(sources, pos, out)
    requires IsHead(sources, pos, top)
    requires forall x :: IsHead(sources, pos, x) ==> Leq(top, x)
    ensures top.key in Merged(sources) && Merged(sources)[top.key] == sources[top.index][pos[top.index]].value
    ensures forall m :: m in Merged(sources) && !UpTo(out, m) ==> AtMost(top.key, m)
  {
    hide Less, ToMap, Merged;
    var i, k := top.index, top.key;
    SortedAt(sources[i], pos[i]);
    forall j | i < j < |sources| ensures k !in ToMap(sources[j]) {
      if k in ToMap(sources[j]) {
        var q := UnreadKey(sources, pos, out, j, k);
        var x := Node(sources[j][pos[j]].key, j);
        assert IsHead(sources, pos, x) && Leq(top, x);
        LessTotal(x.key, k);
      }
    }
    MergedAt(sources, i, k);
    forall m | m in Merged(sources) && !UpTo(out, m) ensures AtMost(k, m) {
      MergedKeys(sources, m);
      var j :| 0 <= j < |sources| && m in ToMap(sources[j]);
      var q := UnreadKey(sources, pos, out, j, m);
      var x := Node(sources[j][pos[j]].key, j);
      assert IsHead(sources, pos, x) && Leq(top, x);
      if Less(m, k) {
        LessTotal(x.key, k);
        LessTotal(x.key, m);
        LessIrreflexive(k);
        if Less(x.key, m) { LessTransitive(x.key, m, k); }
        if Less(x.key, k) && Less(k, x.key) { LessTransitive(x.key, k, x.key); }
      }
    }
  }

  /** Emitting the least head extends the output by the next key of the union. */
  lemma EmitStep<V>(sources: Sources<V>, pos: seq<nat>, out: seq<Entry<V>>, top: Node)
    requires Positions(sources, pos) && AllSorted(sources)
    requires Split(sources, pos, out) && Clear(sources, pos, out) && Prefix(sources, out)
    requires IsHead(sources, pos, top)
    requires forall x :: IsHead(sources, pos, x) ==> Leq(top, x)
    ensures var out' := out + [sources[top.index][pos[top.index]]];
      Prefix(sources, out') && Split(sources, pos, out')
  {
    hide Less, Merged;
    var i, k := top.index, top.key;
    var e := sources[i][pos[i]];
    var out' := out + [e];
    LeastHeadWins(sources, pos, out, top);
    assert out'[..|out|] == out;
    assert ToMap(out') == ToMap(out)[e.key := e.value];
    EmitSorted(out, e);
    forall m | m in Merged(sources) && UpTo(out', m) ensures m in ToMap(out') {
      if !UpTo(out, m) {
        LessTotal(m, k);
      }
    }
    forall a, j | 0 <= a < |sources| && 0 <= j < pos[a] ensures UpTo(out', sources[a][j].key) {
      assert UpTo(out, sources[a][j].key);
      BelowNext(out, e, sources[a][j].key);
    }
    forall a, j | 0 <= a < |sources| && pos[a] <= j < |sources[a]| ensures AtMost(k, sources[a][j].key) {
      SortedAt(sources[a], j);
      MergedKeys(sources, sources[a][j].key);
    }
  }

  lemma EmitSorted<V>(out: seq<Entry<V>>, e: Entry<V>)
    requires Sorted(out) && !UpTo(out, e.key)
    ensures Sorted(out + [e])
  {
    hide Less;
    if out != [] {
      var last := out[|out| - 1];
      forall i | 0 <= i < |out| ensures Less(out[i].key, e.key) {
        if i < |out| - 1 { LessTransitive(out[i].key, last.key, e.key); }
      }
    }
  }

  lemma BelowNext<V>(out: seq<Entry<V>>, e: Entry<V>, k: Key)
    requires !UpTo(out, e.key) && UpTo(out, k)
    ensures UpTo(out + [e], k)
  {
    hide Less;
    var last := out[|out| - 1].key;
    if Less(e.key, k) {
      LessTransitive(last, e.key, k);
    }
  }

  /** Reading past an entry that equals the last output key keeps the split. */
  lemma SkipStep<V>(sources: Sources<V>, pos: seq<nat>, out: seq<Entry<V>>, i: nat)
    requires Positions(sources, pos) && Split(sources, pos, out) && out != []
    requires i < |sources| && pos[i] < |sources[i]| && sources[i][pos[i]].key == out[|out| - 1].key
    ensures Positions(sources, Advance(pos, i)) && Split(sources, Advance(pos, i), out)
  {
    hide Less;
    LessIrreflexive(out[|out| - 1].key);
  }

  /** When the least head is above the last output key, so is everything unread. */
  lemma ClearWhenLeastIs<V>(sources: Sources<V>, pos: seq<nat>, out: seq<Entry<V>>, top: Node)
    requires Positions(sources, pos) && AllSorted(sources) && Split(sources, pos, out)
    requires IsHead(sources, pos, top) && (forall x :: IsHead(sources, pos, x) ==> Leq(top, x))
    requires out == [] || top.key != out[|out| - 1].key
    ensures Clear(sources, pos, out)
  {
    hide Less;
    if out != [] {
      var last := out[|out| - 1].key;
      assert Less(last, top.key) by { LessTotal(last, top.key); }
      forall i, j | 0 <= i < |sources| && pos[i] <= j < |sources[i]| ensures !UpTo(out, sources[i][j].key) {
        var x := Node(sources[i][pos[i]].key, i);
        assert IsHead(sources, pos, x) && Leq(top, x);
        LessTotal(top.key, x.key);
        if top.key != x.key { LessTransitive(last, top.key, x.key); }
        if pos[i] < j {
          assert Sorted(sources[i]);
          LessTransitive(last, x.key, sources[i][j].key);
        }
      }
    }
  }

  /** With nothing left to read the output is the whole union. */
  lemma Complete<V>(sources: Sources<V>, pos: seq<nat>, out: seq<Entry<V>>)
    requires Positions(sources, pos) && AllSorted(sources) && Split(sources, pos, out) && Prefix(sources, out)
    requires forall i :: 0 <= i < |sources| ==> pos[i] == |sources[i]|
    ensures Sorted(out) && ToMap(out) == Merged(sources)
  {
    hide Less, Merged, ToMap;
    forall k | k in Merged(sources) ensures k in ToMap(out) {
      MergedKeys(sources, k);
      var i :| 0 <= i < |sources| && k in ToMap(sources[i]);
      if !UpTo(out, k) {
        var j := UnreadKey(sources, pos, out, i, k);
      }
    }
    assert ToMap(out).Keys == Merged(sources).Keys;
  }
}
