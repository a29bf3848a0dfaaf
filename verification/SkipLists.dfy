/** The skip list under a MemTable: nodes with an inlined array of forward pointers,
    updated in place. */
module SkipLists {
  import opened Keys
  import opened SortedEntries

  const MAX_LEVEL: nat := 16

  /** The first index at or after `q` whose height reaches level `i`, or `|hs|`. */
  ghost function NextFrom(hs: seq<nat>, q: nat, i: nat): (r: nat)
    requires q <= |hs|
    ensures q <= r <= |hs|
    ensures r < |hs| ==> hs[r] >= i
    ensures forall t :: q <= t < r ==> hs[t] < i
    decreases |hs| - q
  {
    if q == |hs| || hs[q] >= i then q else NextFrom(hs, q + 1, i)
  }

  lemma NextFromUnique(hs: seq<nat>, q: nat, i: nat, r: nat)
    requires q <= r <= |hs|
    requires r < |hs| ==> hs[r] >= i
    requires forall t :: q <= t < r ==> hs[t] < i
    ensures NextFrom(hs, q, i) == r
    decreases r - q
  {
    if q < r {
      assert hs[q] < i;
      NextFromUnique(hs, q + 1, i, r);
    }
  }

  /** The index a node of height `hs[q]` points to at level `i`, `|hs|` for null. */
  ghost function TargetIndex(hs: seq<nat>, q: nat, i: nat): (r: nat)
    requires q < |hs|
    ensures q < r <= |hs|
  {
    if i <= hs[q] then NextFrom(hs, q + 1, i) else |hs|
  }

  ghost function Inserted<T>(s: seq<T>, k: nat, x: T): (r: seq<T>)
    requires k <= |s|
    ensures |r| == |s| + 1 && (k > 0 ==> r[0] == s[0])
    ensures forall q {:trigger r[q]} :: 0 <= q < |r| ==> r[q] == if q < k then s[q] else if q == k then x else s[q - 1]
  {
    s[..k] + [x] + s[k..]
  }

  /** Where old index `x` moves when something is inserted at `k`. */
  ghost function Shift(k: nat, x: nat): (r: nat)
    ensures x <= r <= x + 1
  {
    if x < k then x else x + 1
  }

  /** Inserting a node of height `h` at `k` redirects exactly the pointers that jumped
      over `k` on the levels up to `h`; every other pointer keeps its node. */
  lemma TargetsAfterInsert(hs: seq<nat>, k: nat, h: nat, q: nat, i: nat)
    requires q < |hs| && k <= |hs|
    ensures TargetIndex(Inserted(hs, k, h), Shift(k, q), i) ==
      if i <= hs[q] && i <= h && q < k <= TargetIndex(hs, q, i) then k
      else Shift(k, TargetIndex(hs, q, i))
  {
    assert Inserted(hs, k, h)[Shift(k, q)] == hs[q];
    if i <= hs[q] {
      var x := NextFrom(hs, q + 1, i);
      if q < k {
        NextBefore(hs, k, h, q + 1, i, if i <= h && k <= x then k else Shift(k, x));
      } else {
        NextBefore(hs, k, h, q + 2, i, x + 1);
      }
    }
  }

  lemma NextBefore(hs: seq<nat>, k: nat, h: nat, q: nat, i: nat, r: nat)
    requires k <= |hs| && q <= r <= |hs| + 1 && (q <= k || q >= k + 2)
    requires r < k ==> hs[r] >= i
    requires r == k ==> h >= i
    requires k < r <= |hs| ==> hs[r - 1] >= i
    requires forall t :: q <= t < r && t < k ==> hs[t] < i
    requires q <= k < r ==> h < i
    requires forall t :: q <= t + 1 < r && t >= k ==> hs[t] < i
    ensures NextFrom(Inserted(hs, k, h), q, i) == r
  {
    var hs' := Inserted(hs, k, h);
    forall t | q <= t < r ensures hs'[t] < i {
      assert hs'[t] == if t < k then hs[t] else if t == k then h else hs[t - 1];
    }
    NextFromUnique(hs', q, i, r);
  }

  lemma TargetOfInserted(hs: seq<nat>, k: nat, h: nat, i: nat)
    requires k <= |hs|
    ensures TargetIndex(Inserted(hs, k, h), k, i) == if i <= h then NextFrom(hs, k, i) + 1 else |hs| + 1
  {
    if i <= h {
      NextFromUnique(Inserted(hs, k, h), k + 1, i, NextFrom(hs, k, i) + 1);
    }
  }

  /** If `q` is the last index below `k` that reaches level `i`, its successor is the
      first one from `k` on. */
  lemma NextSkipsGap(hs: seq<nat>, q: nat, k: nat, i: nat)
    requires q < k <= |hs| && NextFrom(hs, q + 1, i) >= k
    ensures NextFrom(hs, q + 1, i) == NextFrom(hs, k, i)
  {
    NextFromUnique(hs, k, i, NextFrom(hs, q + 1, i));
  }

  /** The positions met when following level-`i` pointers from position `q`. */
  ghost function LevelChain(hs: seq<nat>, q: nat, i: nat): seq<nat>
    requires q < |hs|
    decreases |hs| - q
  {
    var r := NextFrom(hs, q + 1, i);
    if r == |hs| then [] else [r] + LevelChain(hs, r, i)
  }

  /** Level `i` visits, in key order, exactly the nodes that reach height `i`; hence each
      level is a sublist of the level below it. */
  lemma {:induction false} LevelIsFilter(hs: seq<nat>, q: nat, i: nat)
    requires q < |hs|
    ensures forall x, y :: 0 <= x < y < |LevelChain(hs, q, i)| ==> LevelChain(hs, q, i)[x] < LevelChain(hs, q, i)[y]
    ensures forall r :: r in LevelChain(hs, q, i) <==> q < r < |hs| && hs[r] >= i
    decreases |hs| - q
  {
    var r := NextFrom(hs, q + 1, i);
    if r < |hs| {
      LevelIsFilter(hs, r, i);
      var rest := LevelChain(hs, r, i);
      assert forall x :: 0 <= x < |rest| ==> rest[x] in rest;
      assert forall x :: x in [r] + rest <==> x == r || x in rest;
    }
  }

  lemma LevelsAreNested(hs: seq<nat>, i: nat, r: nat)
    requires |hs| > 0 && r in LevelChain(hs, 0, i + 1)
    ensures r in LevelChain(hs, 0, i)
  {
    LevelIsFilter(hs, 0, i);
    LevelIsFilter(hs, 0, i + 1);
  }

  class SkipNode<V> {
    var key: Key
    var value: V
    var forward: seq<SkipNode?<V>>

    constructor (key: Key, value: V)
      ensures this.key == key && this.value == value
      ensures |forward| == MAX_LEVEL && forall i :: 0 <= i < MAX_LEVEL ==> forward[i] == null
    {
      this.key, this.value := key, value;
      forward := seq(MAX_LEVEL, (_: nat) => null);
    }
  }

  ghost function At<V>(nodes: seq<SkipNode<V>>, q: nat): SkipNode?<V> {
    if q < |nodes| then nodes[q] else null
  }

  /** Each forward pointer holds the next node linked at its level, so every level is a
      sublist of the one below. */
  ghost predicate Linked<V>(nodes: seq<SkipNode<V>>, hs: seq<nat>, links: seq<seq<SkipNode?<V>>>)
    ensures Linked(nodes, hs, links) ==> |nodes| == |hs| == |links| && forall q :: 0 <= q < |links| ==> |links[q]| == MAX_LEVEL
  {
    && |nodes| == |hs| == |links|
    && (forall q :: 0 <= q < |links| ==> |links[q]| == MAX_LEVEL)
    && (forall q, i :: 0 <= q < |nodes| && 0 <= i < MAX_LEVEL ==> links[q][i] == At(nodes, TargetIndex(hs, q, i)))
  }

  /** `q` is the last position at level `i` up to `p`. */
  ghost predicate Precedes(hs: seq<nat>, q: nat, i: nat, p: nat) {
    q <= p < |hs| && hs[q] >= i && NextFrom(hs, q + 1, i) > p
  }

  ghost predicate AllPrecede(hs: seq<nat>, ps: seq<nat>, h: nat, p: nat)
    ensures AllPrecede(hs, ps, h, p) ==> |ps| == h + 1 && p < |hs| && forall i :: 0 <= i <= h ==> ps[i] < |hs|
  {
    assert |ps| == h + 1 && Precedes(hs, ps[0], 0, p) ==> p < |hs|;
    |ps| == h + 1 && forall i :: 0 <= i <= h ==> Precedes(hs, ps[i], i, p)
  }

  /** `links'` redirects the predecessors of position `k` to `node`. */
  ghost predicate Spliced<V>(links: seq<seq<SkipNode?<V>>>, links': seq<seq<SkipNode?<V>>>, ps: seq<nat>, h: nat, node: SkipNode?<V>)
  {
    && |links'| == |links|
    && (forall q :: 0 <= q < |links| ==> |links[q]| == |links'[q]| == MAX_LEVEL)
    && |ps| == h + 1
    && forall q, j {:trigger links'[q][j]} :: 0 <= q < |links| && 0 <= j < MAX_LEVEL ==>
      links'[q][j] == if j <= h && q == ps[j] then node else links[q][j]
  }

  lemma SplicedAt<V>(links: seq<seq<SkipNode?<V>>>, links': seq<seq<SkipNode?<V>>>, ps: seq<nat>, h: nat, node: SkipNode?<V>, q: nat, j: nat)
    requires Spliced(links, links', ps, h, node) && q < |links| && j < MAX_LEVEL
    ensures links'[q][j] == if j <= h && q == ps[j] then node else links[q][j]
  {
  }

  lemma PredecessorIsTarget(hs: seq<nat>, q: nat, i: nat, p: nat, pred: nat)
    requires Precedes(hs, pred, i, p) && q < |hs|
    ensures q == pred <==> i <= hs[q] && q <= p < TargetIndex(hs, q, i)
  {
    hide NextFrom;
  }

  lemma SplicedNewTarget(hs: seq<nat>, h: nat, p: nat, ps: seq<nat>, i: nat)
    requires p < |hs| && i <= h && AllPrecede(hs, ps, h, p)
    ensures ps[i] < |hs| && TargetIndex(Inserted(hs, p + 1, h), p + 1, i) == Shift(p + 1, TargetIndex(hs, ps[i], i))
  {
    assert Precedes(hs, ps[i], i, p);
    TargetOfInserted(hs, p + 1, h, i);
    NextSkipsGap(hs, ps[i], p + 1, i);
  }

  lemma SplicedOldTarget(hs: seq<nat>, h: nat, p: nat, ps: seq<nat>, q: nat, i: nat)
    requires p < |hs| && q < |hs| && AllPrecede(hs, ps, h, p)
    ensures TargetIndex(Inserted(hs, p + 1, h), Shift(p + 1, q), i) ==
      if i <= h && q == ps[i] then p + 1 else Shift(p + 1, TargetIndex(hs, q, i))
  {
    TargetsAfterInsert(hs, p + 1, h, q, i);
    if i <= h {
      assert Precedes(hs, ps[i], i, p);
      PredecessorIsTarget(hs, q, i, p, ps[i]);
    }
  }

  lemma AtInserted<V>(nodes: seq<SkipNode<V>>, k: nat, node: SkipNode<V>, x: nat)
    requires k <= |nodes|
    ensures At(Inserted(nodes, k, node), Shift(k, x)) == At(nodes, x)
  {
  }

  /** Splicing a node of height `h` in after `p` links every level correctly. */
  lemma SpliceLinks<V>(nodes: seq<SkipNode<V>>, hs: seq<nat>, links: seq<seq<SkipNode?<V>>>, links': seq<seq<SkipNode?<V>>>,
      node: SkipNode<V>, own: seq<SkipNode?<V>>, h: nat, p: nat, ps: seq<nat>)
    requires Linked(nodes, hs, links) && h < MAX_LEVEL && p < |hs| && AllPrecede(hs, ps, h, p)
    requires Spliced(links, links', ps, h, node)
    requires |own| == MAX_LEVEL
    requires forall j :: 0 <= j <= h ==> ps[j] < |links| && own[j] == links[ps[j]][j]
    requires forall j :: h < j < MAX_LEVEL ==> own[j] == null
    ensures Linked(Inserted(nodes, p + 1, node), Inserted(hs, p + 1, h), Inserted(links', p + 1, own))
  {
    hide NextFrom, TargetIndex, Precedes, At, Shift;
    var k := p + 1;
    var ns, ls := Inserted(nodes, k, node), Inserted(links', k, own);
    var hs' := Inserted(hs, k, h);
    assert ns[k] == node && ls[k] == own;
    forall i | 0 <= i < MAX_LEVEL ensures own[i] == At(ns, TargetIndex(hs', k, i)) {
      if i <= h {
        var x := TargetIndex(hs, ps[i], i);
        SplicedNewTarget(hs, h, p, ps, i);
        assert own[i] == links[ps[i]][i] == At(nodes, x);
        AtInserted(nodes, k, node, x);
      } else {
        TargetOfInserted(hs, k, h, i);
        AtInserted(nodes, k, node, |hs|);
        AtEnd(nodes, k, node);
      }
    }
    forall q, i | 0 <= q < |nodes| && 0 <= i < MAX_LEVEL ensures links'[q][i] == At(ns, TargetIndex(hs', Shift(k, q), i)) {
      SplicedOldTarget(hs, h, p, ps, q, i);
      var x := TargetIndex(hs, q, i);
      AtInserted(nodes, k, node, x);
      AtEnd(nodes, k, node);
      assert links[q][i] == At(nodes, x) == At(ns, Shift(k, x));
      SplicedAt(links, links', ps, h, node, q, i);
    }
    forall x, i | 0 <= x < |ns| && 0 <= i < MAX_LEVEL ensures ls[x][i] == At(ns, TargetIndex(hs', x, i)) {
      if x != k {
        var q := if x < k then x else x - 1;
        assert ls[x] == links'[q] && x == Shift(k, q) by { ShiftBack(k, x); }
      }
    }
  }

  lemma ShiftBack(k: nat, x: nat)
    requires x != k
    ensures x == Shift(k, if x < k then x else x - 1)
  {
  }

  lemma AtEnd<V>(nodes: seq<SkipNode<V>>, k: nat, node: SkipNode<V>)
    requires k <= |nodes|
    ensures At(Inserted(nodes, k, node), |nodes| + 1) == null
    ensures At(Inserted(nodes, k, node), k) == node
  {
  }

  /** `top` is the greatest height of a node after the head (0 when there is none). */
  ghost predicate LevelIsTop(hs: seq<nat>, top: nat) {
    && (forall q :: 0 < q < |hs| ==> hs[q] <= top)
    && (top == 0 || exists q :: 0 < q < |hs| && hs[q] == top)
  }

  ghost predicate Below(hs: seq<nat>, top: nat) {
    forall q :: 0 < q < |hs| ==> hs[q] <= top
  }

  /** The head's pointer at the top level is null exactly when no node reaches it. */
  lemma TopReached(hs: seq<nat>, top: nat)
    requires |hs| > 0 && hs[0] >= top && Below(hs, top)
    ensures TargetIndex(hs, 0, top) < |hs| ==> LevelIsTop(hs, top)
    ensures TargetIndex(hs, 0, top) == |hs| && top > 0 ==> Below(hs, top - 1)
  {
    var r := TargetIndex(hs, 0, top);
    if r < |hs| { assert hs[r] == top; }
  }

  lemma TopAfterInsert(hs: seq<nat>, top: nat, k: nat, h: nat)
    requires LevelIsTop(hs, top) && 0 < k <= |hs|
    ensures LevelIsTop(Inserted(hs, k, h), if h > top then h else top)
  {
    var hs' := Inserted(hs, k, h);
    assert hs'[k] == h;
    if top != 0 {
      var q :| 0 < q < |hs| && hs[q] == top;
      assert hs'[Shift(k, q)] == top;
    }
  }

  ghost predicate Distinct<V>(nodes: seq<SkipNode<V>>) {
    forall p, q :: 0 <= p < q < |nodes| ==> nodes[p] != nodes[q]
  }

  ghost predicate AllIn<V>(nodes: seq<SkipNode<V>>, repr: set<SkipNode<V>>) {
    forall q :: 0 <= q < |nodes| ==> nodes[q] in repr
  }

  /** The nodes after the head hold the entries. */
  ghost predicate Holds<V>(nodes: seq<SkipNode<V>>, contents: seq<Entry<V>>)
    reads nodes`key, nodes`value
  {
    && |nodes| == |contents| + 1
    && forall q :: 0 < q < |nodes| ==> contents[q - 1] == Entry(nodes[q].key, nodes[q].value)
  }

  ghost predicate Mirrors<V>(nodes: seq<SkipNode<V>>, links: seq<seq<SkipNode?<V>>>)
    reads nodes`forward
  {
    && |nodes| == |links|
    && forall q :: 0 <= q < |nodes| ==> nodes[q].forward == links[q]
  }

  lemma InsertNode<V>(nodes: seq<SkipNode<V>>, contents: seq<Entry<V>>, links: seq<seq<SkipNode?<V>>>, node: SkipNode<V>, p: nat, repr: set<SkipNode<V>>)
    requires p < |nodes| && Distinct(nodes) && AllIn(nodes, repr) && node !in repr && Holds(nodes, contents) && Mirrors(nodes, links)
    ensures var nodes' := Inserted(nodes, p + 1, node);
      && Distinct(nodes')
      && Holds(nodes', Inserted(contents, p, Entry(node.key, node.value)))
      && Mirrors(nodes', Inserted(links, p + 1, node.forward))
      && AllIn(nodes', repr + {node})
  {
    hide Inserted;
  }

  lemma UpsertNew<V>(s: seq<Entry<V>>, k: Key, v: V)
    requires var p := LowerBound(s, k); p < |s| ==> s[p].key != k
    ensures var p := LowerBound(s, k); Upsert(s, k, v) == Inserted(s, p, Entry(k, v))
  {
  }

  /** Predecessors up to level `h`: the recorded ones, the head above them. */
  ghost function Padded(ps: seq<nat>, h: nat): seq<nat> {
    seq(h + 1, i => if 0 <= i < |ps| then ps[i] else 0)
  }

  lemma PaddedPrecede(hs: seq<nat>, top: nat, ps: seq<nat>, h: nat, p: nat)
    requires AllPrecede(hs, ps, top, p) && LevelIsTop(hs, top) && hs[0] >= h
    ensures AllPrecede(hs, Padded(ps, h), h, p)
  {
    var qs := Padded(ps, h);
    forall i | 0 <= i <= h ensures Precedes(hs, qs[i], i, p) {
      if i <= top {
        assert Precedes(hs, ps[i], i, p);
      } else {
        assert forall q :: 0 < q < |hs| ==> hs[q] < i;
      }
    }
  }

  ghost function Removed<T>(s: seq<T>, k: nat): (r: seq<T>)
    requires k < |s|
    ensures |r| == |s| - 1 && (k > 0 ==> r[0] == s[0])
    ensures forall q {:trigger r[q]} :: 0 <= q < |r| ==> r[q] == s[Shift(k, q)]
  {
    s[..k] + s[k + 1..]
  }

  lemma RemovedInverse<T>(s: seq<T>, k: nat)
    requires k < |s|
    ensures s == Inserted(Removed(s, k), k, s[k])
  {
  }

  /** `links'` hands the pointers that led to node `k` the successors of node `k`. */
  ghost predicate Unspliced<V>(links: seq<seq<SkipNode?<V>>>, links': seq<seq<SkipNode?<V>>>, ps: seq<nat>, h: nat, k: nat)
    requires k < |links| && |links[k]| == MAX_LEVEL
  {
    && |links'| == |links|
    && (forall q :: 0 <= q < |links| ==> |links[q]| == |links'[q]| == MAX_LEVEL)
    && h < |ps|
    && forall q, j {:trigger links'[q][j]} :: 0 <= q < |links| && 0 <= j < MAX_LEVEL ==>
      links'[q][j] == if j <= h && q == ps[j] then links[k][j] else links[q][j]
  }

  /** A pointer at a recorded predecessor leads to position `p + 1` exactly when that
      node reaches the level. */
  lemma LeadsToNext(hs: seq<nat>, q: nat, i: nat, p: nat)
    requires Precedes(hs, q, i, p) && p + 1 < |hs|
    ensures TargetIndex(hs, q, i) == p + 1 <==> i <= hs[p + 1]
  {
  }

  lemma UnsplicedTarget(hs: seq<nat>, ps: seq<nat>, top: nat, p: nat, q: nat, i: nat)
    requires AllPrecede(hs, ps, top, p) && p + 1 < |hs| && hs[p + 1] <= top && q < |hs| - 1
    ensures var k, hs' := p + 1, Removed(hs, p + 1);
      var t, t' := TargetIndex(hs, Shift(k, q), i), TargetIndex(hs', q, i);
      if i <= hs[k] && Shift(k, q) == ps[i] then t == k && TargetIndex(hs, k, i) == Shift(k, t')
      else t == Shift(k, t')
  {
    hide NextFrom;
    var k, hs' := p + 1, Removed(hs, p + 1);
    var h := hs[k];
    var t' := TargetIndex(hs', q, i);
    RemovedInverse(hs, k);
    TargetsAfterInsert(hs', k, h, q, i);
    if i <= h {
      assert Precedes(hs, ps[i], i, p);
      PredecessorIsTarget(hs, Shift(k, q), i, p, ps[i]);
      if Shift(k, q) == ps[i] {
        TargetOfInserted(hs', k, h, i);
        NextSkipsGap(hs', q, k, i);
      }
    }
  }

  lemma UnspliceLinks<V>(nodes: seq<SkipNode<V>>, hs: seq<nat>, links: seq<seq<SkipNode?<V>>>, links': seq<seq<SkipNode?<V>>>,
      p: nat, ps: seq<nat>, top: nat)
    requires Linked(nodes, hs, links) && AllPrecede(hs, ps, top, p) && p + 1 < |hs| && hs[p + 1] <= top
    requires Unspliced(links, links', ps, hs[p + 1], p + 1)
    ensures Linked(Removed(nodes, p + 1), Removed(hs, p + 1), Removed(links', p + 1))
  {
    hide NextFrom, TargetIndex, Precedes, At, Shift;
    var k := p + 1;
    var ns, hs', ls := Removed(nodes, k), Removed(hs, k), Removed(links', k);
    forall q, i | 0 <= q < |ns| && 0 <= i < MAX_LEVEL ensures ls[q][i] == At(ns, TargetIndex(hs', q, i)) {
      var t' := TargetIndex(hs', q, i);
      UnsplicedTarget(hs, ps, top, p, q, i);
      RemovedInverse(nodes, k);
      AtInserted(ns, k, nodes[k], t');
      assert ls[q] == links'[Shift(k, q)];
      assert links[k][i] == At(nodes, TargetIndex(hs, k, i));
      assert links[Shift(k, q)][i] == At(nodes, TargetIndex(hs, Shift(k, q), i));
    }
  }

  lemma RemoveNode<V>(nodes: seq<SkipNode<V>>, contents: seq<Entry<V>>, links: seq<seq<SkipNode?<V>>>, p: nat, repr: set<SkipNode<V>>)
    requires p + 1 < |nodes| && Distinct(nodes) && AllIn(nodes, repr) && Holds(nodes, contents) && Mirrors(nodes, links)
    ensures var nodes' := Removed(nodes, p + 1);
      && Distinct(nodes')
      && Holds(nodes', Removed(contents, p))
      && Mirrors(nodes', Removed(links, p + 1))
      && AllIn(nodes', repr)
      && nodes[p + 1] !in nodes'
  {
    hide Removed;
  }

  lemma RemoveFound<V>(s: seq<Entry<V>>, k: Key)
    requires var p := LowerBound(s, k); p < |s| && s[p].key == k
    ensures var p := LowerBound(s, k); Remove(s, k) == Removed(s, p)
  {
  }

  class SkipList<V(0)> {
    var head: SkipNode<V>
    var level: nat
    var size: nat
    var prev: array<SkipNode?<V>>  // reusable predecessor buffer

    ghost var repr: set<SkipNode<V>>
    ghost var nodes: seq<SkipNode<V>>  // the bottom chain, head first
    ghost var heights: seq<nat>        // the level each node is linked up to
    ghost var links: seq<seq<SkipNode?<V>>>  // the nodes' forward pointers
    ghost var contents: seq<Entry<V>>  // the entries after the head

    ghost predicate Valid()
      reads this, repr
      ensures Valid() ==>
        && level < MAX_LEVEL == prev.Length
        && AllIn(nodes, repr)
        && |heights| == |nodes| == |links| == |contents| + 1
        && nodes[0] == head && heights[0] == MAX_LEVEL - 1
    {
      && prev.Length == MAX_LEVEL
      && level < MAX_LEVEL
      && |nodes| == |contents| + 1
      && size == |contents|
      && nodes[0] == head
      && AllIn(nodes, repr)
      && Distinct(nodes)
      && Linked(nodes, heights, links)
      && heights[0] == MAX_LEVEL - 1
      && LevelIsTop(heights, level)
      && Sorted(contents)
      && Holds(nodes, contents)
      && Mirrors(nodes, links)
    }

    constructor ()
      ensures Valid() && fresh(prev) && fresh(repr)
      ensures contents == []
    {
      var v: V := *;
      var h := new SkipNode([], v);
      var b := new SkipNode?<V>[MAX_LEVEL](_ => null);
      head, level, size, prev := h, 0, 0, b;
      repr, nodes, heights, contents := {h}, [h], [MAX_LEVEL - 1], [];
      links := [seq(MAX_LEVEL, _ => null)];
    }

    ghost predicate StandsAt(x: SkipNode<V>, p: nat, i: int, key: Key)
      requires |nodes| == |heights| && AllIn(nodes, repr)
      reads this, repr
    {
      p < |nodes| && x == nodes[p] && heights[p] >= i && (p > 0 ==> Less(nodes[p].key, key))
    }

    /** Moves forward on level `i` to the last node below `key`. */
    method AdvanceOn(i: nat, key: Key, from: SkipNode<V>, ghost q: nat) returns (x: SkipNode<V>, ghost p: nat)
      requires Valid() && i <= level && StandsAt(from, q, i, key)
      ensures q <= p && StandsAt(x, p, i, key) && EndsAt(p, i, key)
    {
      hide Less;
      x, p := from, q;
      while x.forward[i] != null && Less(x.forward[i].key, key)
        invariant q <= p && StandsAt(x, p, i, key)
        decreases |nodes| - p
      {
        assert x.forward[i] == At(nodes, TargetIndex(heights, p, i));
        p := NextFrom(heights, p + 1, i);
        x := x.forward[i];
      }
      assert x.forward[i] == At(nodes, TargetIndex(heights, p, i));
    }

    /** Descends from the top level to the last node below `key`, which stands just
        before the key's lower bound; records the last node below `key` per level. */
    method FindLess(key: Key, buffer: array?<SkipNode?<V>>) returns (x: SkipNode<V>, ghost p: nat, ghost ps: seq<nat>)
      requires Valid()
      requires buffer != null ==> buffer.Length == MAX_LEVEL
      modifies if buffer == null then {} else {buffer}
      ensures Valid()
      ensures p == LowerBound(contents, key) && x == nodes[p]
      ensures AllPrecede(heights, ps, level, p)
      ensures buffer != null ==> forall i :: 0 <= i <= level ==> ps[i] < |nodes| && buffer[i] == nodes[ps[i]]
      ensures buffer != null ==> forall i :: level < i < MAX_LEVEL ==> buffer[i] == old(buffer[i])
    {
      hide Less, LowerBound, Valid, EndsAt;
      x, p := head, 0;
      ps := seq(level + 1, _ => 0);
      var i: int := level;
      while i >= 0
        invariant -1 <= i <= level
        invariant StandsAt(x, p, i, key)
        invariant |ps| == level + 1
        invariant forall j :: i < j <= level ==> ps[j] <= p && heights[ps[j]] >= j
        invariant forall j :: i < j <= level ==> EndsAt(ps[j], j, key)
        invariant i == -1 ==> ps[0] == p
        invariant buffer != null ==> forall j :: i < j <= level ==> buffer[j] == nodes[ps[j]]
        invariant buffer != null ==> forall j :: level < j < MAX_LEVEL ==> buffer[j] == old(buffer[j])
      {
        x, p := AdvanceOn(i, key, x, p);
        if buffer != null {
          buffer[i] := x;
        }
        ps := ps[i := p];
        i := i - 1;
      }
      forall j | 0 <= j <= level ensures Precedes(heights, ps[j], j, p) { EndIsAfter(ps[j], j, key, p); }
      IsLowerBound(key, p);
    }

    /** No node after `q` at level `j` is below `key`. */
    ghost predicate EndsAt(q: nat, j: nat, key: Key)
      requires Valid()
      reads this, repr
    {
      q < |nodes| && (var r := NextFrom(heights, q + 1, j); r < |nodes| ==> !Less(nodes[r].key, key))
    }

    lemma EndIsAfter(q: nat, j: nat, key: Key, p: nat)
      requires Valid() && EndsAt(q, j, key)
      requires q <= p < |nodes| && (p > 0 ==> Less(nodes[p].key, key))
      ensures NextFrom(heights, q + 1, j) > p
    {
      hide Less;
      var r := NextFrom(heights, q + 1, j);
      if r < p {
        assert Less(contents[r - 1].key, contents[p - 1].key);
        LessTransitive(nodes[r].key, nodes[p].key, key);
      }
    }

    lemma IsLowerBound(key: Key, p: nat)
      requires Valid() && p < |nodes| && (p > 0 ==> Less(nodes[p].key, key)) && EndsAt(p, 0, key)
      ensures p == LowerBound(contents, key)
    {
      hide Less;
      forall i | 0 <= i < p ensures Less(contents[i].key, key) {
        assert contents[p - 1].key == nodes[p].key;
        if i < p - 1 {
          assert Less(contents[i].key, contents[p - 1].key);
          LessTransitive(contents[i].key, nodes[p].key, key);
        }
      }
      if p < |contents| {
        assert NextFrom(heights, p + 1, 0) == p + 1;
        assert contents[p].key == nodes[p + 1].key;
      }
      LowerBoundUnique(contents, key, p);
    }

    /** Redirects the recorded predecessors to `node` and hands it their successors. */
    method Splice(node: SkipNode<V>, h: nat, ghost ps: seq<nat>)
      requires h < MAX_LEVEL == prev.Length && AllIn(nodes, repr) && node !in repr
      requires Distinct(nodes) && Mirrors(nodes, links)
      requires forall q :: 0 <= q < |links| ==> |links[q]| == MAX_LEVEL
      requires |node.forward| == MAX_LEVEL && forall i :: 0 <= i < MAX_LEVEL ==> node.forward[i] == null
      requires |ps| == h + 1 && forall i :: 0 <= i <= h ==> ps[i] < |nodes| && prev[i] == nodes[ps[i]]
      modifies repr`forward, node`forward, this`links
      ensures |node.forward| == MAX_LEVEL
      ensures forall j :: 0 <= j <= h ==> node.forward[j] == old(links)[ps[j]][j]
      ensures forall j :: h < j < MAX_LEVEL ==> node.forward[j] == null
      ensures Spliced(old(links), links, ps, h, node)
      ensures Mirrors(nodes, links)
    {
      var i := 0;
      while i <= h
        invariant i <= h + 1
        invariant |node.forward| == MAX_LEVEL
        invariant forall j :: 0 <= j < i ==> node.forward[j] == old(links)[ps[j]][j]
        invariant forall j :: i <= j < MAX_LEVEL ==> node.forward[j] == null
        invariant |links| == |nodes|
        invariant forall q :: 0 <= q < |nodes| ==> nodes[q].forward == links[q] && |links[q]| == MAX_LEVEL
        invariant forall q, j :: 0 <= q < |nodes| && 0 <= j < MAX_LEVEL ==>
          links[q][j] == if j < i && q == ps[j] then node else old(links)[q][j]
      {
        node.forward := node.forward[i := prev[i].forward[i]];
        prev[i].forward := prev[i].forward[i := node];
        links := links[ps[i] := links[ps[i]][i := node]];
        i := i + 1;
      }
    }

    /** Inserts a new node of height `h` after position `p`. */
    method Insert(key: Key, value: V, h: nat, ghost p: nat, ghost ps: seq<nat>)
      requires Valid() && h < MAX_LEVEL
      requires p == LowerBound(contents, key) && (p < |contents| ==> contents[p].key != key)
      requires AllPrecede(heights, ps, h, p) && forall i :: 0 <= i <= h ==> prev[i] == nodes[ps[i]]
      modifies this, repr
      ensures Valid() && prev == old(prev)
      ensures contents == Upsert(old(contents), key, value)
      ensures fresh(repr - old(repr))
    {
      hide Less, LowerBound, NextFrom, TargetIndex, Linked, Upsert, Spliced, Inserted, LevelIsTop, Sorted, Distinct, Holds, Mirrors, AllIn, ToMap, AllPrecede, Precedes;
      UpsertPosition(contents, key, value);
      UpsertNew(contents, key, value);
      TopAfterInsert(heights, level, p + 1, h);
      if h > level {
        level := h;
      }
      var node := new SkipNode(key, value);
      Splice(node, h, ps);
      SpliceLinks(nodes, heights, old(links), links, node, node.forward, h, p, ps);
      InsertNode(nodes, contents, links, node, p, repr);
      size := size + 1;
      Adopt(Inserted(nodes, p + 1, node), Inserted(heights, p + 1, h), Inserted(links, p + 1, node.forward),
        Inserted(contents, p, Entry(key, value)), repr + {node});
    }

    /** Inserts or overwrites; `rnd` is the random level drawn for a new node. */
    method Put(key: Key, value: V, rnd: nat) returns (was: Option<V>)
      requires Valid() && rnd < MAX_LEVEL
      modifies this, repr, prev
      ensures Valid() && prev == old(prev) && fresh(repr - old(repr))
      ensures contents == Upsert(old(contents), key, value)
      ensures was == Lookup(old(contents), key)
    {
      hide Less, LowerBound, NextFrom, Linked, LevelIsTop, Sorted, Distinct, Precedes;
      for i := 0 to MAX_LEVEL
        invariant unchanged(this) && unchanged(repr)
      {
        prev[i] := null;
      }
      var x, p, ps := FindLess(key, prev);
      NextLink(p);
      if x.forward[0] != null && x.forward[0].key == key {
        was := Some(x.forward[0].value);
        Overwrite(x.forward[0], value, p);
        return;
      }
      was := None;
      var i := level + 1;
      while i <= rnd
        invariant level < i
        invariant unchanged(this) && unchanged(repr)
        invariant forall j :: 0 <= j <= level ==> prev[j] == nodes[ps[j]]
        invariant forall j :: level < j < i && j < MAX_LEVEL ==> prev[j] == head
      {
        prev[i] := head;
        i := i + 1;
      }
      ghost var qs := Padded(ps, rnd);
      PaddedPrecede(heights, level, ps, rnd, p);
      Insert(key, value, rnd, p, qs);
    }

    lemma NextLink(p: nat)
      requires Valid() && p < |nodes|
      ensures |nodes[p].forward| == MAX_LEVEL
      ensures nodes[p].forward[0] == At(nodes, p + 1)
      ensures p + 1 < |nodes| ==> contents[p] == Entry(nodes[p + 1].key, nodes[p + 1].value)
    {
      hide Less, Distinct, Sorted, LevelIsTop;
    }

    method Overwrite(node: SkipNode<V>, value: V, ghost p: nat)
      requires Valid() && p < |contents| && node == nodes[p + 1]
      modifies node`value, this`contents
      ensures Valid() && contents == old(contents)[p := Entry(node.key, value)]
    {
      hide Less, LevelIsTop, Linked;
      node.value := value;
      contents := contents[p := Entry(node.key, value)];
    }

    /** Takes node `p + 1` off every level it is linked at. */
    method Unsplice(node: SkipNode<V>, ghost p: nat, ghost ps: seq<nat>)
      requires |nodes| == |heights| && level < MAX_LEVEL == prev.Length && AllIn(nodes, repr)
      requires Distinct(nodes) && Mirrors(nodes, links) && Linked(nodes, heights, links)
      requires p + 1 < |nodes| && node == nodes[p + 1] && heights[p + 1] <= level
      requires AllPrecede(heights, ps, level, p) && forall i :: 0 <= i <= level ==> prev[i] == nodes[ps[i]]
      modifies repr`forward, this`links
      ensures |links| == |nodes| && Unspliced(old(links), links, ps, heights[p + 1], p + 1)
      ensures Mirrors(nodes, links)
    {
      hide NextFrom, TargetIndex;
      var i := 0;
      ghost var h := heights[p + 1];
      while i <= level
        invariant i <= level + 1 && i <= h + 1
        invariant |links| == |nodes|
        invariant forall q :: 0 <= q < |nodes| ==> nodes[q].forward == links[q] && |links[q]| == MAX_LEVEL
        invariant forall q, j {:trigger links[q][j]} :: 0 <= q < |nodes| && 0 <= j < MAX_LEVEL ==>
          links[q][j] == if j < i && q == ps[j] then old(links)[p + 1][j] else old(links)[q][j]
      {
        assert Precedes(heights, ps[i], i, p);
        LeadsToNext(heights, ps[i], i, p);
        assert old(links)[ps[i]][i] == At(nodes, TargetIndex(heights, ps[i], i));
        if prev[i].forward[i] != node {
          break;
        }
        prev[i].forward := prev[i].forward[i := node.forward[i]];
        links := links[ps[i] := links[ps[i]][i := old(links)[p + 1][i]]];
        i := i + 1;
      }
      assert i == h + 1;
    }

    method Delete(key: Key) returns (was: Option<V>)
      requires Valid()
      modifies this, repr, prev
      ensures Valid() && prev == old(prev) && repr == old(repr)
      ensures contents == Remove(old(contents), key)
      ensures was == Lookup(old(contents), key)
    {
      hide Less, LowerBound, NextFrom, Linked, Sorted, Distinct, Precedes, TargetIndex;
      for i := 0 to MAX_LEVEL
        invariant unchanged(this) && unchanged(repr)
      {
        prev[i] := null;
      }
      var x, p, ps := FindLess(key, prev);
      NextLink(p);
      if x.forward[0] == null || x.forward[0].key != key {
        was := None;
        return;
      }
      was := Some(x.forward[0].value);
      Unlink(x.forward[0], key, p, ps);
    }

    method Unlink(node: SkipNode<V>, key: Key, ghost p: nat, ghost ps: seq<nat>)
      requires Valid()
      requires p == LowerBound(contents, key) && p < |contents| && contents[p].key == key && node == nodes[p + 1] && node in repr
      requires AllPrecede(heights, ps, level, p) && forall i :: 0 <= i <= level ==> prev[i] == nodes[ps[i]]
      modifies this, repr
      ensures Valid() && prev == old(prev) && repr == old(repr)
      ensures contents == Remove(old(contents), key)
    {
      hide Less, LowerBound, NextFrom, Linked, Sorted, Distinct, Precedes, TargetIndex, AllPrecede, Holds, Mirrors, AllIn, ToMap,
        Unspliced, Removed, Remove;
      RemoveSorted(contents, key);
      RemoveFound(contents, key);
      Unsplice(node, p, ps);
      UnspliceLinks(nodes, heights, old(links), links, p, ps, level);
      RemoveNode(nodes, contents, links, p, repr);
      ghost var ns, hs, ls := Removed(nodes, p + 1), Removed(heights, p + 1), Removed(links, p + 1);
      LowerLevel(ns, hs, ls);
      size := size - 1;
      node.forward := seq(MAX_LEVEL, _ => null);
      Adopt(ns, hs, ls, Removed(contents, p), repr);
    }

    /** Lowers the level to the highest one still in use. */
    method LowerLevel(ghost ns: seq<SkipNode<V>>, ghost hs: seq<nat>, ghost ls: seq<seq<SkipNode?<V>>>)
      requires level < MAX_LEVEL && ns != [] && ns[0] == head && Mirrors(ns, ls) && Linked(ns, hs, ls)
      requires hs[0] == MAX_LEVEL - 1 && Below(hs, level)
      modifies this`level
      ensures level <= old(level) && LevelIsTop(hs, level)
    {
      hide NextFrom;
      while level > 0 && head.forward[level] == null
        invariant level <= old(level) && Below(hs, level)
      {
        assert ls[0][level] == At(ns, TargetIndex(hs, 0, level));
        TopReached(hs, level);
        level := level - 1;
      }
      assert ls[0][level] == At(ns, TargetIndex(hs, 0, level));
      TopReached(hs, level);
    }

    method Get(key: Key) returns (found: Option<V>)
      requires Valid()
      ensures found == Lookup(contents, key)
    {
      hide Less, LowerBound;
      var x, p, ps := FindLess(key, null);
      NextLink(p);
      if x.forward[0] != null && x.forward[0].key == key {
        return Some(x.forward[0].value);
      }
      return None;
    }

    /** The entries with `start <= key <= end`, in key order. */
    method ScanRange(start: Key, end: Key) returns (result: seq<Entry<V>>)
      requires Valid()
      ensures result == Slice(contents, start, end)
    {
      hide Less, LowerBound, Slice, NextFrom, TargetIndex, Linked, Distinct, Sorted, LevelIsTop;
      result := [];
      var x0, p, ps := FindLess(start, null);
      NextLink(p);
      if x0.forward[0] == null || Less(x0.forward[0].key, start) {
        assert p == |contents|;
        SliceIsWindow(contents, start, end, p, p);
        return;
      }
      var x: SkipNode?<V> := x0.forward[0];
      ghost var q := p;
      while x != null && AtMost(x.key, end)
        invariant p <= q <= |contents| && x == At(nodes, q + 1)
        invariant result == contents[p..q]
        invariant forall i :: p <= i < q ==> AtMost(contents[i].key, end)
        decreases |contents| - q
      {
        NextLink(q + 1);
        assert contents[q] == Entry(x.key, x.value);
        result := result + [Entry(x.key, x.value)];
        x, q := x.forward[0], q + 1;
      }
      if q < |contents| { NextLink(q); }
      SliceIsWindow(contents, start, end, p, q);
    }

    /** Every entry, in key order. */
    method All() returns (result: seq<Entry<V>>)
      requires Valid()
      ensures result == contents
    {
      result := [];
      NextLink(0);
      var x := head.forward[0];
      ghost var q := 0;
      while x != null
        invariant q <= |contents| && x == At(nodes, q + 1) && result == contents[..q]
        decreases |contents| - q
      {
        NextLink(q + 1);
        assert contents[q] == Entry(x.key, x.value);
        result := result + [Entry(x.key, x.value)];
        x, q := x.forward[0], q + 1;
      }
    }

    /** Records a new chain. */
    ghost method Adopt(ns: seq<SkipNode<V>>, hs: seq<nat>, ls: seq<seq<SkipNode?<V>>>, cs: seq<Entry<V>>, r: set<SkipNode<V>>)
      requires prev.Length == MAX_LEVEL && level < MAX_LEVEL
      requires |ns| == |cs| + 1 && size == |cs|
      requires ns[0] == head && AllIn(ns, r) && Distinct(ns) && Holds(ns, cs) && Mirrors(ns, ls)
      requires Linked(ns, hs, ls) && hs[0] == MAX_LEVEL - 1 && LevelIsTop(hs, level) && Sorted(cs)
      modifies this`nodes, this`heights, this`links, this`contents, this`repr
      ensures Valid() && contents == cs && repr == r
    {
      hide Distinct, Holds, Mirrors, Linked, LevelIsTop, Sorted, AllIn;
      nodes, heights, links, contents, repr := ns, hs, ls, cs, r;
    }
  }
}
