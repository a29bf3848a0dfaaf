/** The binary min-heap behind the k-way merges: smallest key first, and for equal keys
    the source with the greatest index (the newest data) first. */
module MergeHeaps {
  import opened Keys

  datatype Node = Node(key: Key, index: nat)

  predicate Before(a: Node, b: Node) {
    if a.key != b.key then Less(a.key, b.key) else a.index > b.index
  }

  /** `a` may stand above `b`. */
  predicate Leq(a: Node, b: Node) {
    !Before(b, a)
  }

  lemma LeqTransitive(a: Node, b: Node, c: Node)
    requires Leq(a, b) && Leq(b, c)
    ensures Leq(a, c)
  {
    hide Less;
    LessTotal(a.key, b.key);
    LessTotal(b.key, c.key);
    LessIrreflexive(a.key);
    if Less(a.key, b.key) && Less(b.key, c.key) { LessTransitive(a.key, b.key, c.key); }
    if Less(a.key, c.key) && Less(c.key, a.key) { LessTransitive(a.key, c.key, a.key); }
  }

  lemma LeqTotal(a: Node, b: Node)
    ensures Leq(a, b) || Leq(b, a)
    ensures Leq(a, b) && Leq(b, a) ==> a == b
  {
    hide Less;
    LessTotal(a.key, b.key);
    LessIrreflexive(a.key);
    if Less(a.key, b.key) && Less(b.key, a.key) { LessTransitive(a.key, b.key, a.key); }
  }

  function Parent(j: nat): nat
    requires j > 0
  {
    (j - 1) / 2
  }

  /** The heap order below every parent from `lo` on, except perhaps below `hole`. */
  ghost predicate Ordered(h: seq<Node>, lo: nat, n: nat, hole: int) {
    n <= |h| && forall j :: 0 < j < n && lo <= Parent(j) && Parent(j) != hole ==> Leq(h[Parent(j)], h[j])
  }

  /** The children of `hole` may stand below its parent. */
  ghost predicate Bridged(h: seq<Node>, lo: nat, n: nat, hole: nat) {
    n <= |h| && (hole > 0 && lo <= Parent(hole) ==>
      forall j :: 0 < j < n && Parent(j) == hole ==> Leq(h[Parent(hole)], h[j]))
  }

  ghost predicate IsHeap(h: seq<Node>) {
    Ordered(h, 0, |h|, -1)
  }

  lemma {:induction false} RootIsLeast(h: seq<Node>, j: nat)
    requires IsHeap(h) && j < |h|
    ensures Leq(h[0], h[j])
  {
    if j == 0 {
      LeqTotal(h[0], h[0]);
    } else {
      RootIsLeast(h, Parent(j));
      LeqTransitive(h[0], h[Parent(j)], h[j]);
    }
  }

  class MergeHeap {
    var h: seq<Node>

    constructor ()
      ensures h == []
    {
      h := [];
    }

    method Swap(i: nat, j: nat)
      requires i < |h| && j < |h|
      modifies this
      ensures h == old(h)[i := old(h)[j]][j := old(h)[i]]
      ensures multiset(h) == old(multiset(h))
    {
      h := h[i := h[j]][j := h[i]];
    }

    /** Lets the element at `i0` sink within the first `n` elements. */
    method Down(i0: nat, n: nat, ghost lo: nat) returns (moved: bool)
      requires i0 < n <= |h| && lo <= i0
      requires Ordered(h, lo, n, i0) && Bridged(h, lo, n, i0)
      modifies this
      ensures Ordered(h, lo, n, -1)
      ensures |h| == old(|h|) && multiset(h) == old(multiset(h)) && h[n..] == old(h)[n..]
    {
      hide Leq, Before, Less, Ordered, Bridged;
      var i := i0;
      while true
        invariant i0 <= i < n <= |h| == old(|h|)
        invariant Ordered(h, lo, n, i) && Bridged(h, lo, n, i)
        invariant multiset(h) == old(multiset(h)) && h[n..] == old(h)[n..]
        decreases n - i
      {
        var j1 := 2 * i + 1;
        if j1 >= n {
          NoChildren(h, lo, n, i);
          break;
        }
        var j := j1;
        var j2 := j1 + 1;
        if j2 < n && Before(h[j2], h[j1]) {
          j := j2;
        }
        LeastChild(h, i, n, j);
        if !Before(h[j], h[i]) {
          ChildrenBelow(h, lo, n, i, j);
          break;
        }
        SinkStep(h, lo, n, i, j);
        Swap(i, j);
        i := j;
      }
      moved := i > i0;
    }

    static lemma LeastChild(h: seq<Node>, i: nat, n: nat, j: nat)
      requires 2 * i + 1 < n <= |h|
      requires j == if 2 * i + 2 < n && Before(h[2 * i + 2], h[2 * i + 1]) then 2 * i + 2 else 2 * i + 1
      ensures forall c :: 0 < c < n && Parent(c) == i ==> Leq(h[j], h[c])
      ensures Parent(j) == i
    {
      hide Before;
      forall c | 0 < c < n && Parent(c) == i ensures Leq(h[j], h[c]) {
        assert c == 2 * i + 1 || c == 2 * i + 2;
        LeqTotal(h[j], h[c]);
      }
    }

    /** At a leaf, or above its least child, the hole is filled. */
    static lemma NoChildren(h: seq<Node>, lo: nat, n: nat, i: nat)
      requires i < n <= 2 * i + 1 && Ordered(h, lo, n, i)
      ensures Ordered(h, lo, n, -1)
    {
      hide Leq;
    }

    static lemma ChildrenBelow(h: seq<Node>, lo: nat, n: nat, i: nat, j: nat)
      requires i < n <= |h| && j < n && !Before(h[j], h[i]) && Ordered(h, lo, n, i)
      requires forall c :: 0 < c < n && Parent(c) == i ==> Leq(h[j], h[c])
      ensures Ordered(h, lo, n, -1)
    {
      hide Before;
      forall c | 0 < c < n && Parent(c) == i ensures Leq(h[i], h[c]) { LeqTransitive(h[i], h[j], h[c]); }
    }

    /** Swapping the hole with its least child moves the hole down. */
    static lemma SinkStep(h: seq<Node>, lo: nat, n: nat, i: nat, j: nat)
      requires lo <= i < n <= |h| && 0 < j < n && Parent(j) == i
      requires Ordered(h, lo, n, i) && Bridged(h, lo, n, i)
      requires Before(h[j], h[i]) && forall c :: 0 < c < n && Parent(c) == i ==> Leq(h[j], h[c])
      ensures Ordered(h[i := h[j]][j := h[i]], lo, n, j) && Bridged(h[i := h[j]][j := h[i]], lo, n, j)
    {
      hide Before;
      var t := h[i := h[j]][j := h[i]];
      LeqTotal(h[j], h[i]);
      forall c | 0 < c < n && lo <= Parent(c) && Parent(c) != j ensures Leq(t[Parent(c)], t[c]) {
        if Parent(c) == i {
          assert t[i] == h[j];
          LeqTotal(h[j], h[j]);
        } else if c == i {
          assert Leq(h[Parent(i)], h[j]);
        } else {
          assert t[c] == h[c] && t[Parent(c)] == h[Parent(c)];
        }
      }
      forall c | 0 < c < n && Parent(c) == j ensures Leq(t[Parent(j)], t[c]) {
        assert t[c] == h[c];
      }
    }

    /** Lets the element at `j0` rise. */
    method Up(j0: nat)
      requires j0 < |h|
      requires forall c :: 0 < c < |h| && c != j0 ==> Leq(h[Parent(c)], h[c])
      requires Bridged(h, 0, |h|, j0)
      modifies this
      ensures IsHeap(h) && |h| == old(|h|) && multiset(h) == old(multiset(h))
    {
      hide Leq, Before, Less;
      var j: nat := j0;
      while true
        invariant j < |h| == old(|h|)
        invariant forall c :: 0 < c < |h| && c != j ==> Leq(h[Parent(c)], h[c])
        invariant Bridged(h, 0, |h|, j)
        invariant multiset(h) == old(multiset(h))
        decreases j
      {
        var i := if j == 0 then 0 else Parent(j);
        if i == j || !Before(h[j], h[i]) {
          NotBefore(h[j], h[i]);
          break;
        }
        RiseStep(h, j);
        Swap(i, j);
        j := i;
      }
    }

    static lemma NotBefore(a: Node, b: Node)
      ensures !Before(a, b) ==> Leq(b, a)
    {
    }

    static lemma RiseStep(h: seq<Node>, j: nat)
      requires 0 < j < |h| && Before(h[j], h[Parent(j)])
      requires forall c :: 0 < c < |h| && c != j ==> Leq(h[Parent(c)], h[c])
      requires Bridged(h, 0, |h|, j)
      ensures var i := Parent(j); var t := h[i := h[j]][j := h[i]];
        && (forall c :: 0 < c < |h| && c != i ==> Leq(t[Parent(c)], t[c]))
        && Bridged(t, 0, |h|, i)
    {
      hide Before;
      var i := Parent(j);
      var t := h[i := h[j]][j := h[i]];
      LeqTotal(h[j], h[i]);
      forall c | 0 < c < |h| && c != i ensures Leq(t[Parent(c)], t[c]) {
        if c == j {
        } else if Parent(c) == i {
          LeqTransitive(h[j], h[i], h[c]);
        } else if Parent(c) == j {
          assert Leq(h[i], h[c]);
        } else {
          assert t[c] == h[c] && t[Parent(c)] == h[Parent(c)];
        }
      }
      if i > 0 {
        forall c | 0 < c < |h| && Parent(c) == i ensures Leq(t[Parent(i)], t[c]) {
          assert t[Parent(i)] == h[Parent(i)] && Leq(h[Parent(i)], h[i]);
          if c != j { LeqTransitive(h[Parent(i)], h[i], h[c]); }
        }
      }
    }

    method Init()
      modifies this
      ensures IsHeap(h) && |h| == old(|h|) && multiset(h) == old(multiset(h))
    {
      hide Leq, Before, Less;
      var n := |h|;
      var i: int := n / 2 - 1;
      assert forall j :: 0 < j < n ==> Parent(j) <= i;
      while i >= 0
        invariant -1 <= i && (i < n || n == 0)
        invariant Ordered(h, i + 1, n, -1)
        invariant |h| == n && multiset(h) == old(multiset(h))
      {
        var moved := Down(i, n, i);
        i := i - 1;
      }
    }

    method Push(x: Node)
      requires IsHeap(h)
      modifies this
      ensures IsHeap(h) && multiset(h) == old(multiset(h)) + multiset{x}
    {
      h := h + [x];
      Up(|h| - 1);
    }

    /** Restores the order after the root was replaced. */
    method FixRoot()
      requires h != [] && Ordered(h, 0, |h|, 0)
      modifies this
      ensures IsHeap(h) && |h| == old(|h|) && multiset(h) == old(multiset(h))
    {
      var moved := Down(0, |h|, 0);
      if !moved {
        Up(0);
      }
    }

    method Pop() returns (x: Node)
      requires h != [] && IsHeap(h)
      modifies this
      ensures IsHeap(h) && x == old(h)[0] && old(multiset(h)) == multiset(h) + multiset{x}
    {
      hide Leq, Before, Less, Ordered, Bridged;
      var n := |h| - 1;
      RootToEnd(h);
      Swap(0, n);
      if n > 0 {
        var moved := Down(0, n, 0);
      }
      x := h[n];
      assert x == old(h)[0] by { assert h[n..] == old(h)[0 := old(h)[n]][n := old(h)[0]][n..]; }
      Truncate(h, n);
      h := h[..n];
    }

    static lemma RootToEnd(h: seq<Node>)
      requires h != [] && IsHeap(h)
      ensures var n := |h| - 1; var t := h[0 := h[n]][n := h[0]];
        if n > 0 then Ordered(t, 0, n, 0) && Bridged(t, 0, n, 0) else Ordered(t, 0, 0, -1)
    {
      hide Leq;
    }

    static lemma Truncate(h: seq<Node>, n: nat)
      requires n + 1 == |h| && Ordered(h, 0, n, -1)
      ensures IsHeap(h[..n]) && multiset(h) == multiset(h[..n]) + multiset{h[n]}
    {
      hide Leq;
      assert h == h[..n] + [h[n]];
    }
  }
}
