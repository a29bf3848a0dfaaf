/** Byte strings and their order. A Go string is a sequence of bytes and `<` compares
    byte by byte, a proper prefix being smaller. */
module Keys {
  newtype byte = b: int | 0 <= b < 256

  type Str = seq<byte>

  type Key = Str

  predicate Less(a: Key, b: Key) {
    if b == [] then false
    else if a == [] then true
    else a[0] < b[0] || (a[0] == b[0] && Less(a[1..], b[1..]))
  }

  predicate AtMost(a: Key, b: Key) {
    !Less(b, a)
  }

  lemma {:induction false} LessTransitive(a: Key, b: Key, c: Key)
    requires Less(a, b) && Less(b, c)
    ensures Less(a, c)
  {
    if a != [] && a[0] == b[0] == c[0] {
      LessTransitive(a[1..], b[1..], c[1..]);
    }
  }

  lemma {:induction false} LessIrreflexive(a: Key)
    ensures !Less(a, a)
  {
    if a != [] {
      LessIrreflexive(a[1..]);
    }
  }

  lemma {:induction false} LessTotal(a: Key, b: Key)
    ensures Less(a, b) || a == b || Less(b, a)
  {
    if a != [] && b != [] && a[0] == b[0] {
      LessTotal(a[1..], b[1..]);
      assert a[1..] == b[1..] ==> a == [a[0]] + a[1..] == [b[0]] + b[1..] == b;
    }
  }

  /** At the first place where they differ, `a` has ended or has the smaller byte. */
  ghost predicate FirstDifference(a: Key, b: Key, i: nat) {
    i <= |a| && i < |b| && (forall k :: 0 <= k < i ==> a[k] == b[k]) && (i == |a| || a[i] < b[i])
  }

  lemma LaterDifference(a: Key, b: Key, i: nat)
    requires a != [] && b != []
    ensures FirstDifference(a, b, i + 1) <==> a[0] == b[0] && FirstDifference(a[1..], b[1..], i)
  {
    if FirstDifference(a, b, i + 1) {
      assert forall k :: 0 <= k < i ==> a[1..][k] == b[1..][k];
    }
    if a[0] == b[0] && FirstDifference(a[1..], b[1..], i) {
      assert forall k :: 0 < k < i + 1 ==> a[k] == a[1..][k - 1] == b[1..][k - 1] == b[k];
    }
  }

  /** The order is the one of Go strings, byte by byte. */
  lemma {:induction false} LessMeans(a: Key, b: Key)
    ensures Less(a, b) <==> exists i: nat :: FirstDifference(a, b, i)
  {
    if a != [] && b != [] {
      LessMeans(a[1..], b[1..]);
      if i: nat :| FirstDifference(a[1..], b[1..], i) {
        LaterDifference(a, b, i);
      }
      if i: nat :| FirstDifference(a, b, i) {
        if i > 0 { LaterDifference(a, b, i - 1); }
      }
      assert FirstDifference(a, b, 0) <==> a[0] < b[0];
    } else if a == [] && b != [] {
      assert FirstDifference(a, b, 0);
    }
  }

  /** `Less` is a strict total order. */
  lemma OrderLaws()
    ensures forall a: Key :: !Less(a, a)
    ensures forall a: Key, b: Key, c: Key {:trigger Less(a, b), Less(b, c)} :: Less(a, b) && Less(b, c) ==> Less(a, c)
    ensures forall a: Key, b: Key {:trigger Less(a, b)} {:trigger Less(b, a)} :: Less(a, b) || a == b || Less(b, a)
  {
    forall a: Key ensures !Less(a, a) { LessIrreflexive(a); }
    forall a: Key, b: Key, c: Key | Less(a, b) && Less(b, c) ensures Less(a, c) { LessTransitive(a, b, c); }
    forall a: Key, b: Key ensures Less(a, b) || a == b || Less(b, a) { LessTotal(a, b); }
  }

  lemma AtMostMeans(a: Key, b: Key)
    ensures AtMost(a, b) <==> Less(a, b) || a == b
  {
    LessTotal(a, b);
    if Less(a, b) && Less(b, a) { LessTransitive(a, b, a); }
    LessIrreflexive(a);
  }

  /** Strictly ascending. */
  ghost predicate Ascending(s: seq<Key>) {
    forall i, j :: 0 <= i < j < |s| ==> Less(s[i], s[j])
  }
}
