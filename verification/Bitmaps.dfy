/** The word-packed bitmap. A word is its 64 bits, least significant first, and the machine
    operations on words act on those bits. */
module Bitmaps {
  import opened Keys
  import opened Bytes

  type Word = w: seq<bool> | |w| == 64 witness seq(64, i => false)

  function ZeroWord(): Word {
    seq(64, i => false)
  }

  function ShiftRight(w: Word, n: nat): Word {
    seq(64, i requires 0 <= i < 64 => i + n < 64 && w[i + n])
  }

  function ShiftLeft(w: Word, n: nat): Word {
    seq(64, i requires 0 <= i < 64 => i >= n && w[i - n])
  }

  function BitAnd(a: Word, b: Word): Word {
    seq(64, i requires 0 <= i < 64 => a[i] && b[i])
  }

  function BitOr(a: Word, b: Word): Word {
    seq(64, i requires 0 <= i < 64 => a[i] || b[i])
  }

  function BitXor(a: Word, b: Word): Word {
    seq(64, i requires 0 <= i < 64 => a[i] != b[i])
  }

  function Complement(a: Word): Word {
    seq(64, i requires 0 <= i < 64 => !a[i])
  }

  /** 1<<n - 1. */
  function LowMask(n: nat): Word {
    seq(64, i requires 0 <= i < 64 => i < n)
  }

  /** 1<<n. */
  function OneBit(n: nat): Word {
    seq(64, i requires 0 <= i < 64 => i == n)
  }

  function Zeros(n: nat): (r: seq<Word>)
    ensures |r| == n && forall i :: 0 <= i < n ==> r[i] == ZeroWord()
  {
    if n == 0 then [] else Zeros(n - 1) + [ZeroWord()]
  }

  function CountTrue(s: seq<bool>): nat {
    if s == [] then 0 else (if s[0] then 1 else 0) + CountTrue(s[1..])
  }

  function TrailingZeros(s: seq<bool>): (r: nat)
    ensures r <= |s|
    ensures forall i :: 0 <= i < r ==> !s[i]
    ensures r < |s| ==> s[r]
  {
    if s == [] || s[0] then 0 else 1 + TrailingZeros(s[1..])
  }

  /** Words needed for a length; the sum is 32-bit. */
  function WordsFor(length: nat): nat {
    (length + 63) % TWO32 / 64
  }

  /** Lengths whose rounding up to words does not wrap. */
  predicate Fits(length: nat) {
    length + 63 < TWO32
  }

  function Bit(bits: seq<Word>, i: nat): bool
    requires i < 64 * |bits|
  {
    bits[i / 64][i % 64]
  }

  /** Enough words, and zeros beyond the length. */
  ghost predicate Packed(bits: seq<Word>, len: nat) {
    && Fits(len) && |bits| == WordsFor(len)
    && forall i: nat :: len <= i < 64 * |bits| ==> !Bit(bits, i)
  }

  function Unpack(bits: seq<Word>, len: nat): (r: seq<bool>)
    requires len <= 64 * |bits|
    ensures |r| == len && forall i :: 0 <= i < len ==> r[i] == Bit(bits, i)
  {
    seq(len, i requires 0 <= i < len => Bit(bits, i))
  }

  lemma RoomFor(bits: seq<Word>, len: nat)
    requires Packed(bits, len)
    ensures len <= 64 * |bits| < len + 64
  {
  }

  /** Words that agree bit by bit are equal. */
  lemma SameWords(a: seq<Word>, b: seq<Word>)
    requires |a| == |b| && forall i: nat :: i < 64 * |a| ==> Bit(a, i) == Bit(b, i)
    ensures a == b
  {
    forall w | 0 <= w < |a| ensures a[w] == b[w] {
      forall j | 0 <= j < 64 ensures a[w][j] == b[w][j] {
        assert Bit(a, 64 * w + j) == Bit(b, 64 * w + j);
        assert (64 * w + j) / 64 == w && (64 * w + j) % 64 == j;
      }
    }
  }

  lemma PackedIsCanonical(a: seq<Word>, b: seq<Word>, len: nat)
    requires Packed(a, len) && Packed(b, len) && Unpack(a, len) == Unpack(b, len)
    ensures a == b
  {
    forall i: nat | i < 64 * |a| ensures Bit(a, i) == Bit(b, i) {
      if i < len { assert Unpack(a, len)[i] == Unpack(b, len)[i]; }
    }
    SameWords(a, b);
  }

  /** Replacing one word by one that differs in a single bit. */
  lemma OneBitChanged(bits: seq<Word>, len: nat, i: nat, b: bool, w: Word)
    requires Packed(bits, len) && i < len && i / 64 < |bits|
    requires w[i % 64] == b && forall j :: 0 <= j < 64 && j != i % 64 ==> w[j] == bits[i / 64][j]
    ensures Packed(bits[i / 64 := w], len) && Unpack(bits[i / 64 := w], len) == Unpack(bits, len)[i := b]
  {
    var next := bits[i / 64 := w];
    forall k: nat | k < 64 * |bits| ensures Bit(next, k) == if k == i then b else Bit(bits, k) {
      assert k / 64 == i / 64 && k % 64 == i % 64 ==> k == i;
    }
    hide Bit;
  }

  // ----- whole-word operations -----

  function WordAt(bits: seq<Word>, i: nat): Word {
    if i < |bits| then bits[i] else ZeroWord()
  }

  function Max(a: nat, b: nat): nat {
    if a > b then a else b
  }

  function AndWords(a: seq<Word>, b: seq<Word>): (r: seq<Word>)
    ensures |r| == |a| && forall i :: 0 <= i < |r| ==> r[i] == BitAnd(a[i], WordAt(b, i))
  {
    if a == [] then [] else AndWords(a[..|a| - 1], b) + [BitAnd(a[|a| - 1], WordAt(b, |a| - 1))]
  }

  function OrWords(a: seq<Word>, b: seq<Word>): (r: seq<Word>)
    ensures |r| == Max(|a|, |b|) && forall i :: 0 <= i < |r| ==> r[i] == BitOr(WordAt(a, i), WordAt(b, i))
  {
    OrFirst(a, b, Max(|a|, |b|))
  }

  function OrFirst(a: seq<Word>, b: seq<Word>, n: nat): (r: seq<Word>)
    ensures |r| == n && forall i :: 0 <= i < n ==> r[i] == BitOr(WordAt(a, i), WordAt(b, i))
  {
    if n == 0 then [] else OrFirst(a, b, n - 1) + [BitOr(WordAt(a, n - 1), WordAt(b, n - 1))]
  }

  function XorWords(a: seq<Word>, b: seq<Word>): (r: seq<Word>)
    ensures |r| == Max(|a|, |b|) && forall i :: 0 <= i < |r| ==> r[i] == BitXor(WordAt(a, i), WordAt(b, i))
  {
    XorFirst(a, b, Max(|a|, |b|))
  }

  function XorFirst(a: seq<Word>, b: seq<Word>, n: nat): (r: seq<Word>)
    ensures |r| == n && forall i :: 0 <= i < n ==> r[i] == BitXor(WordAt(a, i), WordAt(b, i))
  {
    if n == 0 then [] else XorFirst(a, b, n - 1) + [BitXor(WordAt(a, n - 1), WordAt(b, n - 1))]
  }

  function Member(s: seq<bool>, i: nat): bool {
    i < |s| && s[i]
  }

  function BoolsAnd(a: seq<bool>, b: seq<bool>): seq<bool> {
    seq(|a|, i requires 0 <= i < |a| => a[i] && Member(b, i))
  }

  function BoolsOr(a: seq<bool>, b: seq<bool>): seq<bool> {
    seq(Max(|a|, |b|), i requires 0 <= i < Max(|a|, |b|) => Member(a, i) || Member(b, i))
  }

  function BoolsXor(a: seq<bool>, b: seq<bool>): seq<bool> {
    seq(Max(|a|, |b|), i requires 0 <= i < Max(|a|, |b|) => Member(a, i) != Member(b, i))
  }

  /** A packed bitmap and its contents have the same members. */
  lemma Members(bits: seq<Word>, len: nat, i: nat)
    requires Packed(bits, len)
    ensures WordAt(bits, i / 64)[i % 64] == Member(Unpack(bits, len), i)
  {
    RoomFor(bits, len);
    if i < 64 * |bits| {
      assert WordAt(bits, i / 64)[i % 64] == Bit(bits, i);
    }
  }

  /** Words whose bits are the members of `contents` pack exactly it. */
  lemma PackFrom(b: seq<Word>, len: nat, contents: seq<bool>)
    requires Fits(len) && |b| == WordsFor(len) && |contents| == len
    requires forall i: nat :: i < 64 * |b| ==> Bit(b, i) == Member(contents, i)
    ensures Packed(b, len) && Unpack(b, len) == contents
  {
    hide Bit;
    assert len <= 64 * |b|;
  }

  lemma WordsForMax(n: nat, m: nat)
    requires Fits(n) && Fits(m)
    ensures WordsFor(Max(n, m)) == Max(WordsFor(n), WordsFor(m))
  {
  }

  lemma AndMeans(a: seq<Word>, n: nat, b: seq<Word>, m: nat)
    requires Packed(a, n) && Packed(b, m)
    ensures Packed(AndWords(a, b), n) && Unpack(AndWords(a, b), n) == BoolsAnd(Unpack(a, n), Unpack(b, m))
  {
    RoomFor(a, n);
    forall i: nat | i < 64 * |a| ensures Bit(AndWords(a, b), i) == (Member(Unpack(a, n), i) && Member(Unpack(b, m), i)) {
      Members(a, n, i);
      Members(b, m, i);
    }
    hide Bit;
  }

  lemma OrMeans(a: seq<Word>, n: nat, b: seq<Word>, m: nat)
    requires Packed(a, n) && Packed(b, m)
    ensures Packed(OrWords(a, b), Max(n, m)) && Unpack(OrWords(a, b), Max(n, m)) == BoolsOr(Unpack(a, n), Unpack(b, m))
  {
    RoomFor(a, n);
    RoomFor(b, m);
    WordsForMax(n, m);
    forall i: nat | i < 64 * |OrWords(a, b)| ensures Bit(OrWords(a, b), i) == (Member(Unpack(a, n), i) || Member(Unpack(b, m), i)) {
      Members(a, n, i);
      Members(b, m, i);
    }
    hide Bit;
  }

  lemma XorMeans(a: seq<Word>, n: nat, b: seq<Word>, m: nat)
    requires Packed(a, n) && Packed(b, m)
    ensures Packed(XorWords(a, b), Max(n, m)) && Unpack(XorWords(a, b), Max(n, m)) == BoolsXor(Unpack(a, n), Unpack(b, m))
  {
    RoomFor(a, n);
    RoomFor(b, m);
    WordsForMax(n, m);
    forall i: nat | i < 64 * |XorWords(a, b)| ensures Bit(XorWords(a, b), i) == (Member(Unpack(a, n), i) != Member(Unpack(b, m), i)) {
      Members(a, n, i);
      Members(b, m, i);
    }
    hide Bit;
  }

  function Inverted(a: seq<Word>): (r: seq<Word>)
    ensures |r| == |a| && forall i :: 0 <= i < |r| ==> r[i] == Complement(a[i])
  {
    if a == [] then [] else Inverted(a[..|a| - 1]) + [Complement(a[|a| - 1])]
  }

  function NotWords(a: seq<Word>, len: nat): seq<Word> {
    var inverted := Inverted(a);
    if len % 64 == 0 || a == [] then inverted
    else inverted[|a| - 1 := BitAnd(inverted[|a| - 1], LowMask(len % 64))]
  }

  function BoolsNot(a: seq<bool>): seq<bool> {
    seq(|a|, i requires 0 <= i < |a| => !a[i])
  }

  /** Negation clears the padding again. */
  lemma NotMeans(a: seq<Word>, n: nat)
    requires Packed(a, n)
    ensures Packed(NotWords(a, n), n) && Unpack(NotWords(a, n), n) == BoolsNot(Unpack(a, n))
  {
    RoomFor(a, n);
    forall i: nat | i < 64 * |a| ensures Bit(NotWords(a, n), i) == (i < n && !Bit(a, i)) {
      if i / 64 == |a| - 1 && n % 64 != 0 {
        assert i < n <==> i % 64 < n % 64;
      }
    }
    hide Bit;
  }

  function GrownWords(a: seq<Word>, newLen: nat): seq<Word> {
    if WordsFor(newLen) <= |a| then a else a + Zeros(WordsFor(newLen) - |a|)
  }

  lemma GrownBit(a: seq<Word>, n: nat, newLen: nat, i: nat)
    requires Packed(a, n) && i < 64 * |GrownWords(a, newLen)|
    ensures Bit(GrownWords(a, newLen), i) == Member(Unpack(a, n), i)
  {
    Members(a, n, i);
  }

  /** More words, or only a greater length in the words there are. */
  lemma GrowMeans(a: seq<Word>, n: nat, newLen: nat)
    requires Packed(a, n) && Fits(newLen) && newLen > n
    ensures Packed(GrownWords(a, newLen), newLen)
    ensures Unpack(GrownWords(a, newLen), newLen) == Unpack(a, n) + seq(newLen - n, i => false)
  {
    var b, contents := GrownWords(a, newLen), Unpack(a, n) + seq(newLen - n, i => false);
    assert |b| == WordsFor(newLen);
    forall i: nat | i < 64 * |b| ensures Bit(b, i) == Member(contents, i) {
      GrownBit(a, n, newLen, i);
    }
    hide Bit, GrownWords, Packed, WordsFor;
    PackFrom(b, newLen, contents);
  }

  // ----- copying a range -----

  /** The 64 source bits from `start + 64 * i` on, put together from two words. */
  function Joined(src: seq<Word>, start: nat, i: nat): Word {
    var w, off := start / 64 + i, start % 64;
    if off == 0 then WordAt(src, w)
    else BitOr(ShiftRight(WordAt(src, w), off), if w + 1 < |src| then ShiftLeft(src[w + 1], 64 - off) else ZeroWord())
  }

  lemma Place(q: nat, r: nat)
    requires r < 64
    ensures (64 * q + r) / 64 == q && (64 * q + r) % 64 == r
  {
  }

  lemma JoinedBit(src: seq<Word>, start: nat, i: nat, j: nat)
    requires j < 64 && start / 64 + i < |src|
    ensures Joined(src, start, i)[j] == (start + 64 * i + j < 64 * |src| && Bit(src, start + 64 * i + j))
  {
    var w, off := start / 64 + i, start % 64;
    if off + j < 64 {
      assert start + 64 * i + j == 64 * w + (off + j);
      Place(w, off + j);
    } else {
      assert start + 64 * i + j == 64 * (w + 1) + (off + j - 64);
      Place(w + 1, off + j - 64);
    }
  }

  /** Word `i` of the destination after the copy of `count` bits. */
  function Merged(was: Word, copied: Word, remaining: nat): Word {
    if remaining < 64 then BitOr(BitAnd(was, Complement(LowMask(remaining))), BitAnd(copied, LowMask(remaining))) else copied
  }

  function BoolsCopied(dst: seq<bool>, src: seq<bool>, start: nat, count: nat): (r: seq<bool>)
    requires start <= |src|
    ensures |r| == |dst|
  {
    seq(|dst|, i requires 0 <= i < |dst| => if i < count && start + i < |src| then src[start + i] else dst[i])
  }

  function MinOf(a: nat, b: nat): nat {
    if a < b then a else b
  }

  /** The destination words after the first `n` rounds. */
  ghost predicate CopiedWords(dst: seq<Word>, next: seq<Word>, src: seq<Word>, start: nat, actual: nat, n: nat) {
    && |next| == |dst|
    && (forall i :: 0 <= i < n && i < |dst| && start / 64 + i < |src| && 64 * i < actual ==>
         next[i] == Merged(dst[i], Joined(src, start, i), actual - 64 * i))
    && (forall i :: n <= i < |dst| ==> next[i] == dst[i])
  }

  lemma CopiedBit(dst: seq<Word>, len: nat, next: seq<Word>, src: seq<Word>, srcLen: nat, start: nat, actual: nat, i: nat)
    requires Packed(dst, len) && Packed(src, srcLen) && actual <= len && start + actual <= srcLen
    requires CopiedWords(dst, next, src, start, actual, (actual + 63) / 64)
    requires i < 64 * |dst|
    ensures Bit(next, i) == if i < actual then Member(Unpack(src, srcLen), start + i) else Member(Unpack(dst, len), i)
  {
    var w, j := i / 64, i % 64;
    Members(dst, len, i);
    Members(src, srcLen, start + i);
    if w < (actual + 63) / 64 {
      RoomFor(src, srcLen);
      assert start + 64 * w < srcLen;
      assert start / 64 + w < |src|;
      JoinedBit(src, start, w, j);
      hide Joined, Unpack;
      assert next[w] == Merged(dst[w], Joined(src, start, w), actual - 64 * w);
    }
  }

  /** The copy sets exactly the requested bits and changes no other. */
  lemma CopyMeans(dst: seq<Word>, len: nat, next: seq<Word>, src: seq<Word>, srcLen: nat, start: nat, count: nat)
    requires Packed(dst, len) && Packed(src, srcLen) && start <= srcLen
    requires var actual := MinOf(srcLen - start, MinOf(count, len)); CopiedWords(dst, next, src, start, actual, (actual + 63) / 64)
    ensures Packed(next, len) && Unpack(next, len) == BoolsCopied(Unpack(dst, len), Unpack(src, srcLen), start, count)
  {
    var actual := MinOf(srcLen - start, MinOf(count, len));
    var contents := BoolsCopied(Unpack(dst, len), Unpack(src, srcLen), start, count);
    assert |next| == |dst| && Fits(len) && |dst| == WordsFor(len);
    forall i: nat | i < 64 * |next| ensures Bit(next, i) == Member(contents, i) {
      CopiedBit(dst, len, next, src, srcLen, start, actual, i);
    }
    hide Bit, CopiedWords, Packed, WordsFor, Fits;
    PackFrom(next, len, contents);
  }

  // ----- counting and visiting -----

  function Flat(bits: seq<Word>): seq<bool> {
    if bits == [] then [] else Flat(bits[..|bits| - 1]) + bits[|bits| - 1]
  }

  lemma {:induction false} FlatLength(bits: seq<Word>)
    ensures |Flat(bits)| == 64 * |bits|
  {
    if bits != [] {
      FlatLength(bits[..|bits| - 1]);
    }
  }

  lemma {:induction false} FlatBit(bits: seq<Word>, i: nat)
    requires i < 64 * |bits|
    ensures i < |Flat(bits)| && Flat(bits)[i] == Bit(bits, i)
  {
    var n := |bits| - 1;
    FlatLength(bits[..n]);
    if i < 64 * n {
      FlatBit(bits[..n], i);
    } else {
      Place(n, i - 64 * n);
    }
  }

  function Falses(n: nat): seq<bool> {
    seq(n, i => false)
  }

  lemma FlatIsContents(bits: seq<Word>, len: nat)
    requires Packed(bits, len)
    ensures len <= 64 * |bits| && Flat(bits) == Unpack(bits, len) + Falses(64 * |bits| - len)
  {
    RoomFor(bits, len);
    FlatLength(bits);
    var all := Unpack(bits, len) + Falses(64 * |bits| - len);
    forall i: nat | i < 64 * |bits| ensures Flat(bits)[i] == all[i] {
      FlatBit(bits, i);
      hide Bit, Flat;
      assert all[i] == if i < len then Bit(bits, i) else false;
    }
  }

  lemma {:induction false} CountConcat(a: seq<bool>, b: seq<bool>)
    ensures CountTrue(a + b) == CountTrue(a) + CountTrue(b)
  {
    if a == [] {
      assert a + b == b;
    } else {
      assert (a + b)[1..] == a[1..] + b;
      CountConcat(a[1..], b);
    }
  }

  lemma {:induction false} CountFalses(n: nat)
    ensures CountTrue(Falses(n)) == 0
  {
    if n > 0 {
      assert Falses(n)[1..] == Falses(n - 1);
      CountFalses(n - 1);
    }
  }

  /** The positions of the true elements, from `base` on, ascending. */
  function Indices(s: seq<bool>, base: nat): seq<nat> {
    if s == [] then []
    else if s[0] then [base] + Indices(s[1..], base + 1)
    else Indices(s[1..], base + 1)
  }

  lemma {:induction false} IndicesConcat(a: seq<bool>, b: seq<bool>, base: nat)
    ensures Indices(a + b, base) == Indices(a, base) + Indices(b, base + |a|)
  {
    if a == [] {
      assert a + b == b;
    } else {
      assert (a + b)[1..] == a[1..] + b;
      IndicesConcat(a[1..], b, base + 1);
    }
  }

  lemma {:induction false} IndicesOfNone(s: seq<bool>, base: nat)
    requires forall i :: 0 <= i < |s| ==> !s[i]
    ensures Indices(s, base) == []
  {
    if s != [] { IndicesOfNone(s[1..], base + 1); }
  }

  /** Taking the lowest set bit off. */
  lemma {:induction false} LowestBit(s: seq<bool>, base: nat)
    requires TrailingZeros(s) < |s|
    ensures var j := TrailingZeros(s);
      Indices(s, base) == [base + j] + Indices(s[j := false], base) && CountTrue(s) == 1 + CountTrue(s[j := false])
  {
    var j := TrailingZeros(s);
    if s[0] {
      assert s[0 := false][1..] == s[1..];
    } else {
      LowestBit(s[1..], base + 1);
      assert s[j := false][1..] == s[1..][j - 1 := false];
    }
  }

  lemma {:induction false} IndexMember(s: seq<bool>, base: nat, i: nat)
    ensures i in Indices(s, base) <==> base <= i < base + |s| && s[i - base]
  {
    if s != [] { IndexMember(s[1..], base + 1, i); }
  }

  lemma {:induction false} IndicesAscend(s: seq<bool>, base: nat)
    ensures |Indices(s, base)| == CountTrue(s)
    ensures forall i :: 0 <= i < |Indices(s, base)| ==> base <= Indices(s, base)[i]
    ensures forall i, j :: 0 <= i < j < |Indices(s, base)| ==> Indices(s, base)[i] < Indices(s, base)[j]
  {
    if s != [] {
      IndicesAscend(s[1..], base + 1);
      var rest := Indices(s[1..], base + 1);
      assert Indices(s, base) == if s[0] then [base] + rest else rest;
      hide Indices, CountTrue;
    }
  }

  /** The visited positions are exactly the true ones, each once, in order, as many as counted. */
  lemma IndicesMean(s: seq<bool>)
    ensures |Indices(s, 0)| == CountTrue(s)
    ensures forall i: nat :: i in Indices(s, 0) <==> i < |s| && s[i]
    ensures forall i, j :: 0 <= i < j < |Indices(s, 0)| ==> Indices(s, 0)[i] < Indices(s, 0)[j]
  {
    hide Indices, CountTrue;
    IndicesAscend(s, 0);
    forall i: nat ensures i in Indices(s, 0) <==> i < |s| && s[i] { IndexMember(s, 0, i); }
  }

  // ----- bytes -----

  function BitOf(n: nat, j: nat): bool {
    if j == 0 then n % 2 == 1 else BitOf(n / 2, j - 1)
  }

  function Binary(s: seq<bool>): (r: nat)
    ensures |s| <= 8 ==> r < 256
  {
    BinaryBound(s);
    BinaryValue(s)
  }

  function BinaryValue(s: seq<bool>): nat {
    if s == [] then 0 else (if s[0] then 1 else 0) + 2 * BinaryValue(s[1..])
  }

  function Pow2(n: nat): nat {
    if n == 0 then 1 else 2 * Pow2(n - 1)
  }

  lemma {:induction false} BinaryBelow(s: seq<bool>)
    ensures BinaryValue(s) < Pow2(|s|)
  {
    if s != [] { BinaryBelow(s[1..]); }
  }

  lemma {:induction false} Pow2Monotone(m: nat, n: nat)
    requires m <= n
    ensures Pow2(m) <= Pow2(n)
  {
    if m < n { Pow2Monotone(m, n - 1); }
  }

  lemma Pow2Of8()
    ensures Pow2(8) == 256
  {
    assert Pow2(8) == 2 * Pow2(7) && Pow2(7) == 2 * Pow2(6) && Pow2(6) == 2 * Pow2(5) && Pow2(5) == 2 * Pow2(4);
    assert Pow2(4) == 2 * Pow2(3) && Pow2(3) == 2 * Pow2(2);
  }

  lemma BinaryBound(s: seq<bool>)
    ensures |s| <= 8 ==> BinaryValue(s) < 256
  {
    if |s| <= 8 {
      BinaryBelow(s);
      Pow2Monotone(|s|, 8);
      Pow2Of8();
    }
  }

  lemma {:induction false} BitOfBinary(s: seq<bool>, j: nat)
    ensures BitOf(BinaryValue(s), j) == Member(s, j)
  {
    if s == [] {
      if j > 0 { BitOfBinary(s, j - 1); }
    } else if j > 0 {
      BitOfBinary(s[1..], j - 1);
    }
  }

  function Digits(n: nat, w: nat): (r: seq<bool>)
    ensures |r| == w
  {
    if w == 0 then [] else [n % 2 == 1] + Digits(n / 2, w - 1)
  }

  lemma {:induction false} DigitsAt(n: nat, w: nat, j: nat)
    requires j < w
    ensures Digits(n, w)[j] == BitOf(n, j)
  {
    if j > 0 { DigitsAt(n / 2, w - 1, j - 1); }
  }

  lemma {:induction false} BinaryOfDigits(n: nat, w: nat)
    requires n < Pow2(w)
    ensures BinaryValue(Digits(n, w)) == n
  {
    if w > 0 { BinaryOfDigits(n / 2, w - 1); }
  }

  /** Eight bits from `8 * k` on, false beyond the end. */
  function Eight(s: seq<bool>, k: nat): (r: seq<bool>)
    ensures |r| == 8 && forall j :: 0 <= j < 8 ==> r[j] == Member(s, 8 * k + j)
  {
    seq(8, j requires 0 <= j < 8 => Member(s, 8 * k + j))
  }

  function ByteAt(s: seq<bool>, k: nat): byte {
    Binary(Eight(s, k)) as byte
  }

  /** Bits packed into bytes, least significant first. */
  function PackBytes(s: seq<bool>): (r: Buffer)
    ensures |r| == (|s| + 7) / 8 && forall k :: 0 <= k < |r| ==> r[k] == ByteAt(s, k)
  {
    seq((|s| + 7) / 8, k requires 0 <= k < (|s| + 7) / 8 => ByteAt(s, k))
  }

  function BitsOf(data: Buffer): (r: seq<bool>)
    ensures |r| == 8 * |data| && forall i :: 0 <= i < |r| ==> r[i] == BitOf(data[i / 8] as nat, i % 8)
  {
    seq(8 * |data|, i requires 0 <= i < 8 * |data| => BitOf(data[i / 8] as nat, i % 8))
  }

  /** Every bit survives packing and unpacking; the last byte is filled up with zeros. */
  lemma BytesKeepBits(s: seq<bool>)
    ensures BitsOf(PackBytes(s)) == s + Falses(8 * ((|s| + 7) / 8) - |s|)
  {
    var d := PackBytes(s);
    forall i | 0 <= i < 8 * |d| ensures BitsOf(d)[i] == Member(s, i) {
      BitOfBinary(Eight(s, i / 8), i % 8);
      assert Eight(s, i / 8)[i % 8] == Member(s, 8 * (i / 8) + i % 8);
    }
    hide ByteAt, BitOf;
  }

  lemma ByteKept(data: Buffer, k: nat)
    requires k < |data|
    ensures ByteAt(BitsOf(data), k) == data[k]
  {
    var e, n := Eight(BitsOf(data), k), data[k] as nat;
    forall j | 0 <= j < 8 ensures e[j] == Digits(n, 8)[j] {
      DigitsAt(n, 8, j);
      var i := 8 * k + j;
      assert i / 8 == k && i % 8 == j;
      assert BitsOf(data)[i] == BitOf(data[i / 8] as nat, i % 8);
    }
    assert e == Digits(n, 8);
    Pow2Of8();
    BinaryOfDigits(n, 8);
  }

  /** Unpacking and packing gives the bytes back. */
  lemma BitsKeepBytes(data: Buffer)
    ensures PackBytes(BitsOf(data)) == data
  {
    hide ByteAt;
    forall k | 0 <= k < |data| ensures PackBytes(BitsOf(data))[k] == data[k] {
      ByteKept(data, k);
    }
  }

  /** The eight bytes of a word. */
  function WordBytes(w: Word): (r: Buffer)
    ensures |r| == 8
  {
    seq(8, k requires 0 <= k < 8 => ByteAt(w, k))
  }

  /** The word of up to eight bytes, zeros above. */
  function WordOf(data: Buffer): Word {
    seq(64, i requires 0 <= i < 64 => i / 8 < |data| && BitOf(data[i / 8] as nat, i % 8))
  }

  lemma WordByteIsByte(bits: seq<Word>, len: nat, w: nat, k: nat)
    requires Packed(bits, len) && w < |bits| && k < 8
    ensures ByteAt(bits[w], k) == ByteAt(Unpack(bits, len), 8 * w + k)
  {
    var a, b := Eight(bits[w], k), Eight(Unpack(bits, len), 8 * w + k);
    forall j | 0 <= j < 8 ensures a[j] == b[j] {
      var i := 8 * k + j;
      assert 8 * (8 * w + k) + j == 64 * w + i;
      Place(w, i);
      Members(bits, len, 64 * w + i);
      assert a[j] == bits[w][i] && WordAt(bits, (64 * w + i) / 64) == bits[w];
    }
    assert a == b;
  }

  // ----- slices of boolean columns -----

  /** What a row slice of a boolean column reads: whole words are copied from the word that
      holds `start`, without shifting. */
  function SlicedBools(words: seq<Word>, start: nat, end: nat): (r: seq<bool>)
    requires start <= end <= 64 * |words|
    ensures |r| == end - start
  {
    seq(end - start, i requires 0 <= i < end - start => Bit(words, 64 * (start / 64) + i))
  }

  function RangeOf(words: seq<Word>, start: nat, end: nat): (r: seq<bool>)
    requires start <= end <= 64 * |words|
    ensures |r| == end - start
  {
    seq(end - start, i requires 0 <= i < end - start => Bit(words, start + i))
  }

  /** The slice is right for every content exactly when it is empty or starts on a word. */
  lemma BoolSliceCorrectIff(n: nat, start: nat, end: nat)
    requires start <= end <= 64 * n
    ensures (forall words: seq<Word> :: |words| == n ==> SlicedBools(words, start, end) == RangeOf(words, start, end))
      <==> start == end || start % 64 == 0
  {
    if start < end && start % 64 != 0 {
      var words := Zeros(n)[start / 64 := OneBit(start % 64)];
      Place(start / 64, 0);
      assert words[start / 64] == OneBit(start % 64);
      assert Bit(words, start) && !Bit(words, 64 * (start / 64));
      assert !SlicedBools(words, start, end)[0] && RangeOf(words, start, end)[0];
    }
  }

  class Bitmap {
    var bits: seq<Word>
    var len: nat

    ghost predicate Valid()
      reads this
    {
      Packed(bits, len)
    }

    ghost function Contents(): (r: seq<bool>)
      reads this
      requires Valid()
      ensures |r| == len
    {
      Unpack(bits, len)
    }

    constructor (length: nat)
      requires Fits(length)
      ensures Valid() && Contents() == seq(length, i => false)
    {
      bits := Zeros(WordsFor(length));
      len := length;
    }

    method Set(i: nat)
      requires Valid()
      modifies this
      ensures Valid() && Contents() == if i < old(len) then old(Contents())[i := true] else old(Contents())
    {
      if i >= len {
        return;
      }
      RoomFor(bits, len);
      OneBitChanged(bits, len, i, true, BitOr(bits[i / 64], OneBit(i % 64)));
      bits := bits[i / 64 := BitOr(bits[i / 64], OneBit(i % 64))];
    }

    method Clear(i: nat)
      requires Valid()
      modifies this
      ensures Valid() && Contents() == if i < old(len) then old(Contents())[i := false] else old(Contents())
    {
      if i >= len {
        return;
      }
      RoomFor(bits, len);
      OneBitChanged(bits, len, i, false, BitAnd(bits[i / 64], Complement(OneBit(i % 64))));
      bits := bits[i / 64 := BitAnd(bits[i / 64], Complement(OneBit(i % 64)))];
    }

    method Flip(i: nat)
      requires Valid()
      modifies this
      ensures Valid() && Contents() == if i < old(len) then old(Contents())[i := !old(Contents())[i]] else old(Contents())
    {
      if i >= len {
        return;
      }
      RoomFor(bits, len);
      OneBitChanged(bits, len, i, !Bit(bits, i), BitXor(bits[i / 64], OneBit(i % 64)));
      bits := bits[i / 64 := BitXor(bits[i / 64], OneBit(i % 64))];
    }

    predicate Get(i: nat)
      requires Valid()
      reads this
      ensures Get(i) == (i < len && Contents()[i])
    {
      i < len && Bit(bits, i)
    }

    /** The words are changed in place, one after the other; `other` may be this bitmap. */
    method And(other: Bitmap)
      requires Valid() && other.Valid()
      modifies this
      ensures Valid() && Contents() == BoolsAnd(old(Contents()), old(other.Contents()))
    {
      hide Packed;
      ghost var a, b := bits, other.bits;
      var minWords := |bits|;
      if |other.bits| < minWords {
        minWords := |other.bits|;
      }
      for i := 0 to minWords
        invariant |bits| == |a| && |other.bits| == |b| && len == old(len)
        invariant forall j :: 0 <= j < i ==> bits[j] == AndWords(a, b)[j]
        invariant (forall j :: i <= j < |a| ==> bits[j] == a[j]) && forall j :: i <= j < |b| ==> other.bits[j] == b[j]
      {
        bits := bits[i := BitAnd(bits[i], other.bits[i])];
      }
      for i := minWords to |bits|
        invariant |bits| == |a| && len == old(len)
        invariant forall j :: 0 <= j < i ==> bits[j] == AndWords(a, b)[j]
      {
        AndZero(a, b, i);
        bits := bits[i := ZeroWord()];
      }
      assert bits == AndWords(a, b);
      AndMeans(a, old(len), b, old(other.len));
    }

    method Or(other: Bitmap)
      requires Valid() && other.Valid()
      modifies this
      ensures Valid() && Contents() == BoolsOr(old(Contents()), old(other.Contents()))
    {
      hide Packed;
      ghost var a, b := bits, other.bits;
      OrMeans(a, len, b, other.len);
      if other.len > len {
        len := other.len;
      }
      if |other.bits| > |bits| {
        bits := bits + Zeros(|other.bits| - |bits|);
      }
      for i := 0 to |other.bits|
        invariant |bits| == |OrWords(a, b)| && |other.bits| == |b| && len == Max(old(len), old(other.len))
        invariant forall j :: 0 <= j < i ==> bits[j] == OrWords(a, b)[j]
        invariant (forall j :: i <= j < |bits| ==> bits[j] == WordAt(a, j)) && forall j :: i <= j < |b| ==> other.bits[j] == b[j]
      {
        bits := bits[i := BitOr(bits[i], other.bits[i])];
      }
      OrRest(a, b, bits);
    }

    method Xor(other: Bitmap)
      requires Valid() && other.Valid()
      modifies this
      ensures Valid() && Contents() == BoolsXor(old(Contents()), old(other.Contents()))
    {
      hide Packed;
      ghost var a, b := bits, other.bits;
      XorMeans(a, len, b, other.len);
      if other.len > len {
        len := other.len;
      }
      if |other.bits| > |bits| {
        bits := bits + Zeros(|other.bits| - |bits|);
      }
      for i := 0 to |other.bits|
        invariant |bits| == |XorWords(a, b)| && |other.bits| == |b| && len == Max(old(len), old(other.len))
        invariant forall j :: 0 <= j < i ==> bits[j] == XorWords(a, b)[j]
        invariant (forall j :: i <= j < |bits| ==> bits[j] == WordAt(a, j)) && forall j :: i <= j < |b| ==> other.bits[j] == b[j]
      {
        bits := bits[i := BitXor(bits[i], other.bits[i])];
      }
      XorRest(a, b, bits);
    }

    method Not()
      requires Valid()
      modifies this
      ensures Valid() && Contents() == BoolsNot(old(Contents()))
    {
      NotMeans(bits, len);
      hide Packed;
      ghost var a := bits;
      for i := 0 to |bits|
        invariant |bits| == |a| && len == old(len)
        invariant forall j :: 0 <= j < i ==> bits[j] == Complement(a[j])
        invariant forall j :: i <= j < |a| ==> bits[j] == a[j]
      {
        bits := bits[i := Complement(bits[i])];
      }
      assert bits == Inverted(a);
      if len == 0 {
        return;
      }
      var used := len % 64;
      if used == 0 {
        return;
      }
      var lastWord := |bits| - 1;
      if lastWord < 0 {
        return;
      }
      bits := bits[lastWord := BitAnd(bits[lastWord], LowMask(used))];
    }

    /** The words' population counts, summed. */
    method Count() returns (count: nat)
      requires Valid()
      ensures count == CountTrue(Contents())
    {
      count := 0;
      for i := 0 to |bits|
        invariant count == CountTrue(Flat(bits[..i]))
      {
        assert bits[..i + 1][..i] == bits[..i];
        CountConcat(Flat(bits[..i]), bits[i]);
        count := count + CountTrue(bits[i]);
      }
      assert bits[..|bits|] == bits;
      FlatIsContents(bits, len);
      CountConcat(Contents(), Falses(64 * |bits| - len));
      CountFalses(64 * |bits| - len);
    }

    /** Positions in the order they are visited: the lowest set bit of each word is taken off
        until the word is zero. */
    method ForEach() returns (visited: seq<nat>)
      requires Valid()
      ensures visited == Indices(Contents(), 0)
    {
      visited := [];
      for i := 0 to |bits|
        invariant visited == Indices(Flat(bits[..i]), 0)
      {
        assert bits[..i + 1][..i] == bits[..i];
        FlatLength(bits[..i]);
        IndicesConcat(Flat(bits[..i]), bits[i], 0);
        var found := VisitWord(bits[i], i);
        visited := visited + found;
      }
      assert bits[..|bits|] == bits;
      FlatIsContents(bits, len);
      IndicesConcat(Contents(), Falses(64 * |bits| - len), 0);
      IndicesOfNone(Falses(64 * |bits| - len), len);
    }

    static method VisitWord(w: Word, i: nat) returns (found: seq<nat>)
      ensures found == Indices(w, 64 * i)
    {
      found := [];
      var word := w;
      while word != ZeroWord()
        invariant found + Indices(word, 64 * i) == Indices(w, 64 * i)
        decreases CountTrue(word)
      {
        var j := TrailingZeros(word);
        NotZero(word);
        LowestBit(word, 64 * i);
        assert word[j := false] == BitAnd(word, Complement(OneBit(j)));
        assert found + ([64 * i + j] + Indices(word[j := false], 64 * i)) == found + [64 * i + j] + Indices(word[j := false], 64 * i);
        found := found + [64 * i + j];
        word := BitAnd(word, Complement(OneBit(j)));
      }
      IndicesOfNone(word, 64 * i);
    }

    static lemma NotZero(w: Word)
      ensures TrailingZeros(w) == 64 ==> w == ZeroWord()
    {
      if TrailingZeros(w) == 64 { assert w == ZeroWord(); }
    }

    predicate IsEmpty()
      requires Valid()
      reads this
      ensures IsEmpty() <==> true !in Contents()
    {
      EmptyIff(bits, len);
      forall i :: 0 <= i < |bits| ==> bits[i] == ZeroWord()
    }

    /** Full words first, then the bytes of the last partial one. */
    method ToBytes() returns (data: Buffer)
      requires Valid()
      ensures data == PackBytes(Contents())
    {
      if |bits| == 0 {
        return [];
      }
      RoomFor(bits, len);
      hide Packed, WordBytes, ByteAt;
      ghost var all := PackBytes(Contents());
      var bytesLen := (len + 7) / 8;
      data := [];
      var i := 0;
      while i < |bits| && i * 8 + 8 <= bytesLen
        invariant i <= |bits| && 8 * i <= bytesLen
        invariant data == all[..8 * i]
      {
        BytesOfWord(bits, len, i);
        data := data + WordBytes(bits[i]);
        i := i + 1;
      }
      var fullWords, remaining := bytesLen / 8, bytesLen % 8;
      if remaining > 0 && fullWords < |bits| {
        TailOfWord(bits, len, fullWords, remaining);
        data := data + WordBytes(bits[fullWords])[..remaining];
      }
    }

    constructor FromBytes(data: Buffer)
      requires Fits(8 * |data|)
      ensures Valid() && Contents() == BitsOf(data)
    {
      hide WordOf;
      var words: seq<Word> := [];
      var i := 0;
      while i + 8 <= |data|
        invariant i <= |data| && i % 8 == 0 && |words| == i / 8
        invariant forall w :: 0 <= w < |words| ==> words[w] == WordOf(data[8 * w..8 * w + 8])
      {
        words := words + [WordOf(data[i..i + 8])];
        i := i + 8;
      }
      var remaining := |data| % 8;
      if remaining > 0 {
        words := words + [WordOf(data[|data| - remaining..])];
      }
      WordsOfBytes(words, data);
      bits := words;
      len := 8 * |data|;
    }

    predicate Equals(other: Bitmap)
      requires Valid() && other.Valid()
      reads this, other
      ensures Equals(other) <==> Contents() == other.Contents()
    {
      assert Contents() == other.Contents() ==> len == other.len;
      assert len == other.len && Contents() == other.Contents() ==> bits == other.bits by {
        if len == other.len && Contents() == other.Contents() { PackedIsCanonical(bits, other.bits, len); }
      }
      len == other.len && bits == other.bits
    }

    method Grow(newLen: nat)
      requires Valid() && Fits(newLen)
      modifies this
      ensures Valid()
      ensures Contents() == if newLen <= old(len) then old(Contents()) else old(Contents()) + seq(newLen - old(len), i => false)
    {
      if newLen <= len {
        return;
      }
      GrowMeans(bits, len, newLen);
      var newWords := WordsFor(newLen);
      if newWords <= |bits| {
        len := newLen;
        return;
      }
      bits := bits + Zeros(newWords - |bits|);
      len := newLen;
    }

    method Clone() returns (copy: Bitmap)
      requires Valid()
      ensures fresh(copy) && copy.Valid() && copy.Contents() == Contents()
    {
      copy := new Bitmap(len);
      copy.bits := bits;
    }

    method Reset()
      requires Valid()
      modifies this
      ensures Valid() && Contents() == seq(old(len), i => false)
    {
      bits := Zeros(|bits|);
    }

    /** Bits [srcStart, srcStart + count) of `src` become the first bits of this bitmap, word by
        word, whatever the alignment of `srcStart`. */
    method CopyFrom(src: Bitmap, srcStart: nat, count: nat)
      requires Valid() && src.Valid() && srcStart <= src.len && srcStart + count < TWO32
      modifies this
      ensures Valid() && Contents() == BoolsCopied(old(Contents()), old(src.Contents()), srcStart, count)
    {
      ghost var dst, from := bits, src.bits;
      if count == 0 {
        return;
      }
      var dstEnd := MinOf(count, len);
      var srcEnd := MinOf(srcStart + count, src.len);
      var actual := MinOf(srcEnd - srcStart, dstEnd);
      var dstWords := (actual + 63) / 64;
      RoomFor(bits, len);
      RoomFor(src.bits, src.len);
      hide Packed, Joined, Merged, CopiedWords, WordsFor;
      NothingCopied(dst, from, srcStart, actual);
      for i := 0 to dstWords
        invariant len == old(len) && CopiedWords(dst, bits, from, srcStart, actual, i)
        invariant |src.bits| == |from| && forall j :: i <= j < |from| ==> src.bits[j] == from[j]
      {
        InRange(|bits|, |from|, len, old(src.len), srcStart, actual, i);
        CopyStep(dst, bits, from, srcStart, actual, i);
        JoinedSame(src.bits, from, srcStart, i);
        var word := Joined(src.bits, srcStart, i);
        bits := bits[i := Merged(bits[i], word, actual - i * 64)];
      }
      CopyMeans(dst, len, bits, from, old(src.len), srcStart, count);
    }
  }

  lemma EmptyIff(bits: seq<Word>, len: nat)
    requires Packed(bits, len)
    ensures (forall i :: 0 <= i < |bits| ==> bits[i] == ZeroWord()) <==> true !in Unpack(bits, len)
  {
    RoomFor(bits, len);
    if true !in Unpack(bits, len) {
      forall i: nat | i < 64 * |bits| ensures Bit(bits, i) == Bit(Zeros(|bits|), i) {
        if i < len { assert Unpack(bits, len)[i] in Unpack(bits, len); }
      }
      SameWords(bits, Zeros(|bits|));
    }
  }

  lemma BytesOfWord(bits: seq<Word>, len: nat, w: nat)
    requires Packed(bits, len) && w < |bits| && 8 * w + 8 <= (len + 7) / 8
    ensures PackBytes(Unpack(bits, len))[..8 * w] + WordBytes(bits[w]) == PackBytes(Unpack(bits, len))[..8 * w + 8]
  {
    RoomFor(bits, len);
    hide ByteAt, Packed;
    forall k | 0 <= k < 8 ensures WordBytes(bits[w])[k] == PackBytes(Unpack(bits, len))[8 * w + k] {
      WordByteIsByte(bits, len, w, k);
    }
  }

  lemma TailOfWord(bits: seq<Word>, len: nat, w: nat, r: nat)
    requires Packed(bits, len) && w < |bits| && r < 8 && 8 * w + r == (len + 7) / 8
    ensures PackBytes(Unpack(bits, len))[..8 * w] + WordBytes(bits[w])[..r] == PackBytes(Unpack(bits, len))
  {
    RoomFor(bits, len);
    hide ByteAt, Packed;
    forall k | 0 <= k < r ensures WordBytes(bits[w])[k] == PackBytes(Unpack(bits, len))[8 * w + k] {
      WordByteIsByte(bits, len, w, k);
    }
  }

  /** Words read from bytes pack the bytes' bits. */
  lemma WordsOfBytes(words: seq<Word>, data: Buffer)
    requires Fits(8 * |data|) && |words| == (|data| + 7) / 8
    requires forall w :: 0 <= w < |data| / 8 ==> words[w] == WordOf(data[8 * w..8 * w + 8])
    requires |data| % 8 > 0 ==> words[|words| - 1] == WordOf(data[|data| - |data| % 8..])
    ensures Packed(words, 8 * |data|) && Unpack(words, 8 * |data|) == BitsOf(data)
  {
    forall i: nat | i < 64 * |words| ensures Bit(words, i) == Member(BitsOf(data), i) {
      ByteOfWord(words, data, i);
    }
    hide Bit, BitsOf, WordOf;
    PackFrom(words, 8 * |data|, BitsOf(data));
  }

  lemma WordOfAt(data: Buffer, from: nat, to: nat, j: nat)
    requires from <= to <= |data| && to <= from + 8 && from % 8 == 0 && j < 64 && (to < from + 8 ==> to == |data|)
    ensures WordOf(data[from..to])[j] == Member(BitsOf(data), 8 * from + j)
  {
    var i := 8 * from + j;
    assert i / 8 == from + j / 8 && i % 8 == j % 8;
    hide BitOf;
    if j / 8 < to - from { assert data[from..to][j / 8] == data[i / 8]; }
  }

  lemma ByteOfWord(words: seq<Word>, data: Buffer, i: nat)
    requires |words| == (|data| + 7) / 8 && i < 64 * |words|
    requires forall w :: 0 <= w < |data| / 8 ==> words[w] == WordOf(data[8 * w..8 * w + 8])
    requires |data| % 8 > 0 ==> words[|words| - 1] == WordOf(data[|data| - |data| % 8..])
    ensures Bit(words, i) == Member(BitsOf(data), i)
  {
    hide WordOf, BitsOf;
    var w, j := i / 64, i % 64;
    assert i == 8 * (8 * w) + j;
    if w < |data| / 8 {
      WordOfAt(data, 8 * w, 8 * w + 8, j);
    } else {
      assert |data| - |data| % 8 == 8 * w && w == |words| - 1;
      assert data[8 * w..] == data[8 * w..|data|];
      WordOfAt(data, 8 * w, |data|, j);
    }
  }

  lemma NothingCopied(dst: seq<Word>, src: seq<Word>, start: nat, actual: nat)
    ensures CopiedWords(dst, dst, src, start, actual, 0)
  {
  }

  lemma InRange(dstWords: nat, srcWords: nat, len: nat, srcLen: nat, start: nat, actual: nat, i: nat)
    requires i < (actual + 63) / 64 && actual <= len <= 64 * dstWords && start + actual <= srcLen <= 64 * srcWords
    ensures 64 * i < actual && i < dstWords && start / 64 + i < srcWords
  {
  }

  lemma CopyStep(dst: seq<Word>, next: seq<Word>, src: seq<Word>, start: nat, actual: nat, i: nat)
    requires CopiedWords(dst, next, src, start, actual, i) && i < |dst| && 64 * i < actual
    ensures i < |next| && next[i] == dst[i]
    ensures CopiedWords(dst, next[i := Merged(dst[i], Joined(src, start, i), actual - 64 * i)], src, start, actual, i + 1)
  {
    hide Joined, Merged;
  }

  lemma JoinedSame(a: seq<Word>, b: seq<Word>, start: nat, i: nat)
    requires |a| == |b| && forall j :: i <= j < |a| ==> a[j] == b[j]
    ensures Joined(a, start, i) == Joined(b, start, i)
  {
  }

  lemma AndZero(a: seq<Word>, b: seq<Word>, i: nat)
    requires |b| <= i < |a|
    ensures AndWords(a, b)[i] == ZeroWord()
  {
  }

  lemma OrRest(a: seq<Word>, b: seq<Word>, bits: seq<Word>)
    requires |bits| == |OrWords(a, b)|
    requires forall j :: 0 <= j < |b| ==> bits[j] == OrWords(a, b)[j]
    requires forall j :: |b| <= j < |bits| ==> bits[j] == WordAt(a, j)
    ensures bits == OrWords(a, b)
  {
    forall j | |b| <= j < |bits| ensures bits[j] == OrWords(a, b)[j] {
      assert BitOr(WordAt(a, j), ZeroWord()) == WordAt(a, j);
    }
  }

  lemma XorRest(a: seq<Word>, b: seq<Word>, bits: seq<Word>)
    requires |bits| == |XorWords(a, b)|
    requires forall j :: 0 <= j < |b| ==> bits[j] == XorWords(a, b)[j]
    requires forall j :: |b| <= j < |bits| ==> bits[j] == WordAt(a, j)
    ensures bits == XorWords(a, b)
  {
    forall j | |b| <= j < |bits| ensures bits[j] == XorWords(a, b)[j] {
      assert BitXor(WordAt(a, j), ZeroWord()) == WordAt(a, j);
    }
  }
}
