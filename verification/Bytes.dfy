/** Byte buffers: little-endian numbers and where one byte string stands inside another. */
module Bytes {
  import opened Keys
  import opened SortedEntries

  type Buffer = seq<byte>

  const TWO16: int := 0x1_0000
  const TWO32: int := 0x1_0000_0000
  const TWO63: int := 0x8000_0000_0000_0000
  const TWO64: int := 0x1_0000_0000_0000_0000

  function Pow256(w: nat): (r: nat)
    ensures r > 0
  {
    if w == 0 then 1 else 256 * Pow256(w - 1)
  }

  lemma PowValues()
    ensures Pow256(1) == 256 && Pow256(2) == TWO16 && Pow256(4) == TWO32 && Pow256(8) == TWO64
  {
    assert Pow256(3) == 256 * Pow256(2);
    assert Pow256(5) == 256 * Pow256(4) && Pow256(6) == 256 * Pow256(5) && Pow256(7) == 256 * Pow256(6);
  }

  /** The low `w` bytes of a number, least significant first. */
  function LE(n: nat, w: nat): (r: Buffer)
    ensures |r| == w
  {
    if w == 0 then [] else [(n % 256) as byte] + LE(n / 256, w - 1)
  }

  function FromLE(b: Buffer): nat {
    if b == [] then 0 else b[0] as nat + 256 * FromLE(b[1..])
  }

  lemma {:induction false} LERoundTrip(n: nat, w: nat)
    requires n < Pow256(w)
    ensures FromLE(LE(n, w)) == n
  {
    if w > 0 {
      LERoundTrip(n / 256, w - 1);
      assert LE(n, w)[1..] == LE(n / 256, w - 1);
    }
  }

  lemma {:induction false} FromLEBound(b: Buffer)
    ensures FromLE(b) < Pow256(|b|)
  {
    if b != [] { FromLEBound(b[1..]); }
  }

  /** Reading bytes as a number and writing it again gives the bytes back. */
  lemma {:induction false} LEOfFromLE(b: Buffer)
    ensures LE(FromLE(b), |b|) == b
  {
    if b != [] {
      LEOfFromLE(b[1..]);
      assert FromLE(b) % 256 == b[0] as nat && FromLE(b) / 256 == FromLE(b[1..]);
      assert b == [b[0]] + b[1..];
    }
  }

  lemma RoundTrip64(n: nat)
    requires n < TWO64
    ensures FromLE(LE(n, 8)) == n
  {
    PowValues();
    LERoundTrip(n, 8);
  }

  /** Two's complement. */
  function Unsigned(x: int): nat
    requires -TWO63 <= x < TWO63
  {
    if x >= 0 then x else x + TWO64
  }

  function Signed(n: nat): (r: int)
    requires n < TWO64
    ensures -TWO63 <= r < TWO63
  {
    if n < TWO63 then n else n - TWO64
  }

  /** An int64 as its eight bytes. */
  function Int64Bytes(x: int): (r: Buffer)
    requires -TWO63 <= x < TWO63
    ensures |r| == 8
  {
    LE(Unsigned(x), 8)
  }

  function Int64Of(b: Buffer): (r: int)
    requires |b| == 8
    ensures -TWO63 <= r < TWO63
  {
    FromLEBound(b);
    PowValues();
    Signed(FromLE(b))
  }

  lemma Int64RoundTrip(x: int)
    requires -TWO63 <= x < TWO63
    ensures Int64Of(Int64Bytes(x)) == x
  {
    RoundTrip64(Unsigned(x));
  }

  // ----- positions -----

  /** `e` stands in `data` at `pos`. */
  ghost predicate Has(data: Buffer, pos: nat, e: Buffer) {
    pos + |e| <= |data| && data[pos..pos + |e|] == e
  }

  lemma HasSplit(data: Buffer, pos: nat, a: Buffer, b: Buffer)
    ensures Has(data, pos, a + b) <==> Has(data, pos, a) && Has(data, pos + |a|, b)
  {
    if Has(data, pos, a + b) {
      assert data[pos..pos + |a|] == (a + b)[..|a|];
      assert data[pos + |a|..pos + |a| + |b|] == (a + b)[|a|..];
    }
    if Has(data, pos, a) && Has(data, pos + |a|, b) {
      assert data[pos..pos + |a + b|] == data[pos..pos + |a|] + data[pos + |a|..pos + |a| + |b|];
    }
  }

  lemma HasAll(data: Buffer)
    ensures Has(data, 0, data)
  {
  }

  /** The `w`-byte number at `pos`. */
  function Number(data: Buffer, pos: nat, w: nat): (r: nat)
    requires pos + w <= |data|
    ensures r < Pow256(w)
  {
    FromLEBound(data[pos..pos + w]);
    FromLE(data[pos..pos + w])
  }

  lemma NumberAt(data: Buffer, pos: nat, n: nat, w: nat)
    requires Has(data, pos, LE(n, w)) && n < Pow256(w)
    ensures Number(data, pos, w) == n
  {
    LERoundTrip(n, w);
  }

  // ----- reading -----

  /** A successful read and the position after it. */
  datatype Read<+T> = Got(value: T, next: nat) | Bad

  function ReadNumber(data: Buffer, pos: nat, w: nat): (r: Read<nat>)
    ensures r.Got? ==> r.next == pos + w <= |data|
  {
    if pos + w <= |data| then Got(Number(data, pos, w), pos + w) else Bad
  }

  function ReadBytes(data: Buffer, pos: nat, n: nat): (r: Read<Buffer>)
    ensures r.Got? ==> r.next == pos + n <= |data|
  {
    if pos + n <= |data| then Got(data[pos..pos + n], pos + n) else Bad
  }

  lemma ReadsNumber(data: Buffer, pos: nat, n: nat, w: nat)
    requires Has(data, pos, LE(n, w)) && n < Pow256(w)
    ensures ReadNumber(data, pos, w) == Got(n, pos + w)
  {
    NumberAt(data, pos, n, w);
  }

  lemma ReadsBytes(data: Buffer, pos: nat, b: Buffer)
    requires Has(data, pos, b)
    ensures ReadBytes(data, pos, |b|) == Got(b, pos + |b|)
  {
  }
}
