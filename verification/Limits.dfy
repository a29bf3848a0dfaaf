/** LIMIT over a chunk list, with the 64-bit arithmetic of the loop. */
module Limits {
  import opened Chunks

  const TWO64: int := 0x1_0000_0000_0000_0000

  type Uint64 = x: int | 0 <= x < TWO64

  /** Unsigned 64-bit addition. */
  function Add64(x: nat, y: nat): (r: Uint64)
    ensures x + y < TWO64 ==> r == x + y
    ensures TWO64 <= x + y < 2 * TWO64 ==> r == x + y - TWO64
  {
    if x + y < TWO64 then x + y else (x + y) % TWO64
  }

  function Min(x: int, y: int): int {
    if x <= y then x else y
  }

  /** The loop from a state (skipped, returned) on; sums are unsigned 64-bit. */
  function LimitFrom<T>(chunks: seq<seq<T>>, skipped: Uint64, returned: Uint64, offset: Uint64, count: Uint64): seq<seq<T>>
    requires skipped <= offset && returned <= count
  {
    if chunks == [] then []
    else
      var n := |chunks[0]|;
      if Add64(skipped, n) <= offset then LimitFrom(chunks[1..], Add64(skipped, n), returned, offset, count)
      else
        var start := offset - skipped;
        var end := Min(n, Add64(start, count - returned));
        if start >= end then []
        else
          [chunks[0][start..end]] +
          if returned + (end - start) >= count then []
          else LimitFrom(chunks[1..], offset, returned + (end - start), offset, count)
  }

  function LimitChunks<T>(chunks: seq<seq<T>>, offset: Uint64, count: Uint64): seq<seq<T>> {
    LimitFrom(chunks, 0, 0, offset, count)
  }

  function SliceEnd(n: nat, start: nat, wanted: nat): int {
    Min(n, Add64(start, wanted))
  }

  lemma Skip<T>(chunks: seq<seq<T>>, skipped: Uint64, returned: Uint64, offset: Uint64, count: Uint64)
    requires skipped <= offset && returned <= count && chunks != []
    requires Add64(skipped, |chunks[0]|) <= offset
    ensures LimitFrom(chunks, skipped, returned, offset, count)
         == LimitFrom(chunks[1..], Add64(skipped, |chunks[0]|), returned, offset, count)
  {
  }

  /** A chunk that is not skipped: nothing, a last slice, or a slice and the rest. */
  lemma Take<T>(chunks: seq<seq<T>>, skipped: Uint64, returned: Uint64, offset: Uint64, count: Uint64)
    requires skipped <= offset && returned <= count && chunks != []
    requires Add64(skipped, |chunks[0]|) > offset
    ensures var r, start, end := LimitFrom(chunks, skipped, returned, offset, count), offset - skipped, SliceEnd(|chunks[0]|, offset - skipped, count - returned);
      && (start >= end ==> r == [])
      && (start < end && returned + (end - start) >= count ==> r == [chunks[0][start..end]])
      && (start < end && returned + (end - start) < count ==>
           r == [chunks[0][start..end]] + LimitFrom(chunks[1..], offset, returned + (end - start), offset, count))
  {
    hide Add64;
  }

  lemma Reassociate<T>(a: seq<T>, x: T, b: seq<T>)
    ensures a + ([x] + b) == a + [x] + b
  {
  }

  /** The executor's loop. */
  method ExecuteLimit<T>(input: seq<seq<T>>, offset: Uint64, count: Uint64) returns (chunks: seq<seq<T>>)
    ensures chunks == LimitChunks(input, offset, count)
  {
    hide Add64, LimitFrom;
    chunks := [];
    NothingLeft<T>(0, 0, offset, count);
    assert input[0..] == input;
    var skipped: Uint64, returned: Uint64 := 0, 0;
    var i := 0;
    while i < |input|
      invariant i <= |input| && skipped <= offset && returned <= count
      invariant LimitChunks(input, offset, count) == chunks + LimitFrom(input[i..], skipped, returned, offset, count)
    {
      var chunk := input[i];
      assert input[i..][0] == chunk && input[i..][1..] == input[i + 1..];
      var rowCount := |chunk|;
      if Add64(skipped, rowCount) <= offset {
        Skip(input[i..], skipped, returned, offset, count);
        skipped := Add64(skipped, rowCount);
        i := i + 1;
        continue;
      }
      Take(input[i..], skipped, returned, offset, count);
      var startRow := 0;
      if skipped < offset {
        startRow := offset - skipped;
        skipped := offset;
      }
      var remaining := count - returned;
      var endRow := Min(rowCount, Add64(startRow, remaining));
      if startRow >= endRow {
        return;
      }
      Reassociate(chunks, chunk[startRow..endRow], LimitFrom(input[i + 1..], offset, Min(count, returned + (endRow - startRow)), offset, count));
      chunks := chunks + [chunk[startRow..endRow]];
      returned := returned + (endRow - startRow);
      if returned >= count {
        return;
      }
      i := i + 1;
    }
    NothingLeft<T>(skipped, returned, offset, count);
    assert input[i..] == [];
  }

  lemma NothingLeft<T>(skipped: Uint64, returned: Uint64, offset: Uint64, count: Uint64)
    requires skipped <= offset && returned <= count
    ensures LimitFrom<T>([], skipped, returned, offset, count) == []
  {
  }

  /** What LIMIT should return. */
  function Window<T>(rows: seq<T>, offset: nat, count: nat): seq<T> {
    rows[Min(offset, |rows|)..Min(offset + count, |rows|)]
  }

  /** Where the first wanted row stands in its own chunk; None when there is no such row. */
  function FirstRow<T>(chunks: seq<seq<T>>, offset: nat): int {
    if chunks == [] then -1
    else if offset < |chunks[0]| then offset
    else FirstRow(chunks[1..], offset - |chunks[0]|)
  }

  lemma {:induction false} FirstRowExists<T>(chunks: seq<seq<T>>, offset: nat)
    ensures FirstRow(chunks, offset) >= 0 <==> offset < |Flatten(chunks)|
  {
    if chunks != [] && offset >= |chunks[0]| { FirstRowExists(chunks[1..], offset - |chunks[0]|); }
  }

  lemma WindowSkips<T>(a: seq<T>, b: seq<T>, start: nat, count: nat)
    requires |a| <= start
    ensures Window(a + b, start, count) == Window(b, start - |a|, count)
  {
    var all := a + b;
    var i, j := Min(start, |all|), Min(start + count, |all|);
    assert all[i..j] == b[i - |a|..j - |a|];
  }

  lemma WindowSplits<T>(a: seq<T>, b: seq<T>, start: nat, count: nat)
    requires start <= |a|
    ensures var end := Min(|a|, start + count);
      Window(a + b, start, count) == a[start..end] + Window(b, 0, count - (end - start))
  {
  }

  lemma FlattenCons<T>(head: seq<T>, rest: seq<seq<T>>)
    ensures Flatten([head] + rest) == head + Flatten(rest)
  {
    assert ([head] + rest)[1..] == rest;
  }

  lemma {:induction false} TakeRest<T>(chunks: seq<seq<T>>, returned: Uint64, offset: Uint64, count: Uint64)
    requires returned < count && offset + |Flatten(chunks)| < TWO64
    ensures Flatten(LimitFrom(chunks, offset, returned, offset, count)) == Window(Flatten(chunks), 0, count - returned)
  {
    hide Window, Add64, LimitFrom;
    if chunks == [] {
      EmptyWindow<T>(0, count - returned);
      NothingLeft<T>(offset, returned, offset, count);
    } else {
      var n, rest := |chunks[0]|, Flatten(chunks[1..]);
      if n == 0 {
        Skip(chunks, offset, returned, offset, count);
        TakeRest(chunks[1..], returned, offset, count);
        assert chunks[0] + rest == rest;
      } else {
        var end := Min(n, count - returned);
        Take(chunks, offset, returned, offset, count);
        WindowSplits(chunks[0], rest, 0, count - returned);
        if returned + end < count {
          TakeRest(chunks[1..], returned + end, offset, count);
          FlattenCons(chunks[0][0..end], LimitFrom(chunks[1..], offset, returned + end, offset, count));
        } else {
          NoWindow(rest, 0);
          FlattenCons(chunks[0][0..end], []);
        }
      }
    }
  }

  lemma EmptyWindow<T>(start: nat, count: nat)
    ensures Window<T>([], start, count) == []
  {
  }

  lemma NoWindow<T>(rows: seq<T>, start: nat)
    ensures Window(rows, start, 0) == []
  {
  }

  /** The whole behaviour: rows [offset, offset + count) of the input, except that a count so
      large that the end of the first slice passes 2^64 returns nothing. */
  lemma {:induction false} LimitFromMeans<T>(chunks: seq<seq<T>>, skipped: Uint64, offset: Uint64, count: Uint64)
    requires skipped <= offset && skipped + |Flatten(chunks)| < TWO64
    ensures var rows, first := Flatten(chunks), FirstRow(chunks, offset - skipped);
      Flatten(LimitFrom(chunks, skipped, 0, offset, count)) ==
        if first + count < TWO64 then Window(rows, offset - skipped, count) else []
  {
    hide Window, Add64, LimitFrom;
    if chunks == [] {
      EmptyWindow<T>(offset - skipped, count);
      NothingLeft<T>(skipped, 0, offset, count);
    } else {
      var n, rest := |chunks[0]|, Flatten(chunks[1..]);
      var start := offset - skipped;
      if n <= start {
        Skip(chunks, skipped, 0, offset, count);
        LimitFromMeans(chunks[1..], skipped + n, offset, count);
        WindowSkips(chunks[0], rest, start, count);
      } else if count == 0 {
        Take(chunks, skipped, 0, offset, count);
        NoWindow(chunks[0] + rest, start);
      } else if start + count >= TWO64 {
        Take(chunks, skipped, 0, offset, count);
      } else {
        Take(chunks, skipped, 0, offset, count);
        var end := Min(n, start + count);
        WindowSplits(chunks[0], rest, start, count);
        if end - start < count {
          TakeRest(chunks[1..], end - start, offset, count);
          FlattenCons(chunks[0][start..end], LimitFrom(chunks[1..], offset, end - start, offset, count));
        } else {
          NoWindow(rest, 0);
          FlattenCons(chunks[0][start..end], []);
        }
      }
    }
  }

  /** LIMIT returns its window exactly when the end of the slice of the first chunk it takes
      from fits in 64 bits, or there is nothing to return. */
  lemma LimitCorrectIff<T>(chunks: seq<seq<T>>, offset: Uint64, count: Uint64)
    requires |Flatten(chunks)| < TWO64
    ensures Flatten(LimitChunks(chunks, offset, count)) == Window(Flatten(chunks), offset, count)
      <==> (offset < |Flatten(chunks)| ==> FirstRow(chunks, offset) + count < TWO64)
  {
    LimitFromMeans(chunks, 0, offset, count);
    FirstRowExists(chunks, offset);
    FirstRowBound(chunks, offset);
    if FirstRow(chunks, offset) + count >= TWO64 {
      assert |Window(Flatten(chunks), offset, count)| > 0;
    }
  }

  lemma {:induction false} FirstRowBound<T>(chunks: seq<seq<T>>, offset: nat)
    ensures FirstRow(chunks, offset) <= offset
  {
    if chunks != [] && offset >= |chunks[0]| { FirstRowBound(chunks[1..], offset - |chunks[0]|); }
  }

  /** Enough for a caller to check: offset + count fits in 64 bits. */
  lemma LimitWithinRange<T>(chunks: seq<seq<T>>, offset: Uint64, count: Uint64)
    requires |Flatten(chunks)| < TWO64 && offset + count < TWO64
    ensures Flatten(LimitChunks(chunks, offset, count)) == Window(Flatten(chunks), offset, count)
  {
    LimitCorrectIff(chunks, offset, count);
    FirstRowBound(chunks, offset);
  }

  /** Two rows, offset 1, the largest count: the row is lost. */
  lemma LargestCountLosesRows()
    ensures Flatten(LimitChunks([[true, true]], 1, TWO64 - 1)) == []
    ensures Window([true, true], 1, TWO64 - 1) == [true]
  {
    assert [[true, true]] == [[true, true]] + [];
    FlattenCons([true, true], []);
    LimitFromMeans([[true, true]], 0, 1, TWO64 - 1);
    assert FirstRow([[true, true]], 1) == 1;
  }
}
