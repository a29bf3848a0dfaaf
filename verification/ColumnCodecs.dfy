/** Encodings of one column: dictionary and plain strings, run-length and plain integers. NULL
    marks are a bit sequence; a row beyond its end is not NULL. */
module ColumnCodecs {
  import opened Keys
  import opened SortedEntries
  import opened Bytes

  type Marks = seq<bool>

  predicate IsNull(nulls: Marks, i: nat) {
    i < |nulls| && nulls[i]
  }

  /** What reading a string column gives back: the strings row by row, and the marks. */
  datatype Strings = Strings(strs: seq<Str>, nulls: Marks)

  /** Row by row the same NULL mark, and the same string where there is none. */
  ghost predicate SameStrings(d: Strings, strs: seq<Str>, nulls: Marks, n: nat)
    requires n <= |strs|
  {
    && |d.strs| == n && |d.nulls| == n
    && forall i :: 0 <= i < n ==> d.nulls[i] == IsNull(nulls, i) && (!d.nulls[i] ==> d.strs[i] == strs[i])
  }

  // ----- dictionary -----

  /** Always leaves room for the NULL marker. */
  function IndexWidth(dictSize: nat): nat {
    var size := dictSize + 1;
    if size <= 256 then 1 else if size <= 65536 then 2 else 4
  }

  /** The narrowest of the three widths in which every slot number and the marker have room. */
  lemma IndexWidthMeans(dictSize: nat)
    requires dictSize < 0xFFFF_FFFF
    ensures IndexWidth(dictSize) == 1 <==> dictSize <= 0xFF
    ensures IndexWidth(dictSize) == 2 <==> 0xFF < dictSize <= 0xFFFF
    ensures IndexWidth(dictSize) == 4 <==> 0xFFFF < dictSize
  {
  }

  function NullMarker(width: nat): nat {
    if width == 1 then 0xFF else if width == 2 then 0xFFFF else 0xFFFF_FFFF
  }

  /** At every dictionary size no valid index is the marker, and both fit the width. */
  lemma MarkerIsFree(dictSize: nat, idx: nat)
    requires idx < dictSize < TWO32 - 1
    ensures var w := IndexWidth(dictSize); idx < NullMarker(w) < Pow256(w)
  {
    PowValues();
  }

  lemma MarkerFits(dictSize: nat)
    ensures NullMarker(IndexWidth(dictSize)) < Pow256(IndexWidth(dictSize))
  {
    PowValues();
  }

  function Code(width: nat, isNull: bool, idx: nat): nat {
    if isNull then NullMarker(width) else idx
  }

  /** The index stream: one code of `width` bytes per row. */
  function CodeBytes(codes: seq<nat>, width: nat): (r: Buffer)
    ensures |r| == width * |codes|
  {
    if codes == [] then [] else CodeBytes(codes[..|codes| - 1], width) + LE(codes[|codes| - 1], width)
  }

  lemma {:induction false} CodeAt(codes: seq<nat>, width: nat, i: nat)
    requires i < |codes| && codes[i] < Pow256(width)
    ensures width * i + width <= width * |codes| && Number(CodeBytes(codes, width), width * i, width) == codes[i]
  {
    hide LE, FromLE;
    var n := |codes| - 1;
    var all, head := CodeBytes(codes, width), CodeBytes(codes[..n], width);
    MulMore(width, i, n);
    if i < n {
      CodeAt(codes[..n], width, i);
      assert all[width * i..width * i + width] == head[width * i..width * i + width];
    } else {
      assert all[width * n..width * n + width] == LE(codes[n], width);
      LERoundTrip(codes[n], width);
    }
  }

  lemma MulMore(w: nat, i: nat, n: nat)
    requires i <= n
    ensures w * i <= w * n && w * (n + 1) == w * n + w && (i < n ==> w * i + w <= w * n)
  {
    if i < n {
      assert w * (n - i) == w * n - w * i && w * (n - i) >= w by { assert w * (n - i) == w * (n - i - 1) + w; }
    } else {
    }
    assert w * i <= w * n by { assert w * (n - i) == w * n - w * i; }
  }

  datatype DictColumn = DictColumn(rowCount: nat, dict: seq<Str>, data: Buffer)

  /** Every row's code stands in its slot: the marker, or the position of its string. */
  ghost predicate DictHolds(enc: DictColumn, strs: seq<Str>, nulls: Marks) {
    var w := IndexWidth(|enc.dict|);
    && enc.rowCount == |strs| && |enc.data| == w * |strs| && |enc.dict| <= |strs|
    && forall i: nat {:trigger strs[i]} :: i < |strs| ==> SlotHolds(enc, w, i, strs[i], IsNull(nulls, i))
  }

  ghost predicate SlotHolds(enc: DictColumn, w: nat, i: nat, s: Str, isNull: bool) {
    w * i + w <= |enc.data| &&
    var code := Number(enc.data, w * i, w);
    if isNull then code == NullMarker(w) else code < |enc.dict| && enc.dict[code] == s
  }

  /** Positions of the strings seen so far: a bijection with the dictionary. */
  ghost predicate Indexed(m: map<Str, nat>, dict: seq<Str>) {
    && (forall s :: s in m ==> m[s] < |dict| && dict[m[s]] == s)
    && (forall i :: 0 <= i < |dict| ==> dict[i] in m && m[dict[i]] == i)
  }

  method EncodeDict(strs: seq<Str>, nulls: Marks) returns (enc: DictColumn)
    requires |strs| * 4 < TWO32
    ensures DictHolds(enc, strs, nulls)
    ensures forall i, j :: 0 <= i < j < |enc.dict| ==> enc.dict[i] != enc.dict[j]
  {
    hide Number, NullMarker, IndexWidth;
    var dict, indices := BuildDict(strs, nulls);
    var w := IndexWidth(|dict|);
    var codes: seq<nat> := [];
    for i := 0 to |strs|
      invariant |codes| == i
      invariant forall j :: 0 <= j < i ==> codes[j] == Code(w, IsNull(nulls, j), indices[j])
    {
      codes := codes + [Code(w, IsNull(nulls, i), indices[i])];
    }
    enc := DictColumn(|strs|, dict, CodeBytes(codes, w));
    hide CodeBytes;
    forall i: nat | i < |strs| ensures SlotHolds(enc, w, i, strs[i], IsNull(nulls, i)) {
      CodeStands(enc, codes, i, strs[i], IsNull(nulls, i), indices[i]);
    }
  }

  lemma CodeStands(enc: DictColumn, codes: seq<nat>, i: nat, s: Str, isNull: bool, idx: nat)
    requires enc.data == CodeBytes(codes, IndexWidth(|enc.dict|)) && i < |codes| && |enc.dict| < TWO32 - 1
    requires codes[i] == Code(IndexWidth(|enc.dict|), isNull, idx) && (!isNull ==> idx < |enc.dict| && enc.dict[idx] == s)
    ensures SlotHolds(enc, IndexWidth(|enc.dict|), i, s, isNull)
  {
    hide Number, NullMarker, IndexWidth, CodeBytes;
    MarkerFits(|enc.dict|);
    if !isNull { MarkerIsFree(|enc.dict|, idx); }
    CodeAt(codes, IndexWidth(|enc.dict|), i);
  }

  /** First pass: the distinct strings in order of first use, and every row's position. */
  method BuildDict(strs: seq<Str>, nulls: Marks) returns (dict: seq<Str>, indices: seq<nat>)
    ensures |indices| == |strs| && |dict| <= |strs|
    ensures forall i :: 0 <= i < |strs| && !IsNull(nulls, i) ==> indices[i] < |dict| && dict[indices[i]] == strs[i]
    ensures forall i, j :: 0 <= i < j < |dict| ==> dict[i] != dict[j]
  {
    var dictMap: map<Str, nat> := map[];
    dict, indices := [], [];
    for i := 0 to |strs|
      invariant |indices| == i && |dict| <= i && Indexed(dictMap, dict)
      invariant forall j :: 0 <= j < i && !IsNull(nulls, j) ==> indices[j] < |dict| && dict[indices[j]] == strs[j]
    {
      if IsNull(nulls, i) {
        indices := indices + [0];
        continue;
      }
      if strs[i] !in dictMap {
        dictMap := dictMap[strs[i] := |dict|];
        dict := dict + [strs[i]];
      }
      indices := indices + [dictMap[strs[i]]];
    }
  }

  datatype Slot = NullSlot | Text(s: Str) | OutOfRange

  function DecodeSlot(enc: DictColumn, i: nat): Slot
    requires IndexWidth(|enc.dict|) * i + IndexWidth(|enc.dict|) <= |enc.data|
  {
    var w := IndexWidth(|enc.dict|);
    var idx := Number(enc.data, w * i, w);
    if idx == NullMarker(w) then NullSlot
    else if idx < |enc.dict| then Text(enc.dict[idx])
    else OutOfRange
  }

  ghost predicate FullData(enc: DictColumn, n: nat) {
    forall i: nat :: i < n ==> IndexWidth(|enc.dict|) * i + IndexWidth(|enc.dict|) <= |enc.data|
  }

  /** The first `n` rows, None when an index is outside the dictionary. */
  function DecodedRows(enc: DictColumn, n: nat): (r: Option<Strings>)
    requires FullData(enc, n)
    ensures r.Some? ==> |r.value.strs| == n && |r.value.nulls| == n
  {
    if n == 0 then Some(Strings([], []))
    else
      var r := DecodedRows(enc, n - 1);
      if r.None? then None
      else match DecodeSlot(enc, n - 1)
        case OutOfRange => None
        case NullSlot => Some(Strings(r.value.strs + [[]], r.value.nulls + [true]))
        case Text(s) => Some(Strings(r.value.strs + [s], r.value.nulls + [false]))
  }

  method DecodeDict(enc: DictColumn) returns (out: Option<Strings>)
    requires FullData(enc, enc.rowCount)
    ensures out == DecodedRows(enc, enc.rowCount)
  {
    hide Number, IndexWidth, NullMarker;
    var w := IndexWidth(|enc.dict|);
    var marker := NullMarker(w);
    var strs: seq<Str>, nulls: Marks := [], [];
    for i: nat := 0 to enc.rowCount
      invariant DecodedRows(enc, i) == Some(Strings(strs, nulls))
    {
      var idx := Number(enc.data, w * i, w);
      if idx == marker {
        nulls, strs := nulls + [true], strs + [[]];
      } else if idx < |enc.dict| {
        nulls, strs := nulls + [false], strs + [enc.dict[idx]];
      } else {
        assert DecodedRows(enc, i + 1).None?;
        DecodeFails(enc, i + 1, enc.rowCount);
        return None;
      }
    }
    return Some(Strings(strs, nulls));
  }

  lemma {:induction false} DecodeFails(enc: DictColumn, m: nat, n: nat)
    requires m <= n && FullData(enc, n) && DecodedRows(enc, m).None?
    ensures DecodedRows(enc, n).None?
  {
    hide DecodeSlot;
    if m < n { DecodeFails(enc, m, n - 1); }
  }

  /** Whatever holds a column decodes to it: the same NULL rows, the same strings elsewhere. */
  lemma {:induction false} DictRoundTrip(enc: DictColumn, strs: seq<Str>, nulls: Marks, n: nat)
    requires DictHolds(enc, strs, nulls) && n <= |strs| < TWO32 - 1
    ensures FullData(enc, n)
    ensures DecodedRows(enc, n).Some? && SameStrings(DecodedRows(enc, n).value, strs, nulls, n)
  {
    hide DictHolds, DecodeSlot, FullData, IndexWidth;
    HoldsAllRows(enc, strs, nulls, n);
    if n > 0 {
      DictRoundTrip(enc, strs, nulls, n - 1);
      SlotRoundTrip(enc, strs, nulls, n - 1);
    }
  }

  lemma HoldsAllRows(enc: DictColumn, strs: seq<Str>, nulls: Marks, n: nat)
    requires DictHolds(enc, strs, nulls) && n <= |strs|
    ensures FullData(enc, n)
  {
    var w := IndexWidth(|enc.dict|);
    hide IndexWidth, Number, NullMarker;
    forall i: nat | i < n ensures w * i + w <= |enc.data| {
      assert SlotHolds(enc, w, i, strs[i], IsNull(nulls, i));
    }
  }

  lemma SlotRoundTrip(enc: DictColumn, strs: seq<Str>, nulls: Marks, i: nat)
    requires DictHolds(enc, strs, nulls) && i < |strs| < TWO32 - 1 && FullData(enc, i + 1)
    ensures DecodeSlot(enc, i) == if IsNull(nulls, i) then NullSlot else Text(strs[i])
  {
    var w := IndexWidth(|enc.dict|);
    assert SlotHolds(enc, w, i, strs[i], IsNull(nulls, i));
    if !IsNull(nulls, i) { MarkerIsFree(|enc.dict|, Number(enc.data, w * i, w)); }
    hide IndexWidth, NullMarker, Number;
  }

  // ----- run length -----

  datatype Run = Run(value: int, count: nat, isNull: bool)

  datatype Ints = Ints(ints: seq<int>, nulls: Marks)

  predicate Is64(x: int) {
    -TWO63 <= x < TWO63
  }

  function RunBytes(r: Run): (b: Buffer)
    requires Is64(r.value)
    ensures |b| == 16
  {
    Int64Bytes(r.value) + (LE(r.count, 4) + [if r.isNull then 1 else 0, 0, 0, 0])
  }

  ghost predicate GoodRuns(runs: seq<Run>) {
    forall i :: 0 <= i < |runs| ==> Is64(runs[i].value) && 0 < runs[i].count < TWO32
  }

  function RunsBytes(runs: seq<Run>): (b: Buffer)
    requires GoodRuns(runs)
    ensures |b| == 16 * |runs|
  {
    if runs == [] then [] else RunsBytes(runs[..|runs| - 1]) + RunBytes(runs[|runs| - 1])
  }

  /** The rows a list of runs stands for. */
  function Expand(runs: seq<Run>): (r: Ints)
    ensures |r.ints| == |r.nulls|
  {
    if runs == [] then Ints([], [])
    else
      var before, r := Expand(runs[..|runs| - 1]), runs[|runs| - 1];
      Ints(before.ints + seq(r.count, i => r.value), before.nulls + seq(r.count, i => r.isNull))
  }

  /** The rows as the encoder sees them: NULL rows hold zero. */
  function Plain(ints: seq<int>, nulls: Marks): (r: Ints)
    ensures |r.ints| == |ints| && |r.nulls| == |ints|
  {
    Ints(seq(|ints|, i requires 0 <= i < |ints| => if IsNull(nulls, i) then 0 else ints[i]),
         seq(|ints|, i requires 0 <= i < |ints| => IsNull(nulls, i)))
  }

  /** No two neighbouring runs could be one. */
  ghost predicate Maximal(runs: seq<Run>) {
    forall i :: 0 < i < |runs| ==> runs[i].value != runs[i - 1].value || runs[i].isNull != runs[i - 1].isNull
  }

  lemma ExtendRun(runs: seq<Run>)
    requires runs != []
    ensures var last := runs[|runs| - 1];
      var longer := runs[|runs| - 1 := last.(count := last.count + 1)];
      Expand(longer) == Ints(Expand(runs).ints + [last.value], Expand(runs).nulls + [last.isNull])
  {
    var last := runs[|runs| - 1];
    var longer := runs[|runs| - 1 := last.(count := last.count + 1)];
    assert longer[..|runs| - 1] == runs[..|runs| - 1];
    assert seq(last.count + 1, i => last.value) == seq(last.count, i => last.value) + [last.value];
    assert seq(last.count + 1, i => last.isNull) == seq(last.count, i => last.isNull) + [last.isNull];
  }

  lemma NewRun(runs: seq<Run>, value: int, isNull: bool)
    ensures Expand(runs + [Run(value, 1, isNull)]) == Ints(Expand(runs).ints + [value], Expand(runs).nulls + [isNull])
  {
    assert (runs + [Run(value, 1, isNull)])[..|runs|] == runs;
    assert seq(1, i => value) == [value] && seq(1, i => isNull) == [isNull];
  }

  method FindRuns(ints: seq<int>, nulls: Marks) returns (runs: seq<Run>)
    requires |ints| < TWO32 && forall i :: 0 <= i < |ints| ==> Is64(ints[i])
    ensures GoodRuns(runs) && Maximal(runs) && Expand(runs) == Plain(ints, nulls)
  {
    hide Expand;
    runs := [];
    NoRuns();
    for i := 0 to |ints|
      invariant GoodRuns(runs) && Maximal(runs) && (forall j :: 0 <= j < |runs| ==> runs[j].count <= i)
      invariant Expand(runs) == Plain(ints[..i], nulls)
    {
      var isNull := IsNull(nulls, i);
      var val := if isNull then 0 else ints[i];
      PlainMore(ints, nulls, i);
      if |runs| == 0 || runs[|runs| - 1].value != val || runs[|runs| - 1].isNull != isNull {
        NewRun(runs, val, isNull);
        runs := runs + [Run(val, 1, isNull)];
      } else {
        ExtendRun(runs);
        runs := runs[|runs| - 1 := runs[|runs| - 1].(count := runs[|runs| - 1].count + 1)];
      }
    }
    assert ints[..|ints|] == ints;
  }

  lemma NoRuns()
    ensures Expand([]) == Ints([], [])
  {
  }

  lemma PlainMore(ints: seq<int>, nulls: Marks, i: nat)
    requires i < |ints|
    ensures Plain(ints[..i + 1], nulls) ==
      Ints(Plain(ints[..i], nulls).ints + [if IsNull(nulls, i) then 0 else ints[i]], Plain(ints[..i], nulls).nulls + [IsNull(nulls, i)])
  {
  }

  /** The run at position `r` of encoded data. */
  function RunAt(data: Buffer, r: nat): (run: Run)
    requires 16 * r + 16 <= |data|
    ensures Is64(run.value)
  {
    Run(Int64Of(data[16 * r..16 * r + 8]), Number(data, 16 * r + 8, 4), data[16 * r + 12] == 1)
  }

  function RunsIn(data: Buffer, n: nat): (r: seq<Run>)
    requires 16 * n <= |data|
    ensures |r| == n
  {
    if n == 0 then [] else RunsIn(data, n - 1) + [RunAt(data, n - 1)]
  }

  lemma RunReads(data: Buffer, r: nat, run: Run)
    requires Is64(run.value) && run.count < TWO32 && Has(data, 16 * r, RunBytes(run))
    ensures RunAt(data, r) == run
  {
    hide LE, FromLE, Int64Bytes, Int64Of;
    var flag: Buffer := [if run.isNull then 1 else 0, 0, 0, 0];
    PowValues();
    HasSplit(data, 16 * r, Int64Bytes(run.value), LE(run.count, 4) + flag);
    HasSplit(data, 16 * r + 8, LE(run.count, 4), flag);
    NumberAt(data, 16 * r + 8, run.count, 4);
    Int64RoundTrip(run.value);
    assert data[16 * r + 12..16 * r + 16][0] == flag[0];
  }

  lemma {:induction false} RunsRead(data: Buffer, runs: seq<Run>)
    requires GoodRuns(runs) && Has(data, 0, RunsBytes(runs))
    ensures RunsIn(data, |runs|) == runs
  {
    hide RunBytes, RunAt;
    if runs != [] {
      var n := |runs| - 1;
      HasSplit(data, 0, RunsBytes(runs[..n]), RunBytes(runs[n]));
      RunsRead(data, runs[..n]);
      RunReads(data, n, runs[n]);
    }
  }

  method EncodeRLE(ints: seq<int>, nulls: Marks) returns (data: Buffer)
    requires |ints| < TWO32 && forall i :: 0 <= i < |ints| ==> Is64(ints[i])
    ensures var runs := RunsIn(data, |data| / 16);
      GoodRuns(runs) && Maximal(runs) && Expand(runs) == Plain(ints, nulls) && data == RunsBytes(runs)
  {
    hide RunBytes, RunAt, Expand, Plain, Maximal;
    var found := FindRuns(ints, nulls);
    data := [];
    for i := 0 to |found|
      invariant data == RunsBytes(found[..i])
    {
      assert found[..i + 1][..i] == found[..i];
      data := data + RunBytes(found[i]);
    }
    assert found[..|found|] == found;
    RunsRead(data, found);
  }

  /** The decoder stops at the row count; missing rows stay zero and not NULL. */
  function Cut(x: Ints, rowCount: nat): Ints
    requires |x.ints| == |x.nulls|
  {
    if |x.ints| >= rowCount then Ints(x.ints[..rowCount], x.nulls[..rowCount])
    else Ints(x.ints + seq(rowCount - |x.ints|, i => 0), x.nulls + seq(rowCount - |x.nulls|, i => false))
  }

  method DecodeRLE(data: Buffer, rowCount: nat) returns (out: Ints)
    ensures out == Cut(Expand(RunsIn(data, |data| / 16)), rowCount)
  {
    hide RunAt, Expand;
    var runCount := |data| / 16;
    ghost var all := Expand(RunsIn(data, runCount));
    NoRuns();
    var ints: seq<int>, nulls: Marks := [], [];
    var r := 0;
    while r < runCount && |ints| < rowCount
      invariant r <= runCount && |ints| == |nulls| <= rowCount
      invariant |ints| < rowCount ==> Ints(ints, nulls) == Expand(RunsIn(data, r))
      invariant |ints| == rowCount ==> Prefix(Ints(ints, nulls), all)
    {
      var run := RunAt(data, r);
      ghost var before := Ints(ints, nulls);
      ExpandMore(data, r);
      var c := 0;
      while c < run.count && |ints| < rowCount
        invariant c <= run.count && |ints| == |nulls| <= rowCount
        invariant ints == before.ints + seq(c, i => run.value) && nulls == before.nulls + seq(c, i => run.isNull)
      {
        assert seq(c + 1, i => run.value) == seq(c, i => run.value) + [run.value];
        assert seq(c + 1, i => run.isNull) == seq(c, i => run.isNull) + [run.isNull];
        nulls := nulls + [run.isNull];
        ints := ints + [run.value];
        c := c + 1;
      }
      if |ints| == rowCount {
        PrefixOfRun(before, run, c);
        ExpandPrefix(data, r + 1, runCount);
        PrefixTransitive(Ints(ints, nulls), Expand(RunsIn(data, r + 1)), all);
      }
      r := r + 1;
    }
    if |ints| < rowCount {
      out := Ints(ints + seq(rowCount - |ints|, i => 0), nulls + seq(rowCount - |nulls|, i => false));
    } else {
      out := Ints(ints, nulls);
      CutOfPrefix(out, all, rowCount);
    }
  }

  ghost predicate Prefix(a: Ints, b: Ints) {
    a.ints <= b.ints && a.nulls <= b.nulls
  }

  lemma ExpandMore(data: Buffer, r: nat)
    requires 16 * r + 16 <= |data|
    ensures var before, run := Expand(RunsIn(data, r)), RunAt(data, r);
      Expand(RunsIn(data, r + 1)) == Ints(before.ints + seq(run.count, i => run.value), before.nulls + seq(run.count, i => run.isNull))
  {
    hide RunAt;
    assert RunsIn(data, r + 1)[..r] == RunsIn(data, r);
  }

  lemma PrefixOfRun(before: Ints, run: Run, c: nat)
    requires c <= run.count
    ensures Prefix(Ints(before.ints + seq(c, i => run.value), before.nulls + seq(c, i => run.isNull)),
      Ints(before.ints + seq(run.count, i => run.value), before.nulls + seq(run.count, i => run.isNull)))
  {
  }

  lemma {:induction false} ExpandPrefix(data: Buffer, m: nat, n: nat)
    requires m <= n && 16 * n <= |data|
    ensures Prefix(Expand(RunsIn(data, m)), Expand(RunsIn(data, n)))
  {
    hide RunAt, Expand;
    if m < n {
      ExpandPrefix(data, m, n - 1);
      ExpandMore(data, n - 1);
    }
  }

  lemma PrefixTransitive(a: Ints, b: Ints, c: Ints)
    requires Prefix(a, b) && Prefix(b, c)
    ensures Prefix(a, c)
  {
  }

  lemma CutOfPrefix(a: Ints, b: Ints, n: nat)
    requires Prefix(a, b) && |a.ints| == |a.nulls| == n && |b.ints| == |b.nulls|
    ensures Cut(b, n) == a
  {
  }

  /** Decoding run-length data gives the same NULL rows and the same integers elsewhere. */
  lemma RLERoundTrip(ints: seq<int>, nulls: Marks, data: Buffer, runs: seq<Run>)
    requires GoodRuns(runs) && Expand(runs) == Plain(ints, nulls) && data == RunsBytes(runs)
    ensures Cut(Expand(RunsIn(data, |data| / 16)), |ints|) == Plain(ints, nulls)
  {
    hide RunBytes, Expand;
    HasAll(data);
    RunsRead(data, runs);
    assert |data| / 16 == |runs|;
  }

  // ----- plain strings -----

  datatype TextColumn = TextColumn(rowCount: nat, data: Buffer, offsets: seq<nat>)

  function Stored(strs: seq<Str>, nulls: Marks, i: nat): Str
    requires i < |strs|
  {
    if IsNull(nulls, i) then [] else strs[i]
  }

  function Concat(strs: seq<Str>, nulls: Marks, n: nat): Buffer
    requires n <= |strs|
  {
    if n == 0 then [] else Concat(strs, nulls, n - 1) + Stored(strs, nulls, n - 1)
  }

  /** Offsets cut the concatenation back into the stored strings. */
  ghost predicate TextHolds(enc: TextColumn, strs: seq<Str>, nulls: Marks) {
    && enc.rowCount == |strs| && |enc.offsets| == |strs| + 1
    && forall i: nat :: i < |strs| ==> SpanHolds(enc, i, Stored(strs, nulls, i))
  }

  ghost predicate SpanHolds(enc: TextColumn, i: nat, s: Str) {
    && i + 1 < |enc.offsets| && enc.offsets[i] <= enc.offsets[i + 1] <= |enc.data|
    && enc.data[enc.offsets[i]..enc.offsets[i + 1]] == s
  }

  lemma {:induction false} ConcatPrefix(strs: seq<Str>, nulls: Marks, m: nat, n: nat)
    requires m <= n <= |strs|
    ensures Concat(strs, nulls, m) <= Concat(strs, nulls, n)
  {
    if m < n { ConcatPrefix(strs, nulls, m, n - 1); }
  }

  lemma SpanOfConcat(strs: seq<Str>, nulls: Marks, i: nat)
    requires i < |strs|
    ensures var all, from, to := Concat(strs, nulls, |strs|), |Concat(strs, nulls, i)|, |Concat(strs, nulls, i + 1)|;
      from <= to <= |all| && all[from..to] == Stored(strs, nulls, i)
  {
    hide Stored;
    ConcatPrefix(strs, nulls, i + 1, |strs|);
    var head, all := Concat(strs, nulls, i + 1), Concat(strs, nulls, |strs|);
    assert all[..|head|] == head;
    assert all[|Concat(strs, nulls, i)|..|head|] == head[|Concat(strs, nulls, i)|..];
  }

  method EncodePlainStrings(strs: seq<Str>, nulls: Marks) returns (enc: TextColumn)
    requires |Concat(strs, nulls, |strs|)| < TWO32
    ensures TextHolds(enc, strs, nulls)
  {
    hide Stored, SpanHolds, TextHolds;
    var offsets: seq<nat>, dataBuf: Buffer := [], [];
    for i := 0 to |strs|
      invariant |offsets| == i && dataBuf == Concat(strs, nulls, i)
      invariant forall j :: 0 <= j < i ==> offsets[j] == |Concat(strs, nulls, j)|
    {
      offsets := offsets + [|dataBuf|];
      dataBuf := dataBuf + Stored(strs, nulls, i);
    }
    offsets := offsets + [|dataBuf|];
    enc := TextColumn(|strs|, dataBuf, offsets);
    LayoutHolds(enc, strs, nulls);
  }

  lemma LayoutHolds(enc: TextColumn, strs: seq<Str>, nulls: Marks)
    requires enc.rowCount == |strs| && |enc.offsets| == |strs| + 1 && enc.data == Concat(strs, nulls, |strs|)
    requires forall j :: 0 <= j <= |strs| ==> enc.offsets[j] == |Concat(strs, nulls, j)|
    ensures TextHolds(enc, strs, nulls)
  {
    hide Concat, Stored;
    forall i: nat | i < |strs| ensures SpanHolds(enc, i, Stored(strs, nulls, i)) {
      SpanOfConcat(strs, nulls, i);
      assert enc.offsets[i + 1] == |Concat(strs, nulls, i + 1)|;
    }
  }

  predicate SpanOk(enc: TextColumn, i: nat) {
    i + 1 < |enc.offsets| && enc.offsets[i] <= enc.offsets[i + 1] <= |enc.data|
  }

  /** The decoder: None when the offsets are too few or do not fit the data. */
  method DecodePlainStrings(enc: TextColumn) returns (out: Option<seq<Str>>)
    ensures out.Some? <==> |enc.offsets| >= enc.rowCount + 1 && forall i: nat :: i < enc.rowCount ==> SpanOk(enc, i)
    ensures out.Some? ==> |out.value| == enc.rowCount && forall i: nat :: i < enc.rowCount ==> SpanHolds(enc, i, out.value[i])
  {
    if |enc.offsets| < enc.rowCount + 1 {
      return None;
    }
    var strs: seq<Str> := [];
    for i: nat := 0 to enc.rowCount
      invariant |strs| == i
      invariant forall j: nat :: j < i ==> SpanOk(enc, j)
      invariant forall j: nat :: j < i ==> SpanHolds(enc, j, strs[j])
    {
      var start, end := enc.offsets[i], enc.offsets[i + 1];
      if start > end || end > |enc.data| {
        assert !SpanOk(enc, i);
        return None;
      }
      strs := strs + [enc.data[start..end]];
      hide SpanHolds;
    }
    return Some(strs);
  }

  /** Encoded strings decode, to the string that was there, the empty one for NULL. */
  lemma PlainStringsRoundTrip(enc: TextColumn, strs: seq<Str>, nulls: Marks)
    requires TextHolds(enc, strs, nulls)
    ensures |enc.offsets| >= enc.rowCount + 1 && forall i: nat :: i < enc.rowCount ==> SpanOk(enc, i)
    ensures forall i: nat, s :: i < enc.rowCount && SpanHolds(enc, i, s) ==> i < |strs| && s == if IsNull(nulls, i) then [] else strs[i]
  {
    forall i: nat | i < enc.rowCount ensures SpanOk(enc, i) {
      assert SpanHolds(enc, i, Stored(strs, nulls, i));
    }
    forall i: nat, s | i < enc.rowCount && SpanHolds(enc, i, s) ensures s == if IsNull(nulls, i) then [] else strs[i] {
      assert SpanHolds(enc, i, Stored(strs, nulls, i));
    }
  }

  // ----- plain words -----

  function WordsBytes(xs: seq<int>): (b: Buffer)
    requires forall i :: 0 <= i < |xs| ==> Is64(xs[i])
    ensures |b| == 8 * |xs|
  {
    if xs == [] then []
    else
      assert Is64(xs[|xs| - 1]);
      WordsBytes(xs[..|xs| - 1]) + Int64Bytes(xs[|xs| - 1])
  }

  function WordsIn(data: Buffer, n: nat): (r: seq<int>)
    requires 8 * n <= |data|
    ensures |r| == n
  {
    if n == 0 then [] else WordsIn(data, n - 1) + [Int64Of(data[8 * n - 8..8 * n])]
  }

  /** Integer, timestamp and float columns: eight bytes a row. */
  lemma {:induction false} WordsRoundTrip(data: Buffer, xs: seq<int>)
    requires forall i :: 0 <= i < |xs| ==> Is64(xs[i])
    requires Has(data, 0, WordsBytes(xs))
    ensures WordsIn(data, |xs|) == xs
  {
    hide Int64Bytes, Int64Of;
    if xs != [] {
      var n := |xs| - 1;
      HasSplit(data, 0, WordsBytes(xs[..n]), Int64Bytes(xs[n]));
      WordsRoundTrip(data, xs[..n]);
      Int64RoundTrip(xs[n]);
      assert data[8 * n..8 * n + 8] == Int64Bytes(xs[n]);
    }
  }
}
