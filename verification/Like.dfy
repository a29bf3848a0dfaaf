/** SQL LIKE over runes: '%' stands for any run, '_' for one rune. */
module Like {
  /** The meaning of LIKE: whether `s` from `i` on matches `p` from `j` on. */
  ghost predicate Matches(s: string, p: string, i: nat, j: nat)
    requires i <= |s| && j <= |p|
    decreases |p| - j, |s| - i
  {
    if j == |p| then i == |s|
    else if p[j] == '%' then Matches(s, p, i, j + 1) || (i < |s| && Matches(s, p, i + 1, j))
    else i < |s| && (p[j] == '_' || p[j] == s[i]) && Matches(s, p, i + 1, j + 1)
  }

  /** The matcher's loop from a given state: `star` is the latest '%' passed (-1 for none)
      and `from` where its run currently ends. */
  function Scan(s: string, p: string, i: nat, j: nat, star: int, from: nat): bool
    requires i <= |s| && j <= |p| && -1 <= star < j && from <= i
    decreases |s| - from, |p| - j
  {
    if i == |s| then TrailingPercents(p, j)
    else if j < |p| && (p[j] == '_' || p[j] == s[i]) then Scan(s, p, i + 1, j + 1, star, from)
    else if j < |p| && p[j] == '%' then Scan(s, p, i, j + 1, j, i)
    else if star != -1 then Scan(s, p, from + 1, star + 1, star, from + 1)
    else false
  }

  predicate TrailingPercents(p: string, j: nat)
    requires j <= |p|
    decreases |p| - j
  {
    j == |p| || (p[j] == '%' && TrailingPercents(p, j + 1))
  }

  /** The two-pointer matcher. It tests for a literal match before it tests for '%'. */
  method LikeMatch(s: string, pattern: string) returns (matched: bool)
    ensures matched == Scan(s, pattern, 0, 0, -1, 0)
    ensures '%' !in s ==> (matched <==> Matches(s, pattern, 0, 0))
  {
    if '%' !in s { ScanIsLike(s, pattern); }
    var i, j := 0, 0;
    var starJ, matchI := -1, 0;
    while i < |s|
      invariant 0 <= matchI <= i <= |s| && 0 <= j <= |pattern| && -1 <= starJ < j
      invariant Scan(s, pattern, i, j, starJ, matchI) == Scan(s, pattern, 0, 0, -1, 0)
      decreases |s| - matchI, |pattern| - j
    {
      if j < |pattern| && (pattern[j] == '_' || pattern[j] == s[i]) {
        i := i + 1;
        j := j + 1;
      } else if j < |pattern| && pattern[j] == '%' {
        starJ := j;
        matchI := i;
        j := j + 1;
      } else if starJ != -1 {
        j := starJ + 1;
        matchI := matchI + 1;
        i := matchI;
      } else {
        return false;
      }
    }
    while j < |pattern| && pattern[j] == '%'
      invariant 0 <= j <= |pattern|
      invariant TrailingPercents(pattern, j) == Scan(s, pattern, 0, 0, -1, 0)
    {
      j := j + 1;
    }
    matched := j == |pattern|;
  }

  lemma {:induction false} EndMatches(s: string, p: string, j: nat)
    requires j <= |p|
    ensures Matches(s, p, |s|, j) <==> TrailingPercents(p, j)
    decreases |p| - j
  {
    if j < |p| { EndMatches(s, p, j + 1); }
  }

  /** A '%' also matches after its run is extended to the left. */
  lemma {:induction false} PercentAbsorbs(s: string, p: string, i: nat, k: nat, j: nat)
    requires i <= k <= |s| && j < |p| && p[j] == '%' && Matches(s, p, k, j)
    ensures Matches(s, p, i, j)
    decreases k - i
  {
    if i < k {
      PercentAbsorbs(s, p, i + 1, k, j);
    }
  }

  /** A pattern piece without '%' consumes one rune per pattern rune. */
  lemma {:induction false} FixedPiece(s: string, p: string, i: nat, a: nat, b: nat)
    requires i <= |s| && a <= b <= |p| && (forall x :: a <= x < b ==> p[x] != '%') && Matches(s, p, i, a)
    ensures i + (b - a) <= |s| && Matches(s, p, i + (b - a), b)
    decreases b - a
  {
    if a < b { FixedPiece(s, p, i + 1, a + 1, b); }
  }

  /** A match that starts with the '%' at `star` reaches the pattern position `j` no
      earlier than the fixed piece between them allows. */
  lemma {:induction false} StarReaches(s: string, p: string, i: nat, star: nat, j: nat) returns (k: nat)
    requires i <= |s| && star < j <= |p| && p[star] == '%' && (forall x :: star < x < j ==> p[x] != '%')
    requires Matches(s, p, i, star)
    ensures i + (j - star - 1) <= k <= |s| && Matches(s, p, k, j)
    decreases |s| - i
  {
    if Matches(s, p, i, star + 1) {
      FixedPiece(s, p, i, star + 1, j);
      k := i + (j - star - 1);
    } else {
      k := StarReaches(s, p, i + 1, star, j);
    }
  }

  /** Whether the loop's state can still lead to a match. */
  ghost predicate Open(s: string, p: string, i: nat, j: nat, star: int, from: nat)
    requires i <= |s| && j <= |p| && -1 <= star < j && from <= i
  {
    Matches(s, p, i, j) || (star >= 0 && from < |s| && Matches(s, p, from + 1, star))
  }

  /** Only the latest '%' needs to be reconsidered. */
  lemma {:induction false} ScanIsOpen(s: string, p: string, i: nat, j: nat, star: int, from: nat)
    requires '%' !in s
    requires i <= |s| && j <= |p| && -1 <= star < j && from <= i
    requires star >= 0 ==> p[star] == '%' && (forall x :: star < x < j ==> p[x] != '%') && i - from == j - star - 1
    ensures Scan(s, p, i, j, star, from) <==> Open(s, p, i, j, star, from)
    decreases |s| - from, |p| - j
  {
    if i == |s| {
      EndMatches(s, p, j);
      if star >= 0 && from < |s| && Matches(s, p, from + 1, star) {
        var k := StarReaches(s, p, from + 1, star, j);
        assert false;
      }
    } else if j < |p| && (p[j] == '_' || p[j] == s[i]) {
      assert p[j] != '%';
      ScanIsOpen(s, p, i + 1, j + 1, star, from);
    } else if j < |p| && p[j] == '%' {
      ScanIsOpen(s, p, i, j + 1, j, i);
      if star >= 0 && from < |s| && Matches(s, p, from + 1, star) {
        var k := StarReaches(s, p, from + 1, star, j);
        PercentAbsorbs(s, p, i, k, j);
      }
    } else if star != -1 {
      ScanIsOpen(s, p, from + 1, star + 1, star, from + 1);
    }
  }

  lemma ScanIsLike(s: string, p: string)
    requires '%' !in s
    ensures Scan(s, p, 0, 0, -1, 0) <==> Matches(s, p, 0, 0)
  {
    ScanIsOpen(s, p, 0, 0, -1, 0);
  }

  // ----- subjects that contain '%' -----

  function Blanks(n: nat): (r: string)
    ensures |r| == n && forall i :: 0 <= i < n ==> r[i] == '_'
  {
    seq(n, _ => '_')
  }

  /** `_` for every rune before the '%' of the subject, '%', then one `_` too many for a
      matcher that spends the '%' on the rune '%'. */
  function Witness(s: string, at: nat): string
    requires at < |s|
  {
    Blanks(at) + "%" + Blanks(|s| - at)
  }

  lemma {:induction false} BlanksMatch(s: string, p: string, i: nat, j: nat)
    requires i <= |s| && j <= |p| && |s| - i == |p| - j && forall x :: j <= x < |p| ==> p[x] == '_'
    ensures Matches(s, p, i, j)
    decreases |s| - i
  {
    if i < |s| { BlanksMatch(s, p, i + 1, j + 1); }
  }

  lemma {:induction false} WitnessMatches(s: string, at: nat, i: nat)
    requires i <= at < |s|
    ensures Matches(s, Witness(s, at), i, i)
    decreases at - i
  {
    var p := Witness(s, at);
    if i == at {
      BlanksMatch(s, p, i, i + 1);
    } else {
      WitnessMatches(s, at, i + 1);
    }
  }

  lemma {:induction false} WitnessIsMissed(s: string, at: nat, i: nat)
    requires at < |s| && s[at] == '%' && i <= |s|
    ensures !Scan(s, Witness(s, at), i, i, -1, 0)
    decreases |s| - i
  {
    if i < |s| {
      assert i < at ==> Witness(s, at)[i] == '_';
      assert i == at ==> Witness(s, at)[i] == '%';
      assert i > at ==> Witness(s, at)[i] == '_';
      WitnessIsMissed(s, at, i + 1);
    } else {
      assert Witness(s, at)[i] == '_';
    }
  }

  /** The matcher implements LIKE for every pattern exactly on the subjects without '%'. */
  lemma CorrectIffNoPercent(s: string)
    ensures (forall p :: Scan(s, p, 0, 0, -1, 0) <==> Matches(s, p, 0, 0)) <==> '%' !in s
  {
    if '%' in s {
      var at :| 0 <= at < |s| && s[at] == '%';
      WitnessMatches(s, at, 0);
      WitnessIsMissed(s, at, 0);
      assert !(Scan(s, Witness(s, at), 0, 0, -1, 0) <==> Matches(s, Witness(s, at), 0, 0));
    } else {
      forall p: string ensures Scan(s, p, 0, 0, -1, 0) <==> Matches(s, p, 0, 0) { ScanIsLike(s, p); }
    }
  }
}
