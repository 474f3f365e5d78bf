/**
  The wildcard matcher behind the /flags, /vars and /rpcz pages
  (melon/builtin/common.cc).

  A pattern is a string in which '*' stands for any sequence of characters and
  '$' for exactly one character; every other character stands for itself.
  C strings are modelled without their terminating NUL: reading the NUL is
  reading at index |s|.
*/
module Wildcard {

  /** The pattern from position w on matches the input from position i on. */
  ghost predicate MatchesFrom(wild: string, w: nat, str: string, i: nat)
    requires w <= |wild| && i <= |str|
    decreases |wild| - w, 0
  {
    if w == |wild| then i == |str|
    else if wild[w] == '*' then MatchesAtOrAfter(wild, w + 1, str, i)
    else i < |str| && (wild[w] == '$' || wild[w] == str[i]) && MatchesFrom(wild, w + 1, str, i + 1)
  }

  /** The language of a pattern. */
  ghost predicate Matches(wild: string, str: string) {
    MatchesFrom(wild, 0, str, 0)
  }

  /** The pattern from position w on matches the input from some position at or after i. */
  ghost predicate MatchesAtOrAfter(wild: string, w: nat, str: string, i: nat)
    requires w <= |wild| && i <= |str| + 1
    decreases |wild| - w, 1
  {
    exists j: nat :: i <= j <= |str| && MatchesFrom(wild, w, str, j)
  }

  lemma AtOrAfterSplit(wild: string, w: nat, str: string, i: nat)
    requires w <= |wild| && i <= |str|
    ensures MatchesAtOrAfter(wild, w, str, i) <==>
            MatchesFrom(wild, w, str, i) || MatchesAtOrAfter(wild, w, str, i + 1)
  {
  }

  lemma AtOrAfterWitness(wild: string, w: nat, str: string, i: nat) returns (j: nat)
    requires w <= |wild| && i <= |str| + 1
    requires MatchesAtOrAfter(wild, w, str, i)
    ensures i <= j <= |str| && MatchesFrom(wild, w, str, j)
  {
    j :| i <= j <= |str| && MatchesFrom(wild, w, str, j);
  }

  /** A star-free stretch of the pattern consumes exactly one character per position. */
  lemma {:induction false} SegmentConsumes(wild: string, lo: nat, hi: nat, str: string, j: nat)
    requires lo <= hi <= |wild| && j <= |str|
    requires forall x :: lo <= x < hi ==> wild[x] != '*'
    requires MatchesFrom(wild, lo, str, j)
    ensures j + (hi - lo) <= |str|
    ensures MatchesFrom(wild, hi, str, j + (hi - lo))
    decreases hi - lo
  {
    if lo < hi {
      SegmentConsumes(wild, lo + 1, hi, str, j + 1);
    }
  }

  /**
    Why backtracking to the most recent star alone loses no match: once a later
    star at w is reached at input position i, every match that an earlier star
    (segment start mp, last tried at i - (w - mp)) could still produce by moving
    further right is also produced by the later star.
  */
  lemma LaterStarSubsumes(wild: string, mp: nat, w: nat, str: string, i: nat, cp: nat)
    requires mp <= w < |wild| && wild[w] == '*' && i <= |str|
    requires forall x :: mp <= x < w ==> wild[x] != '*'
    requires 1 <= cp <= |str| + 1 && i == cp - 1 + (w - mp)
    requires MatchesAtOrAfter(wild, mp, str, cp)
    ensures MatchesFrom(wild, w, str, i)
  {
    var j := AtOrAfterWitness(wild, mp, str, cp);
    SegmentConsumes(wild, mp, w, str, j);
  }

  lemma StarOnlyTail(wild: string, w: nat, str: string)
    requires w <= |wild|
    ensures MatchesFrom(wild, w, str, |str|) <==> forall x :: w <= x < |wild| ==> wild[x] == '*'
    decreases |wild| - w
  {
    if w < |wild| && wild[w] == '*' {
      StarOnlyTail(wild, w + 1, str);
    }
  }

  lemma LoneStarMatchesAll(wild: string, str: string, i: nat)
    requires wild != "" && wild[|wild| - 1] == '*' && i <= |str|
    ensures MatchesFrom(wild, |wild| - 1, str, i)
  {
    assert MatchesFrom(wild, |wild|, str, |str|);
  }

  /**
    The scanning state of url_wildcmp: pattern position w, input position i and,
    once a star was passed, the pattern position mp after it and the input
    position cp from which it is retried next.
  */
  datatype Scan = Scan(w: nat, i: nat, starred: bool, mp: nat, cp: nat)

  ghost predicate ValidScan(wild: string, str: string, c: Scan) {
    && c.mp <= c.w <= |wild|
    && c.i <= |str|
    && 1 <= c.cp
    && c.i == c.cp - 1 + (c.w - c.mp)
    && (forall x :: c.mp <= x < c.w ==> wild[x] != '*')
    && (!c.starred && c.i < |str| ==> c.w < |wild| && wild[c.w] == '*')
  }

  /** What the scan can still find: a match from here, or one from a later retry of the last star. */
  ghost predicate Remaining(wild: string, str: string, c: Scan)
    requires ValidScan(wild, str, c)
  {
    MatchesFrom(wild, c.w, str, c.i) || (c.starred && MatchesAtOrAfter(wild, c.mp, str, c.cp))
  }

  /** The loop invariant: the scan has lost no match of the whole and stayed within its step budget. */
  ghost predicate OnTrack(wild: string, str: string, goal: bool, c: Scan, steps: nat) {
    && ValidScan(wild, str, c)
    && (goal <==> Remaining(wild, str, c))
    && steps <= Rank(c.cp - 1, c.w, |wild|)
  }

  /** c * (m + 1) + w, the position of (c, w) in the lexicographic order of a table with m + 1 columns. */
  ghost function Rank(c: nat, w: nat, m: nat): nat {
    if c == 0 then w else m + 1 + Rank(c - 1, w, m)
  }

  lemma {:induction false} RankMonotone(c: nat, d: nat, w: nat, m: nat)
    requires c <= d
    ensures Rank(c, w, m) <= Rank(d, w, m)
    decreases d
  {
    if c < d {
      RankMonotone(c, d - 1, w, m);
    }
  }

  lemma {:induction false} RankShift(c: nat, w: nat, v: nat, m: nat)
    ensures Rank(c, w + v, m) == Rank(c, w, m) + v
  {
    if c != 0 {
      RankShift(c - 1, w, v, m);
    }
  }

  lemma RankTop(c: nat, w: nat, m: nat, n: nat)
    requires c <= n && w <= m
    ensures Rank(c, w, m) <= Rank(n, m, m)
  {
    RankMonotone(c, n, w, m);
    RankShift(n, w, m - w, m);
  }

  lemma {:induction false} RankBound(c: nat, w: nat, m: nat, n: nat)
    requires c <= n && w <= m
    ensures Rank(c, w, m) < (m + 1) * (n + 1)
  {
    if c == 0 {
      assert (m + 1) * (n + 1) >= m + 1;
    } else {
      RankBound(c - 1, w, m, n - 1);
      assert (m + 1) * (n + 1) == (m + 1) * n + (m + 1);
    }
  }

  lemma StarStep(wild: string, str: string, goal: bool, c: Scan, steps: nat)
    requires OnTrack(wild, str, goal, c, steps) && c.i < |str| && c.w + 1 < |wild| && wild[c.w] == '*'
    ensures var d := Scan(c.w + 1, c.i, true, c.w + 1, c.i + 1);
            OnTrack(wild, str, goal, d, steps + 1)
  {
    if c.starred && MatchesAtOrAfter(wild, c.mp, str, c.cp) {
      LaterStarSubsumes(wild, c.mp, c.w, str, c.i, c.cp);
    }
    AtOrAfterSplit(wild, c.w + 1, str, c.i);
    RankMonotone(c.cp - 1, c.i, c.w, |wild|);
    RankShift(c.i, c.w, 1, |wild|);
  }

  lemma AdvanceStep(wild: string, str: string, goal: bool, c: Scan, steps: nat)
    requires OnTrack(wild, str, goal, c, steps) && c.i < |str|
    requires c.w < |wild| && wild[c.w] != '*' && (wild[c.w] == str[c.i] || wild[c.w] == '$')
    ensures var d := c.(w := c.w + 1, i := c.i + 1);
            OnTrack(wild, str, goal, d, steps + 1)
  {
    RankShift(c.cp - 1, c.w, 1, |wild|);
  }

  lemma BacktrackStep(wild: string, str: string, goal: bool, c: Scan, steps: nat)
    requires OnTrack(wild, str, goal, c, steps) && c.i < |str|
    requires c.w == |wild| || (wild[c.w] != '*' && wild[c.w] != str[c.i] && wild[c.w] != '$')
    ensures c.starred
    ensures var d := c.(w := c.mp, i := c.cp, cp := c.cp + 1);
            OnTrack(wild, str, goal, d, steps + 1)
  {
    if c.w < |wild| {
    }
    AtOrAfterSplit(wild, c.mp, str, c.cp);
    RankShift(c.cp - 1, c.mp, c.w - c.mp, |wild|);
  }

  /** At the end of the input no retry of the last star can succeed: the segment no longer fits. */
  lemma EndOfInput(wild: string, str: string, c: Scan)
    requires ValidScan(wild, str, c) && c.i == |str|
    ensures Remaining(wild, str, c) <==> forall x :: c.w <= x < |wild| ==> wild[x] == '*'
  {
    if MatchesAtOrAfter(wild, c.mp, str, c.cp) {
      var j := AtOrAfterWitness(wild, c.mp, str, c.cp);
      SegmentConsumes(wild, c.mp, c.w, str, j);
    }
    StarOnlyTail(wild, c.w, str);
  }

  /**
    url_wildcmp. The answer is exact, and the two scanning loops together make
    at most (|wild| + 1) * (|str| + 1) iterations.
  */
  method UrlWildcmp(wild: string, str: string) returns (matched: bool, ghost steps: nat)
    ensures matched <==> Matches(wild, str)
    ensures steps <= (|wild| + 1) * (|str| + 1)
  {
    var w, i := 0, 0;
    steps := 0;
    while i < |str| && !(w < |wild| && wild[w] == '*')
      invariant w == i == steps && w <= |wild| && i <= |str|
      invariant Matches(wild, str) <==> MatchesFrom(wild, w, str, i)
    {
      RankBound(0, w, |wild|, |str|);
      steps := steps + 1;
      if w == |wild| {
        return false, steps;
      }
      if wild[w] != str[i] && wild[w] != '$' {
        return false, steps;
      }
      w, i := w + 1, i + 1;
    }

    matched, steps := ScanStars(wild, str, w, i, steps);
    RankBound(|str|, |wild|, |wild|, |str|);
  }

  /** The second and third loop of url_wildcmp, entered at a star or at the end of the input. */
  method ScanStars(wild: string, str: string, w0: nat, i0: nat, ghost steps0: nat)
    returns (matched: bool, ghost steps: nat)
    requires w0 <= |wild| && i0 <= |str| && steps0 <= w0
    requires i0 < |str| ==> w0 < |wild| && wild[w0] == '*'
    ensures matched <==> MatchesFrom(wild, w0, str, i0)
    ensures steps <= Rank(|str|, |wild|, |wild|) + 1
  {
    var w: nat, i: nat, mp: nat, cp: nat := w0, i0, w0, i0 + 1;
    steps := steps0;
    ghost var goal := MatchesFrom(wild, w0, str, i0);
    ghost var c := Scan(w, i, false, mp, cp);
    RankMonotone(0, i0, w0, |wild|);
    while i < |str|
      invariant c == Scan(w, i, c.starred, mp, cp)
      invariant OnTrack(wild, str, goal, c, steps)
      decreases |str| + 1 - cp, |wild| - w
    {
      if w < |wild| && wild[w] == '*' {
        w := w + 1;
        if w == |wild| {
          LoneStarMatchesAll(wild, str, i);
          RankTop(cp - 1, c.w, |wild|, |str|);
          return true, steps + 1;
        }
        StarStep(wild, str, goal, c, steps);
        mp, cp, c := w, i + 1, Scan(w, i, true, w, i + 1);
      } else if w < |wild| && (wild[w] == str[i] || wild[w] == '$') {
        AdvanceStep(wild, str, goal, c, steps);
        w, i, c := w + 1, i + 1, c.(w := w + 1, i := i + 1);
      } else {
        BacktrackStep(wild, str, goal, c, steps);
        w, i, cp, c := mp, cp, cp + 1, c.(w := mp, i := cp, cp := cp + 1);
      }
      steps := steps + 1;
    }
    RankTop(cp - 1, w, |wild|, |str|);
    EndOfInput(wild, str, c);
    matched := OnlyStars(wild, w);
  }

  /** The third loop of url_wildcmp: nothing but stars is left of the pattern. */
  method OnlyStars(wild: string, w0: nat) returns (b: bool)
    requires w0 <= |wild|
    ensures b <==> forall x :: w0 <= x < |wild| ==> wild[x] == '*'
  {
    var w := w0;
    while w < |wild| && wild[w] == '*'
      invariant w0 <= w <= |wild|
      invariant forall x :: w0 <= x < w ==> wild[x] == '*'
    {
      w := w + 1;
    }
    b := w == |wild|;
  }

  /** MatchAnyWildcard: some pattern of the list matches the name. */
  method MatchAnyWildcard(name: string, wildcards: seq<string>) returns (matched: bool)
    ensures matched <==> exists k :: 0 <= k < |wildcards| && Matches(wildcards[k], name)
  {
    for k := 0 to |wildcards|
      invariant forall x :: 0 <= x < k ==> !Matches(wildcards[x], name)
    {
      var m, _ := UrlWildcmp(wildcards[k], name);
      if m {
        return true;
      }
    }
    return false;
  }

  /** A pattern without wildcard characters matches itself and nothing else. */
  lemma LiteralMatchesItself(wild: string, str: string)
    requires '*' !in wild && '$' !in wild
    ensures Matches(wild, str) <==> wild == str
  {
    LiteralMatchesRest(wild, str, 0);
  }

  lemma {:induction false} LiteralMatchesRest(wild: string, str: string, k: nat)
    requires '*' !in wild && '$' !in wild && k <= |wild| && k <= |str|
    ensures MatchesFrom(wild, k, str, k) <==> wild[k..] == str[k..]
    decreases |wild| - k
  {
    if k < |wild| && k < |str| {
      LiteralMatchesRest(wild, str, k + 1);
      assert wild[k..] == [wild[k]] + wild[k + 1..] && str[k..] == [str[k]] + str[k + 1..];
    }
  }

  // ----- The language in terms of pieces of the input

  function Concat(pieces: seq<string>): string {
    if pieces == [] then "" else pieces[0] + Concat(pieces[1..])
  }

  /** What one character of a pattern stands for. */
  predicate StandsFor(c: char, piece: string) {
    if c == '*' then true else if c == '$' then |piece| == 1 else piece == [c]
  }

  /** The pieces, one for each character of the pattern, make up the input. */
  ghost predicate IsCover(wild: string, str: string, pieces: seq<string>) {
    && |pieces| == |wild| && Concat(pieces) == str
    && (forall k :: 0 <= k < |wild| ==> StandsFor(wild[k], pieces[k]))
  }

  lemma CoverNext(c: char, wild: string, piece: string, rest: string, pieces: seq<string>)
    requires StandsFor(c, piece) && IsCover(wild, rest, pieces)
    ensures IsCover([c] + wild, piece + rest, [piece] + pieces)
  {
    assert ([piece] + pieces)[1..] == pieces;
  }

  lemma {:induction false} CoverOfMatch(wild: string, w: nat, str: string, i: nat) returns (pieces: seq<string>)
    requires w <= |wild| && i <= |str| && MatchesFrom(wild, w, str, i)
    ensures IsCover(wild[w..], str[i..], pieces)
    decreases |wild| - w
  {
    if w == |wild| {
      pieces := [];
    } else {
      var j := i + 1;
      if wild[w] == '*' {
        j := AtOrAfterWitness(wild, w + 1, str, i);
      }
      pieces := CoverOfMatch(wild, w + 1, str, j);
      CoverNext(wild[w], wild[w + 1..], str[i..j], str[j..], pieces);
      assert wild[w..] == [wild[w]] + wild[w + 1..] && str[i..] == str[i..j] + str[j..];
      pieces := [str[i..j]] + pieces;
    }
  }

  lemma CoverRest(wild: string, str: string, pieces: seq<string>)
    requires IsCover(wild, str, pieces) && wild != ""
    ensures StandsFor(wild[0], pieces[0]) && |pieces[0]| <= |str| && pieces[0] == str[..|pieces[0]|]
    ensures IsCover(wild[1..], str[|pieces[0]|..], pieces[1..])
  {
    assert str == pieces[0] + Concat(pieces[1..]);
  }

  lemma {:induction false} MatchOfCover(wild: string, w: nat, str: string, i: nat, pieces: seq<string>)
    requires w <= |wild| && i <= |str| && IsCover(wild[w..], str[i..], pieces)
    ensures MatchesFrom(wild, w, str, i)
    decreases |wild| - w
  {
    if w < |wild| {
      CoverRest(wild[w..], str[i..], pieces);
      var j := i + |pieces[0]|;
      assert wild[w..][1..] == wild[w + 1..] && str[i..][|pieces[0]|..] == str[j..];
      MatchOfCover(wild, w + 1, str, j, pieces[1..]);
      assert wild[w] != '*' ==> pieces[0] == [str[i]];
    }
  }

  /** A pattern matches exactly the inputs that are cut into one piece for each of its characters. */
  lemma MatchesIff(wild: string, str: string)
    ensures Matches(wild, str) <==> exists pieces :: IsCover(wild, str, pieces)
  {
    assert wild[0..] == wild && str[0..] == str;
    if Matches(wild, str) {
      var pieces := CoverOfMatch(wild, 0, str, 0);
    }
    if exists pieces :: IsCover(wild, str, pieces) {
      var pieces :| IsCover(wild, str, pieces);
      MatchOfCover(wild, 0, str, 0, pieces);
    }
  }
}
