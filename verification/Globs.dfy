/** Matching a name against a pattern of literals and stars. */
module Globs {
  import opened KeyPath

  const STAR := "*"

  /** Literals and stars take turns, as they do in every parsed pattern; a literal may be empty. */
  predicate Alternating(pattern: seq<string>) {
    forall i :: 0 <= i < |pattern| - 1 ==> (pattern[i] == STAR <==> pattern[i + 1] != STAR)
  }

  predicate HasPrefix(s: string, p: string) {
    |p| <= |s| && EqualFold(s[..|p|], p)
  }

  predicate HasSuffix(s: string, p: string) {
    |p| <= |s| && EqualFold(s[|s| - |p|..], p)
  }

  /** Where the literal occurs first, or -1. */
  function Index(s: string, p: string, from: nat): (r: int)
    requires from <= |s|
    ensures r == -1 || (from <= r <= |s| && HasPrefix(s[r..], p))
    ensures forall k :: from <= k <= |s| && (r == -1 || k < r) ==> !HasPrefix(s[k..], p)
    decreases |s| - from
  {
    if HasPrefix(s[from..], p) then from
    else if from == |s| then -1
    else Index(s, p, from + 1)
  }

  // ----- what a match is -----

  function Stars(pattern: seq<string>): nat {
    if pattern == [] then 0 else Stars(pattern[1..]) + if pattern[0] == STAR then 1 else 0
  }

  /** The text of a pattern whose stars stand for the given strings. */
  function Filled(pattern: seq<string>, fills: seq<string>): string
    requires |fills| == Stars(pattern)
  {
    if pattern == [] then ""
    else if pattern[0] == STAR then fills[0] + Filled(pattern[1..], fills[1..])
    else pattern[0] + Filled(pattern[1..], fills)
  }

  ghost predicate Fills(s: string, pattern: seq<string>, fills: seq<string>) {
    |fills| == Stars(pattern) && EqualFold(s, Filled(pattern, fills))
  }

  /** Some way of filling the stars yields the string, up to letter case. */
  ghost predicate Matches(s: string, pattern: seq<string>) {
    exists fills :: Fills(s, pattern, fills)
  }

  /** The same, read from left to right. */
  predicate Splits(s: string, pattern: seq<string>)
    decreases |pattern|
  {
    if pattern == [] then s == ""
    else if pattern[0] == STAR then exists k :: 0 <= k <= |s| && Splits(s[k..], pattern[1..])
    else HasPrefix(s, pattern[0]) && Splits(s[|pattern[0]|..], pattern[1..])
  }

  lemma FoldConcat(s: string, a: string, b: string)
    ensures EqualFold(s, a + b) <==> |s| == |a| + |b| && EqualFold(s[..|a|], a) && EqualFold(s[|a|..], b)
  {
    assert |Lower(s)| == |s| && |Lower(a + b)| == |a| + |b|;
    if |s| == |a| + |b| {
      var k := |a|;
      assert Lower(s) == Lower(s[..k]) + Lower(s[k..]);
      assert Lower(a + b) == Lower(a) + Lower(b);
      if EqualFold(s, a + b) {
        assert Lower(s)[..k] == Lower(s[..k]) && Lower(a + b)[..k] == Lower(a);
        assert Lower(s)[k..] == Lower(s[k..]) && Lower(a + b)[k..] == Lower(b);
      }
    }
  }

  lemma {:induction false} SplitsMatches(s: string, pattern: seq<string>) returns (fills: seq<string>)
    requires Splits(s, pattern)
    ensures Fills(s, pattern, fills)
    decreases |pattern|
  {
    hide EqualFold;
    fills := [];
    if pattern != [] {
      if pattern[0] == STAR {
        var k :| 0 <= k <= |s| && Splits(s[k..], pattern[1..]);
        var rest := SplitsMatches(s[k..], pattern[1..]);
        fills := [s[..k]] + rest;
        assert fills[1..] == rest;
        FoldSelf(s[..k]);
        FoldLength(s[k..], Filled(pattern[1..], rest));
        FoldConcat(s, s[..k], Filled(pattern[1..], rest));
        assert Filled(pattern, fills) == s[..k] + Filled(pattern[1..], rest);
      } else {
        fills := SplitsMatches(s[|pattern[0]|..], pattern[1..]);
        FoldLength(s[|pattern[0]|..], Filled(pattern[1..], fills));
        FoldConcat(s, pattern[0], Filled(pattern[1..], fills));
        assert Filled(pattern, fills) == pattern[0] + Filled(pattern[1..], fills);
      }
    } else {
      FoldSelf("");
      assert Filled(pattern, fills) == "";
    }
  }

  lemma FoldLength(s: string, t: string)
    requires EqualFold(s, t)
    ensures |s| == |t|
  {
    assert |Lower(s)| == |Lower(t)|;
  }

  lemma FoldSelf(s: string)
    ensures EqualFold(s, s)
  {
  }

  lemma {:induction false} FillsSplits(s: string, pattern: seq<string>, fills: seq<string>)
    requires Fills(s, pattern, fills)
    ensures Splits(s, pattern)
    decreases |pattern|
  {
    if pattern == [] {
      assert |Lower(s)| == |Lower("")|;
    } else if pattern[0] == STAR {
      FoldConcat(s, fills[0], Filled(pattern[1..], fills[1..]));
      FillsSplits(s[|fills[0]|..], pattern[1..], fills[1..]);
    } else {
      FoldConcat(s, pattern[0], Filled(pattern[1..], fills));
      FillsSplits(s[|pattern[0]|..], pattern[1..], fills);
    }
  }

  lemma MatchesIffSplits(s: string, pattern: seq<string>)
    ensures Matches(s, pattern) <==> Splits(s, pattern)
  {
    if Matches(s, pattern) {
      var fills :| Fills(s, pattern, fills);
      FillsSplits(s, pattern, fills);
    }
    if Splits(s, pattern) {
      var fills := SplitsMatches(s, pattern);
    }
  }

  // ----- why the earliest occurrence is enough -----

  /** A star takes up whatever comes before. */
  lemma StarAbsorbs(s: string, j: nat, k: nat, pattern: seq<string>)
    requires j <= k <= |s| && pattern != [] && pattern[0] == STAR && Splits(s[k..], pattern)
    ensures Splits(s[j..], pattern)
  {
    var m :| 0 <= m <= |s[k..]| && Splits(s[k..][m..], pattern[1..]);
    assert s[k..][m..] == s[j..][k - j + m..];
  }

  lemma StarSplits(s: string, pattern: seq<string>) returns (k: nat)
    requires pattern != [] && pattern[0] == STAR && Splits(s, pattern)
    ensures k <= |s| && Splits(s[k..], pattern[1..])
  {
    k :| 0 <= k <= |s| && Splits(s[k..], pattern[1..]);
  }

  lemma EarliestFound(s: string, pattern: seq<string>, j: int)
    requires |pattern| >= 3 && pattern[0] == STAR && pattern[1] != STAR && pattern[2] == STAR
    requires j == Index(s, pattern[1], 0) && Splits(s, pattern)
    ensures 0 <= j <= |s| && j + |pattern[1]| <= |s| && Splits(s[j + |pattern[1]|..], pattern[2..])
  {
    hide HasPrefix, Index, Splits;
    var lit := pattern[1];
    var k := StarSplits(s, pattern);
    SplitsLiteral(s[k..], pattern[1..]);
    PrefixFits(s, k, lit);
    PrefixFits(s, j, lit);
    assert pattern[1..][1..] == pattern[2..];
    assert s[k..][|lit|..] == s[k + |lit|..];
    StarAbsorbs(s, j + |lit|, k + |lit|, pattern[2..]);
  }

  /** A literal between two stars may be matched where it occurs first. */
  lemma EarliestIsEnough(s: string, pattern: seq<string>, j: int)
    requires |pattern| >= 3 && pattern[0] == STAR && pattern[1] != STAR && pattern[2] == STAR
    requires j == Index(s, pattern[1], 0)
    ensures j != -1 ==> j + |pattern[1]| <= |s|
    ensures Splits(s, pattern) <==> j != -1 && Splits(s[j + |pattern[1]|..], pattern[2..])
  {
    hide EqualFold, Index;
    var lit := pattern[1];
    if Splits(s, pattern) {
      EarliestFound(s, pattern, j);
    }
    if j != -1 && Splits(s[j + |lit|..], pattern[2..]) {
      assert s[j..][|lit|..] == s[j + |lit|..];
      assert pattern[1..][1..] == pattern[2..];
      SplitsLiteral(s[j..], pattern[1..]);
    }
  }

  lemma LiteralAlone(s: string, pattern: seq<string>)
    requires |pattern| == 1 && pattern[0] != STAR
    ensures Splits(s, pattern) <==> |s| == |pattern[0]| && EqualFold(s, pattern[0])
  {
    hide EqualFold;
    var lit := pattern[0];
    SplitsLiteral(s, pattern);
    assert pattern[1..] == [];
    if |lit| <= |s| {
      assert Splits(s[|lit|..], pattern[1..]) <==> |s| == |lit|;
      if |s| == |lit| {
        assert s[..|lit|] == s;
      }
    }
  }

  /** A last literal after a star must be a suffix. */
  lemma LastIsSuffix(s: string, pattern: seq<string>)
    requires |pattern| == 2 && pattern[0] == STAR && pattern[1] != STAR
    ensures Splits(s, pattern) <==> HasSuffix(s, pattern[1])
  {
    hide EqualFold;
    var lit := pattern[1];
    if Splits(s, pattern) {
      var k := StarSplits(s, pattern);
      LiteralAlone(s[k..], pattern[1..]);
      assert k == |s| - |lit|;
    }
    if HasSuffix(s, lit) {
      LiteralAlone(s[|s| - |lit|..], pattern[1..]);
    }
  }

  lemma LoneStar(s: string, pattern: seq<string>)
    requires pattern == [STAR]
    ensures Splits(s, pattern)
  {
    assert s[|s|..] == "" && Splits(s[|s|..], pattern[1..]);
  }

  /**
   The greedy loop: an empty pattern takes anything, a reserved keyword is never taken, and any other string exactly
   when some filling of the stars yields it.
   */
  method MatchPattern(s: string, pattern: seq<string>, reserved: set<string>) returns (ok: bool)
    requires Alternating(pattern)
    ensures pattern == [] ==> ok
    ensures pattern != [] && s in reserved ==> !ok
    ensures pattern != [] && s !in reserved ==> (ok <==> Matches(s, pattern))
  {
    if pattern == [] {
      return true;
    }
    if s in reserved {
      return false;
    }
    MatchesIffSplits(s, pattern);
    hide Matches, Splits, Index, HasPrefix, HasSuffix, EqualFold;
    var rest := s;
    var i := 0;
    assert pattern[0..] == pattern;
    while i < |pattern|
      invariant 0 <= i <= |pattern|
      invariant Splits(rest, pattern[i..]) <==> Splits(s, pattern)
    {
      if pattern[i] == STAR {
        if i == |pattern| - 1 {
          LoneStar(rest, pattern[i..]);
          return true;
        }
        if i + 1 == |pattern| - 1 {
          LastIsSuffix(rest, pattern[i..]);
          return HasSuffix(rest, pattern[i + 1]);
        }
        var j := Index(rest, pattern[i + 1], 0);
        EarliestIsEnough(rest, pattern[i..], j);
        if j == -1 {
          return false;
        }
        PrefixFits(rest, j, pattern[i + 1]);
        rest := rest[j + |pattern[i + 1]|..];
        assert pattern[i..][2..] == pattern[i + 2..];
        i := i + 1;
      } else {
        SplitsLiteral(rest, pattern[i..]);
        if !HasPrefix(rest, pattern[i]) {
          return false;
        }
        PrefixFits(rest, 0, pattern[i]);
        rest := rest[|pattern[i]|..];
        assert pattern[i..][1..] == pattern[i + 1..];
      }
      i := i + 1;
    }
    assert pattern[i..] == [];
    NothingLeft(rest);
    ok := rest == "";
  }

  lemma NothingLeft(s: string)
    ensures Splits(s, []) <==> s == ""
  {
  }

  lemma PrefixFits(s: string, j: nat, p: string)
    requires j <= |s| && HasPrefix(s[j..], p)
    ensures j + |p| <= |s|
  {
  }

  lemma SplitsLiteral(s: string, pattern: seq<string>)
    requires pattern != [] && pattern[0] != STAR
    ensures Splits(s, pattern) <==> HasPrefix(s, pattern[0]) && Splits(s[|pattern[0]|..], pattern[1..])
  {
  }
}
