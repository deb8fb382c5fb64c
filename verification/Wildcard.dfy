/** Wildcard matching, where a star stands for any string. Strings are the characters before the terminating zero. */
module Wildcard {

  datatype Pointer = Null | String(chars: string)

  // ---------------------------------------------------------------- what a pattern means

  function Stars(p: string): nat {
    if p == [] then 0 else (if p[0] == '*' then 1 else 0) + Stars(p[1..])
  }

  /** The pattern with its stars replaced, in order, by the given strings. */
  function Substitute(p: string, fill: seq<string>): string
    requires |fill| == Stars(p)
  {
    if p == [] then []
    else if p[0] == '*' then fill[0] + Substitute(p[1..], fill[1..])
    else [p[0]] + Substitute(p[1..], fill)
  }

  /** `s` is `p` with every star replaced by some string. */
  ghost predicate Stands(p: string, s: string) { exists fill :: |fill| == Stars(p) && Substitute(p, fill) == s }

  // ---------------------------------------------------------------- the same, character by character

  ghost predicate Matches(p: string, s: string)
    decreases |p|
  {
    if p == [] then s == []
    else if p[0] == '*' then exists k :: 0 <= k <= |s| && Matches(p[1..], s[k..])
    else s != [] && s[0] == p[0] && Matches(p[1..], s[1..])
  }

  lemma {:induction false} MatchesIfStands(p: string, fill: seq<string>)
    requires |fill| == Stars(p)
    ensures Matches(p, Substitute(p, fill))
    decreases |p|
  {
    if p != [] {
      var s := Substitute(p, fill);
      if p[0] == '*' {
        MatchesIfStands(p[1..], fill[1..]);
        assert s[|fill[0]|..] == Substitute(p[1..], fill[1..]);
      } else {
        MatchesIfStands(p[1..], fill);
        assert s[1..] == Substitute(p[1..], fill);
      }
    }
  }

  lemma SubstituteStar(p: string, head: string, rest: seq<string>)
    requires p != [] && p[0] == '*' && |rest| == Stars(p[1..])
    ensures |[head] + rest| == Stars(p) && Substitute(p, [head] + rest) == head + Substitute(p[1..], rest)
  {
    assert ([head] + rest)[1..] == rest;
  }

  lemma StandsAfterStar(p: string, s: string, k: nat)
    requires p != [] && p[0] == '*' && k <= |s| && Stands(p[1..], s[k..])
    ensures Stands(p, s)
  {
    var rest :| |rest| == Stars(p[1..]) && Substitute(p[1..], rest) == s[k..];
    SubstituteStar(p, s[..k], rest);
    assert s == s[..k] + s[k..];
  }

  lemma StandsAfterChar(p: string, s: string)
    requires p != [] && p[0] != '*' && s != [] && s[0] == p[0] && Stands(p[1..], s[1..])
    ensures Stands(p, s)
  {
    var rest :| |rest| == Stars(p[1..]) && Substitute(p[1..], rest) == s[1..];
    assert s == [s[0]] + s[1..];
    assert Substitute(p, rest) == s;
  }

  lemma {:induction false} StandsIfMatches(p: string, s: string)
    requires Matches(p, s)
    ensures Stands(p, s)
    decreases |p|
  {
    if p == [] {
      var none: seq<string> := [];
      assert Substitute(p, none) == s;
    } else if p[0] == '*' {
      var k :| 0 <= k <= |s| && Matches(p[1..], s[k..]);
      StandsIfMatches(p[1..], s[k..]);
      StandsAfterStar(p, s, k);
    } else {
      StandsIfMatches(p[1..], s[1..]);
      StandsAfterChar(p, s);
    }
  }

  lemma MatchesIsStands(p: string, s: string)
    ensures Matches(p, s) <==> Stands(p, s)
  {
    if Matches(p, s) { StandsIfMatches(p, s); }
    if Stands(p, s) {
      var fill :| |fill| == Stars(p) && Substitute(p, fill) == s;
      MatchesIfStands(p, fill);
    }
  }

  // ---------------------------------------------------------------- why the empty suffix need not be tried

  /** The empty string matches exactly the patterns made of stars. */
  lemma {:induction false} OnlyStarsMatchEmpty(p: string)
    ensures Matches(p, []) <==> forall i | 0 <= i < |p| :: p[i] == '*'
  {
    if p != [] {
      var empty: string := [];
      OnlyStarsMatchEmpty(p[1..]);
      assert empty[0..] == empty;
      assert forall i | 0 <= i < |p| - 1 :: p[1..][i] == p[i + 1];
      assert (forall i | 0 <= i < |p| :: p[i] == '*') <==>
          p[0] == '*' && forall i | 0 <= i < |p[1..]| :: p[1..][i] == '*' by {
        if p[0] == '*' && forall i | 0 <= i < |p[1..]| :: p[1..][i] == '*' {
          forall i | 0 <= i < |p| ensures p[i] == '*' { assert i > 0 ==> p[1..][i - 1] == p[i]; }
        }
      }
    }
  }

  /** A nonempty pattern that matches the empty string matches every string: a shorter suffix adds nothing. */
  lemma EmptyMatchIsCovered(p: string, s: string)
    requires p != [] && Matches(p, [])
    ensures Matches(p, s)
  {
    OnlyStarsMatchEmpty(p);
    OnlyStarsMatchEmpty(p[1..]);
    assert p[0] == '*' && s[|s|..] == [];
    assert Matches(p[1..], s[|s|..]);
  }

  // ---------------------------------------------------------------- the matcher

  method MatchWildcard(pattern: Pointer, str: Pointer) returns (r: bool)
    ensures r <==> pattern.String? && str.String? && Stands(pattern.chars, str.chars)
  {
    if pattern.Null? || str.Null? { return false; }
    r := MatchFrom(pattern.chars, str.chars);
    MatchesIsStands(pattern.chars, str.chars);
  }

  method MatchFrom(p: string, s: string) returns (r: bool)
    ensures r <==> Matches(p, s)
    decreases |p|, 0
  {
    var i, j := 0, 0;
    while j < |s|
      invariant 0 <= i <= |p| && 0 <= j <= |s|
      invariant Matches(p, s) <==> Matches(p[i..], s[j..])
    {
      assert i < |p| ==> p[i..][0] == p[i] && p[i..][1..] == p[i + 1..];
      assert s[j..][1..] == s[j + 1..];
      if i < |p| && p[i] == '*' {
        i := i + 1;
        if i == |p| {
          assert s[j..][|s| - j..] == [];
          return true;
        }
        r := MatchSomeSuffix(p[i..], s[j..]);
        return;
      }
      if i == |p| || p[i] != s[j] { return false; }
      i := i + 1;
      j := j + 1;
    }
    OnlyStarsMatchEmpty(p[i..]);
    ghost var start := i;
    while i < |p| && p[i] == '*'
      invariant start <= i <= |p| && forall k | start <= k < i :: p[k] == '*'
    {
      i := i + 1;
    }
    r := i == |p|;
    assert s[j..] == [] && (i < |p| ==> p[start..][i - start] != '*');
  }

  /** Try the pattern after a star at every suffix of `s` but the empty one. */
  method MatchSomeSuffix(p: string, s: string) returns (r: bool)
    requires p != [] && s != []
    ensures r <==> exists k :: 0 <= k <= |s| && Matches(p, s[k..])
    decreases |p|, 1
  {
    var j := 0;
    while j < |s|
      invariant 0 <= j <= |s|
      invariant forall k | 0 <= k < j :: !Matches(p, s[k..])
    {
      r := MatchFrom(p, s[j..]);
      if r { return true; }
      j := j + 1;
    }
    if Matches(p, s[|s|..]) { EmptyMatchIsCovered(p, s[0..]); }
    return false;
  }
}
