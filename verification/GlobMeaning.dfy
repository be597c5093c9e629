/** What the patterns of Glob mean, without the matcher: which prefixes of a string a pattern stands for. */
module GlobMeaning {
  import opened Glob

  /** Equal, or the two cases of one letter, which are 32 apart. */
  predicate SameLetter(a: char, b: char) {
    || a == b
    || ('a' <= a <= 'z' && b as int == a as int - 32)
    || ('a' <= b <= 'z' && a as int == b as int - 32)
  }

  /** The pattern stands for the run r when rest comes after it. '$' ends the pattern, whatever comes after it. */
  ghost predicate Means(p: string, r: string, rest: string)
    decreases |p|
  {
    if p == "" then r == ""
    else if p[0] == '$' then r == "" && rest == ""
    else if p[0] == '*' then
      if |p| > 1 && p[1] == '*' then exists k: nat :: k <= |r| && Means(p[2..], r[k..], rest)
      else exists k: nat :: k <= |r| && '/' !in r[..k] && Means(p[1..], r[k..], rest)
    else r != "" && (p[0] == '?' || SameLetter(p[0], r[0])) && Means(p[1..], r[1..], rest)
  }

  /** Lower brings together the two cases of a letter, and nothing else. */
  lemma LowerIs(a: char, b: char)
    ensures Lower(a) == Lower(b) <==> SameLetter(a, b)
  {
  }

  /** A star stops before the first slash, and can go on until there. */
  lemma {:induction false} SegmentIs(s: string, k: nat)
    requires k <= |s|
    ensures k <= SegmentLength(s) <==> '/' !in s[..k]
    decreases k
  {
    if k > 0 {
      assert s[..k] == [s[0]] + s[1..][..k - 1];
      SegmentIs(s[1..], k - 1);
    }
  }

  /** Some run lengths match a prefix exactly when the pattern stands for it. */
  lemma {:induction false} LengthIsMeaning(p: string, s: string, n: nat)
    requires n <= |s|
    ensures Means(p, s[..n], s[n..]) <==> exists stars :: Length(p, s, stars) == n
    decreases |p|
  {
    if Means(p, s[..n], s[n..]) { var stars := MeantMatches(p, s, n); }
    forall stars | Length(p, s, stars) == n
      ensures Means(p, s[..n], s[n..])
    {
      MatchIsMeant(p, s, stars);
    }
  }

  lemma {:induction false} MatchIsMeant(p: string, s: string, stars: seq<nat>)
    requires Length(p, s, stars) != -1
    ensures var n := Length(p, s, stars); Means(p, s[..n], s[n..])
    decreases |p|
  {
    var n := Length(p, s, stars);
    if p == "" || p[0] == '$' {
    } else if p[0] == '*' {
      MatchIsMeant(p[StarWidth(p)..], s[stars[0]..], stars[1..]);
      StarMeant(p, s, stars[0], n);
    } else {
      LowerIs(p[0], s[0]);
      MatchIsMeant(p[1..], s[1..], stars);
      assert s[..n][1..] == s[1..][..n - 1] && s[1..][n - 1..] == s[n..];
    }
  }

  lemma StarMeant(p: string, s: string, k: nat, n: nat)
    requires p != "" && p[0] == '*' && k <= n <= |s| && k <= StarBound(p, s)
    requires Means(p[StarWidth(p)..], s[k..][..n - k], s[k..][n - k..])
    ensures Means(p, s[..n], s[n..])
  {
    assert s[..n][k..] == s[k..][..n - k] && s[k..][n - k..] == s[n..];
    SegmentIs(s, k);
    assert s[..n][..k] == s[..k];
  }

  lemma {:induction false} MeantMatches(p: string, s: string, n: nat) returns (stars: seq<nat>)
    requires n <= |s| && Means(p, s[..n], s[n..])
    ensures Length(p, s, stars) == n
    decreases |p|
  {
    if p == "" || p[0] == '$' {
      stars := [];
    } else if p[0] == '*' {
      var k := StarRun(p, s, n);
      assert s[..n][k..] == s[k..][..n - k] && s[k..][n - k..] == s[n..];
      var rest := MeantMatches(p[StarWidth(p)..], s[k..], n - k);
      stars := [k] + rest;
      assert stars[1..] == rest;
      SegmentIs(s, k);
      assert s[..n][..k] == s[..k];
    } else {
      LowerIs(p[0], s[0]);
      assert s[..n][1..] == s[1..][..n - 1] && s[1..][n - 1..] == s[n..];
      stars := MeantMatches(p[1..], s[1..], n - 1);
    }
  }

  lemma StarRun(p: string, s: string, n: nat) returns (k: nat)
    requires p != "" && p[0] == '*' && n <= |s| && Means(p, s[..n], s[n..])
    ensures k <= n && Means(p[StarWidth(p)..], s[..n][k..], s[n..])
    ensures StarWidth(p) == 1 ==> '/' !in s[..n][..k]
  {
    var r, rest := s[..n], s[n..];
    if StarWidth(p) == 2 {
      k :| k <= |r| && Means(p[2..], r[k..], rest);
    } else {
      k :| k <= |r| && '/' !in r[..k] && Means(p[1..], r[k..], rest);
    }
  }

  /** Without alternatives, the matcher says no exactly when the pattern stands for no prefix of the string. */
  lemma GreedyIsMeaning(p: string, s: string)
    ensures Greedy(p, s) != -1 <==> exists n: nat :: n <= |s| && Means(p, s[..n], s[n..])
    ensures Greedy(p, s) != -1 ==> Means(p, s[..Greedy(p, s)], s[Greedy(p, s)..])
  {
    hide Means, Length;
    if Greedy(p, s) != -1 {
      MatchIsMeant(p, s, Stars(p, s));
    }
    forall n: nat | n <= |s| && Means(p, s[..n], s[n..])
      ensures Greedy(p, s) != -1
    {
      var stars := MeantMatches(p, s, n);
      GreedyIsLongestFirst(p, s, stars);
    }
  }
}
