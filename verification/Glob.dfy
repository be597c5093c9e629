/** The glob matcher mg_match_prefix in dev/svr/3rd/mongoose.c.  A pattern is matched against a
  prefix of a string: '?' is any character, '*' any run without '/', '**' any run, '$' the end of
  the string, '|' separates alternatives, and letters match without regard to case.

  Strings and patterns end at their NUL, so neither holds one; the byte after a pattern is not '*'. */
module Glob {

  function Lower(c: char): char {
    if 'A' <= c <= 'Z' then c - 'A' + 'a' else c
  }

  /** strcspn(s, "/"). */
  function SegmentLength(s: string): (n: nat)
    ensures n <= |s|
  {
    if s == "" || s[0] == '/' then 0 else 1 + SegmentLength(s[1..])
  }

  function Plus(n: nat, r: int): int {
    if r == -1 then -1 else n + r
  }

  /** The number of stars that make up the wildcard a pattern begins with. */
  function StarWidth(p: string): (w: nat)
    requires p != "" && p[0] == '*'
    ensures 1 <= w <= |p|
  {
    if |p| > 1 && p[1] == '*' then 2 else 1
  }

  /** The longest run that wildcard can stand for. */
  function StarBound(p: string, s: string): (n: nat)
    requires p != "" && p[0] == '*'
    ensures n <= |s|
  {
    if StarWidth(p) == 2 then |s| else SegmentLength(s)
  }

  /** A pattern that consumes one character, and does. */
  predicate Takes(p: char, s: string) {
    s != "" && (p == '?' || Lower(p) == Lower(s[0]))
  }

  // ---- what it means to match ----------------------------------------------

  /** The length of prefix matched when the wildcards in turn stand for runs of the lengths stars;
    -1 when that is no match. */
  function Length(p: string, s: string, stars: seq<nat>): (r: int)
    ensures -1 <= r <= |s|
    decreases |p|
  {
    if p == "" then if stars == [] then 0 else -1
    else if p[0] == '$' then if s == "" && stars == [] then 0 else -1
    else if p[0] == '*' then
      if stars == [] || stars[0] > StarBound(p, s) then -1
      else Plus(stars[0], Length(p[StarWidth(p)..], s[stars[0]..], stars[1..]))
    else if Takes(p[0], s) then Plus(1, Length(p[1..], s[1..], stars))
    else -1
  }

  /** a is no longer run-for-run than b, read from the left. */
  predicate NoLonger(a: seq<nat>, b: seq<nat>) {
    a == [] || (b != [] && (a[0] < b[0] || (a[0] == b[0] && NoLonger(a[1..], b[1..]))))
  }

  // ---- the matcher as a function -------------------------------------------

  /** Wildcards take as much as they can, the first one first. */
  function Greedy(p: string, s: string): (r: int)
    ensures -1 <= r <= |s|
    decreases |p|, 0
  {
    if p == "" then 0
    else if p[0] == '$' then if s == "" then 0 else -1
    else if p[0] == '*' then GreedyFrom(p[StarWidth(p)..], s, StarBound(p, s))
    else if Takes(p[0], s) then Plus(1, Greedy(p[1..], s[1..]))
    else -1
  }

  /** The rest of the pattern after a run of k, or else k - 1, or else ... */
  function GreedyFrom(p: string, s: string, k: nat): (r: int)
    requires k <= |s|
    ensures -1 <= r <= |s|
    decreases |p|, k + 1
  {
    var r := Greedy(p, s[k..]);
    if r != -1 then k + r else if k > 0 then GreedyFrom(p, s, k - 1) else -1
  }

  /** The runs the wildcards stand for in a greedy match. */
  function Stars(p: string, s: string): (stars: seq<nat>)
    requires Greedy(p, s) != -1
    ensures Length(p, s, stars) == Greedy(p, s)
    decreases |p|, 0
  {
    if p == "" || p[0] == '$' then []
    else if p[0] == '*' then StarsFrom(p, s, StarBound(p, s))
    else Stars(p[1..], s[1..])
  }

  function StarsFrom(p: string, s: string, k: nat): (stars: seq<nat>)
    requires p != "" && p[0] == '*' && k <= StarBound(p, s) && GreedyFrom(p[StarWidth(p)..], s, k) != -1
    ensures Length(p, s, stars) == GreedyFrom(p[StarWidth(p)..], s, k)
    decreases |p| - 1, k + 1
  {
    var rest := p[StarWidth(p)..];
    if Greedy(rest, s[k..]) != -1 then [k] + Stars(rest, s[k..]) else StarsFrom(p, s, k - 1)
  }

  /** Whatever runs match, the greedy ones match too and are at least as long, read from the left. */
  lemma {:induction false} GreedyIsLongestFirst(p: string, s: string, stars: seq<nat>)
    requires Length(p, s, stars) != -1
    ensures Greedy(p, s) != -1 && NoLonger(stars, Stars(p, s))
    decreases |p|, 0
  {
    if p == "" || p[0] == '$' {
    } else if p[0] == '*' {
      GreedyFromIsLongest(p, s, stars, StarBound(p, s));
    } else {
      GreedyIsLongestFirst(p[1..], s[1..], stars);
    }
  }

  lemma {:induction false} GreedyFromIsLongest(p: string, s: string, stars: seq<nat>, k: nat)
    requires p != "" && p[0] == '*' && Length(p, s, stars) != -1 && stars[0] <= k <= StarBound(p, s)
    ensures GreedyFrom(p[StarWidth(p)..], s, k) != -1 && NoLonger(stars, StarsFrom(p, s, k))
    decreases |p| - 1, k + 1
  {
    var rest := p[StarWidth(p)..];
    if stars[0] == k {
      GreedyIsLongestFirst(rest, s[k..], stars[1..]);
    } else if Greedy(rest, s[k..]) == -1 {
      GreedyFromIsLongest(p, s, stars, k - 1);
    }
  }

  lemma {:induction false} NothingFrom(p: string, s: string, k: nat)
    requires k <= |s| && GreedyFrom(p, s, k) == 0
    ensures Greedy(p, s) == 0
    decreases k
  {
    assert s[0..] == s;
    if Greedy(p, s[k..]) == -1 { NothingFrom(p, s, k - 1); }
  }

  /** A greedy match of nothing means there is no other match of anything. */
  lemma {:induction false} NothingMeansNothing(p: string, s: string, stars: seq<nat>)
    requires Greedy(p, s) == 0 && Length(p, s, stars) != -1
    ensures Length(p, s, stars) == 0
    decreases |p|
  {
    GreedyIsLongestFirst(p, s, stars);
    if p != "" && p[0] == '*' {
      NothingFrom(p[StarWidth(p)..], s, StarBound(p, s));
      assert stars[0] == 0 && s[0..] == s;
      NothingMeansNothing(p[StarWidth(p)..], s, stars[1..]);
    }
  }

  // ---- alternatives --------------------------------------------------------

  /** memchr(pattern, '|', pattern_len); |p| when there is none. */
  function FirstBar(p: string): (k: nat)
    ensures k <= |p| && (k < |p| ==> p[k] == '|') && '|' !in p[..k]
  {
    if p == "" || p[0] == '|' then 0 else 1 + FirstBar(p[1..])
  }

  function Alternatives(p: string): (a: seq<string>)
    ensures a != []
    decreases |p|
  {
    var k := FirstBar(p);
    if k == |p| then [p] else [p[..k]] + Alternatives(p[k + 1..])
  }

  /** The result of the first alternative that matches something, else of the last one. */
  function FirstPositive(alternatives: seq<string>, s: string): int
    requires alternatives != []
  {
    var r := Greedy(alternatives[0], s);
    if r > 0 || |alternatives| == 1 then r else FirstPositive(alternatives[1..], s)
  }

  lemma {:induction false} PositiveIff(alternatives: seq<string>, s: string)
    requires alternatives != []
    ensures FirstPositive(alternatives, s) > 0 <==> exists a :: a in alternatives && Greedy(a, s) > 0
    decreases |alternatives|
  {
    assert alternatives[0] in alternatives;
    if |alternatives| > 1 {
      PositiveIff(alternatives[1..], s);
      assert forall a :: a in alternatives <==> a == alternatives[0] || a in alternatives[1..];
    } else {
      assert forall a :: a in alternatives ==> a == alternatives[0];
    }
  }

  /** mg_match_prefix. */
  method MatchPrefix(p: string, s: string) returns (r: int)
    ensures r == FirstPositive(Alternatives(p), s)
    ensures '|' !in p ==> r == Greedy(p, s)
    decreases |p|, 0
  {
    var bar := FirstBar(p);
    if bar < |p| {
      r := MatchPrefix(p[..bar], s);
      BeforeBar(p);
      if r <= 0 {
        r := MatchPrefix(p[bar + 1..], s);
      }
      return;
    }
    assert p[..bar] == p;
    assert Alternatives(p) == [p] && FirstPositive([p], s) == Greedy(p, s);
    hide Alternatives, FirstPositive, FirstBar, Length, SegmentLength, Lower, Greedy;
    var i, j := 0, 0;
    assert p[0..] == p && s[0..] == s;
    while i < |p|
      invariant 0 <= i <= |p| && 0 <= j <= |s|
      invariant Greedy(p, s) == Plus(j, Greedy(p[i..], s[j..]))
    {
      GreedyAt(p, i, s, j);
      if p[i] == '?' && j < |s| {
      } else if p[i] == '$' {
        return if j == |s| then j else -1;
      } else if p[i] == '*' {
        ghost var star, from := p[i..], s[j..];
        i := i + 1;
        var len: nat;
        if i < |p| && p[i] == '*' {
          i := i + 1;
          len := |s| - j;
        } else {
          len := SegmentLength(s[j..]);
        }
        assert p[i..] == star[StarWidth(star)..] && len == StarBound(star, from);
        NoBarInTail(p, i);
        if i == |p| {
          NothingLeft(from, len);
          return j + len;
        }
        r := MatchRuns(p[i..], s[j..], len);
        return if r == -1 then -1 else j + r;
      } else if j == |s| || Lower(p[i]) != Lower(s[j]) {
        return -1;
      }
      i := i + 1;
      j := j + 1;
    }
    GreedyOfNothing(s[j..]);
    r := j;
  }

  lemma GreedyOfNothing(s: string)
    ensures Greedy("", s) == 0
  {
  }

  lemma GreedyAt(p: string, i: nat, s: string, j: nat)
    requires i < |p| && j <= |s|
    ensures Greedy(p[i..], s[j..]) ==
              if p[i] == '$' then if j == |s| then 0 else -1
              else if p[i] == '*' then GreedyFrom(p[i..][StarWidth(p[i..])..], s[j..], StarBound(p[i..], s[j..]))
              else if j < |s| && (p[i] == '?' || Lower(p[i]) == Lower(s[j]))
                  then Plus(1, Greedy(p[i + 1..], s[j + 1..]))
              else -1
  {
    hide GreedyFrom, Lower;
    assert p[i..][1..] == p[i + 1..];
    if j < |s| { assert s[j..][1..] == s[j + 1..]; }
  }

  /** The do-while loop of mg_match_prefix: the rest after the longest run, then after shorter ones. */
  method MatchRuns(rest: string, s: string, longest: nat) returns (r: int)
    requires longest <= |s| && '|' !in rest
    ensures r == GreedyFrom(rest, s, longest)
    decreases |rest|, 1
  {
    hide Greedy, Alternatives, FirstPositive;
    var len := longest;
    r := MatchPrefix(rest, s[len..]);
    while r == -1 && len > 0
      invariant 0 <= len <= |s| && r == Greedy(rest, s[len..])
      invariant GreedyFrom(rest, s, len) == GreedyFrom(rest, s, longest)
    {
      len := len - 1;
      r := MatchPrefix(rest, s[len..]);
    }
    r := if r == -1 then -1 else r + len;
  }

  lemma NothingLeft(s: string, k: nat)
    requires k <= |s|
    ensures GreedyFrom("", s, k) == k
  {
  }

  lemma BeforeBar(p: string)
    ensures var k := FirstBar(p); FirstBar(p[..k]) == k && Alternatives(p[..k]) == [p[..k]]
  {
    var q := p[..FirstBar(p)];
    assert FirstBar(q) == |q|;
  }

  lemma NoBarInTail(p: string, i: nat)
    requires i <= |p| && '|' !in p
    ensures '|' !in p[i..]
  {
  }

  /** Without alternatives: the result is not negative exactly when some run lengths match, and it
    is the length of the match whose runs are longest, the first one first. */
  lemma MatchesExactly(p: string, s: string)
    ensures Greedy(p, s) >= 0 <==> exists stars :: Length(p, s, stars) >= 0
    ensures Greedy(p, s) >= 0 ==>
              exists stars ::
                && Length(p, s, stars) == Greedy(p, s)
                && forall others :: Length(p, s, others) >= 0 ==> NoLonger(others, stars)
  {
    if Greedy(p, s) >= 0 {
      var stars := Stars(p, s);
      forall others | Length(p, s, others) >= 0
        ensures NoLonger(others, stars)
      {
        GreedyIsLongestFirst(p, s, others);
      }
      assert Length(p, s, stars) == Greedy(p, s);
    }
    forall stars | Length(p, s, stars) >= 0
      ensures Greedy(p, s) >= 0
    {
      GreedyIsLongestFirst(p, s, stars);
    }
  }

  ghost predicate MatchesSomething(p: string, s: string) {
    exists stars :: Length(p, s, stars) > 0
  }

  lemma GreedyMatchesSomething(p: string, s: string)
    ensures Greedy(p, s) > 0 <==> MatchesSomething(p, s)
  {
    if Greedy(p, s) > 0 {
      assert Length(p, s, Stars(p, s)) > 0;
    }
    if MatchesSomething(p, s) {
      var stars :| Length(p, s, stars) > 0;
      GreedyIsLongestFirst(p, s, stars);
      if Greedy(p, s) == 0 { NothingMeansNothing(p, s, stars); }
    }
  }

  /** With alternatives: the result is positive exactly when some alternative matches something. */
  lemma PositiveExactly(p: string, s: string)
    ensures FirstPositive(Alternatives(p), s) > 0 <==> exists a :: a in Alternatives(p) && MatchesSomething(a, s)
  {
    PositiveIff(Alternatives(p), s);
    forall a | a in Alternatives(p)
      ensures Greedy(a, s) > 0 <==> MatchesSomething(a, s)
    {
      GreedyMatchesSomething(a, s);
    }
  }

  ghost predicate MatchesAtAll(p: string, s: string) {
    exists stars :: Length(p, s, stars) >= 0
  }

  lemma GreedyMatchesAtAll(p: string, s: string)
    ensures Greedy(p, s) >= 0 <==> MatchesAtAll(p, s)
  {
    if Greedy(p, s) >= 0 {
      assert Length(p, s, Stars(p, s)) >= 0;
    }
    if MatchesAtAll(p, s) {
      var stars :| Length(p, s, stars) >= 0;
      GreedyIsLongestFirst(p, s, stars);
    }
  }

  lemma {:induction false} NonNegativeIff(alternatives: seq<string>, s: string)
    requires alternatives != []
    ensures FirstPositive(alternatives, s) >= 0 <==>
              (exists a :: a in alternatives && Greedy(a, s) > 0) || Greedy(alternatives[|alternatives| - 1], s) >= 0
    decreases |alternatives|
  {
    assert alternatives[0] in alternatives;
    if |alternatives| > 1 {
      NonNegativeIff(alternatives[1..], s);
      assert forall a :: a in alternatives <==> a == alternatives[0] || a in alternatives[1..];
    } else {
      assert forall a :: a in alternatives ==> a == alternatives[0];
    }
  }

  /** With alternatives: the result is not negative exactly when some alternative matches something
    or the last one matches at all. */
  lemma NonNegativeExactly(p: string, s: string)
    ensures var all := Alternatives(p);
            FirstPositive(all, s) >= 0 <==>
              (exists a :: a in all && MatchesSomething(a, s)) || MatchesAtAll(all[|all| - 1], s)
  {
    var all := Alternatives(p);
    var last := all[|all| - 1];
    NonNegativeIff(all, s);
    hide Alternatives, FirstPositive, Greedy;
    GreedyMatchesAtAll(last, s);
    forall a | a in all
      ensures Greedy(a, s) > 0 <==> MatchesSomething(a, s)
    {
      GreedyMatchesSomething(a, s);
    }
  }

  /** An empty match of any but the last alternative is not reported. */
  lemma EmptyMatchMissed()
    ensures Alternatives("$|b") == ["$", "b"] && MatchesAtAll("$", "")
    ensures FirstPositive(Alternatives("$|b"), "") == -1
  {
    assert Length("$", "", []) == 0;
    assert FirstBar("$|b") == 1 && FirstBar("b") == 1;
    assert "$|b"[2..] == "b" && "$|b"[..1] == "$";
    assert ["$", "b"][1..] == ["b"];
  }
}
