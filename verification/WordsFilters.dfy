/** The words filter of dev/lsf/util/words_filter.hpp: a multimap from first bytes to words, a check,
  and a substitution that rewrites the sentence while it scans it. */
module WordsFilters {
  import opened Common
  import Utf8

  /** A byte of UTF-8 that continues a character. */
  predicate Continues(c: char) {
    c as int / 64 % 4 == 2
  }

  /** Utf8Length: the characters before the first NUL. */
  function Utf8Length(w: string): (n: nat)
    ensures n <= |w|
  {
    if w == "" || w[0] == '\0' then 0 else (if Continues(w[0]) then 0 else 1) + Utf8Length(w[1..])
  }

  type Words = map<char, seq<string>>

  /** As AddWord leaves it: no empty word, and every word under its first byte. */
  ghost predicate Proper(words: Words) {
    forall c, k :: c in words && 0 <= k < |words[c]| ==> words[c][k] != "" && words[c][k][0] == c
  }

  function Under(words: Words, c: char): seq<string> {
    if c in words then words[c] else []
  }

  predicate Listed(words: Words, w: string) {
    w != "" && w in Under(words, w[0])
  }

  predicate Occurs(s: string, w: string, p: nat) {
    p + |w| <= |s| && s[p..p + |w|] == w
  }

  ghost predicate HasWord(words: Words, s: string) {
    exists w: string, p: nat :: Listed(words, w) && Occurs(s, w, p)
  }

  /** No listed word occurs at a position before i. */
  ghost predicate FreeBefore(words: Words, s: string, i: nat) {
    forall w: string, p: nat :: Listed(words, w) && p < i ==> !Occurs(s, w, p)
  }

  /** No word contains the substitute, and each makes at least one character of it. */
  ghost predicate Suitable(words: Words, sub: char) {
    forall w :: Listed(words, w) ==> sub !in w && Utf8Length(w) >= 1
  }

  function Repeat(c: char, n: nat): (s: string)
    ensures |s| == n
  {
    if n == 0 then "" else [c] + Repeat(c, n - 1)
  }

  /** The first of the words that s begins with; |ws| when there is none. */
  function FirstMatch(ws: seq<string>, s: string): (k: nat)
    ensures k <= |ws| && (k < |ws| ==> Occurs(s, ws[k], 0))
    ensures forall j :: 0 <= j < k ==> !Occurs(s, ws[j], 0)
  {
    if ws == [] || Occurs(s, ws[0], 0) then 0 else 1 + FirstMatch(ws[1..], s)
  }

  /** From left to right, the first word that matches becomes as many substitutes as it has characters. */
  ghost function Substituted(words: Words, s: string, sub: char): string
    requires Proper(words)
    decreases |s|
  {
    if s == "" then ""
    else
      var ws := Under(words, s[0]);
      var k := FirstMatch(ws, s);
      if k < |ws| then Repeat(sub, Utf8Length(ws[k])) + Substituted(words, s[|ws[k]|..], sub)
      else [s[0]] + Substituted(words, s[1..], sub)
  }

  lemma UnderListed(words: Words, c: char, k: nat)
    requires Proper(words) && k < |Under(words, c)|
    ensures Listed(words, Under(words, c)[k]) && Under(words, c)[k][0] == c
  {
  }

  lemma OccursInTail(s: string, w: string, i: nat)
    requires i <= |s|
    ensures Occurs(s[i..], w, 0) <==> Occurs(s, w, i)
  {
    if i + |w| <= |s| { assert s[i..][0..|w|] == s[i..i + |w|]; }
  }

  /** Nothing listed begins with the substitute, so a run of it stays. */
  lemma {:induction false} RunStays(words: Words, sub: char, n: nat, rest: string)
    requires Proper(words) && Suitable(words, sub)
    ensures Substituted(words, Repeat(sub, n) + rest, sub) == Repeat(sub, n) + Substituted(words, rest, sub)
    decreases n
  {
    if n == 0 {
      assert Repeat(sub, 0) + rest == rest;
      assert "" + Substituted(words, rest, sub) == Substituted(words, rest, sub);
    } else {
      var run := Repeat(sub, n - 1);
      RunStays(words, sub, n - 1, rest);
      NothingUnder(words, sub);
      StepOver(words, sub, run + rest, sub);
      Associates([sub], run, rest);
      Associates([sub], run, Substituted(words, rest, sub));
    }
  }

  lemma StepOver(words: Words, c: char, rest: string, sub: char)
    requires Proper(words) && Under(words, c) == []
    ensures Substituted(words, [c] + rest, sub) == [c] + Substituted(words, rest, sub)
  {
    assert ([c] + rest)[1..] == rest;
  }

  lemma StartsOtherwise(words: Words, sub: char, w: string)
    requires Suitable(words, sub) && Listed(words, w)
    ensures w[0] != sub
  {
  }

  lemma NothingUnder(words: Words, sub: char)
    requires Proper(words) && Suitable(words, sub)
    ensures Under(words, sub) == []
  {
    hide Suitable;
    if Under(words, sub) != [] {
      UnderListed(words, sub, 0);
      StartsOtherwise(words, sub, Under(words, sub)[0]);
    }
  }

  /** A replacement at i makes no word appear before i: one that reached over i would hold a substitute. */
  lemma ReplacingKeepsFree(words: Words, s: string, t: string, i: nat, sub: char)
    requires Suitable(words, sub) && FreeBefore(words, s, i)
    requires i < |t| && i <= |s| && t[..i] == s[..i] && t[i] == sub
    ensures FreeBefore(words, t, i + 1)
  {
    forall w: string, p: nat | Listed(words, w) && p < i + 1
      ensures !Occurs(t, w, p)
    {
      if p + |w| <= i {
        assert !Occurs(s, w, p);
        assert t[p..p + |w|] == t[..i][p..p + |w|];
        assert s[p..p + |w|] == s[..i][p..p + |w|];
      } else if p + |w| <= |t| {
        assert w[i - p] != sub;
        assert t[p..p + |w|][i - p] == t[i];
      }
    }
  }

  lemma FreeMeansNone(words: Words, s: string)
    requires FreeBefore(words, s, |s|)
    ensures !HasWord(words, s)
  {
    forall w: string, p: nat | Listed(words, w)
      ensures !Occurs(s, w, p)
    {
    }
  }

  /** Without a listed word in it, a sentence is left as it is. */
  lemma {:induction false} NothingToSubstitute(words: Words, s: string, sub: char)
    requires Proper(words) && !HasWord(words, s)
    ensures Substituted(words, s, sub) == s
    decreases |s|
  {
    if s != "" {
      var ws := Under(words, s[0]);
      var k := FirstMatch(ws, s);
      if k < |ws| { UnderListed(words, s[0], k); }
      forall w: string, p: nat | Listed(words, w) && Occurs(s[1..], w, p)
        ensures false
      {
        assert s[1..][p..p + |w|] == s[p + 1..p + 1 + |w|];
        assert Occurs(s, w, p + 1);
      }
      NothingToSubstitute(words, s[1..], sub);
    }
  }

  /** The singleton with its _map. */
  class Filter {
    var words: Words

    ghost predicate Valid()
      reads this
    {
      Proper(words)
    }

    constructor ()
      ensures Valid() && words == map[]
    {
      words := map[];
    }

    method AddWord(word: string)
      requires Valid()
      modifies this
      ensures Valid() && forall w :: Listed(words, w) <==> Listed(old(words), w) || (w == word && word != "")
    {
      if word != "" {
        words := words[word[0] := Under(words, word[0]) + [word]];
      }
    }

    method Clear()
      modifies this
      ensures Valid() && words == map[]
    {
      words := map[];
    }

    method CountCharacters(w: string) returns (n: nat)
      ensures n == Utf8Length(w)
    {
      n := 0;
      var i := 0;
      while i < |w| && w[i] != '\0'
        invariant i <= |w| && Utf8Length(w) == n + Utf8Length(w[i..])
      {
        if !Continues(w[i]) {
          n := n + 1;
        }
        i := i + 1;
      }
    }

    method CheckHasWord(s: string) returns (found: bool)
      requires Valid()
      ensures found <==> HasWord(words, s)
    {
      var i := 0;
      while i < |s|
        invariant i <= |s| && FreeBefore(words, s, i)
      {
        var ws := Under(words, s[i]);
        var k := 0;
        while k < |ws|
          invariant k <= |ws| && forall j :: 0 <= j < k ==> !Occurs(s, ws[j], i)
        {
          UnderListed(words, s[i], k);
          if |s| - i >= |ws[k]| && s[i..i + |ws[k]|] == ws[k] {
            assert Occurs(s, ws[k], i);
            return true;
          }
          k := k + 1;
        }
        NoneUnder(words, s, i);
        i := i + 1;
      }
      FreeMeansNone(words, s);
      found := false;
    }

    /** The inner loop of SubstitueInplace: the words under the byte that stood at i. */
    method SubstituteAt(sentence: string, i: nat, sub: char) returns (s: string, found: bool)
      requires Valid() && i < |sentence|
      ensures i <= |s| <= |sentence| && s[..i] == sentence[..i]
      ensures var ws := Under(words, sentence[i]);
              var k := FirstMatch(ws, sentence[i..]);
              && (found <==> k < |ws|)
              && (!found ==> s == sentence)
              && (found && Suitable(words, sub) ==>
                    s == sentence[..i] + Repeat(sub, Utf8Length(ws[k])) + sentence[i + |ws[k]|..])
    {
      s, found := sentence, false;
      var ws := Under(words, s[i]);
      ghost var first := FirstMatch(ws, s[i..]);
      var k := 0;
      while k < |ws|
        invariant k <= |ws| && i <= |s| <= |sentence| && s[..i] == sentence[..i]
        invariant found <==> first < k
        invariant !found ==> s == sentence
        invariant found && Suitable(words, sub) ==>
          s == sentence[..i] + Repeat(sub, Utf8Length(ws[first])) + sentence[i + |ws[first]|..]
      {
        UnderListed(words, sentence[i], k);
        var word := ws[k];
        if !found { OccursInTail(s, word, i); }
        if found && Suitable(words, sub) { StaysReplaced(words, s, i, word, sub, ws[first]); }
        if |s| - i >= |word| && s[i..i + |word|] == word {
          var n := CountCharacters(word);
          s := s[..i] + Repeat(sub, n) + s[i + |word|..];
          found := true;
        }
        k := k + 1;
      }
    }

    /** SubstitueInplace.  Whatever the words, the result tells whether one was there; when they suit the
      substitute, none is left, and the sentence is what substituting from left to right makes of it. */
    method SubstituteInplace(original: string, sub: char) returns (sentence: string, found: bool)
      requires Valid()
      ensures found <==> HasWord(words, original)
      ensures !found ==> sentence == original
      ensures Suitable(words, sub) ==> !HasWord(words, sentence) && sentence == Substituted(words, original, sub)
    {
      hide Substituted, FreeBefore, Suitable, Proper, HasWord, FirstMatch;
      sentence, found := original, false;
      var i := 0;
      StartFree(words, original);
      assert original[..0] + Substituted(words, original[0..], sub) == Substituted(words, original, sub) by {
        assert original[0..] == original;
      }
      while i < |sentence|
        invariant !found || Suitable(words, sub) ==> i <= |sentence|
        invariant !found ==> sentence == original
        invariant found ==> HasWord(words, original)
        invariant !found || Suitable(words, sub) ==> FreeBefore(words, sentence, i)
        invariant Suitable(words, sub) ==>
          Substituted(words, original, sub) == sentence[..i] + Substituted(words, sentence[i..], sub)
        decreases |sentence| - i
      {
        var s, here := SubstituteAt(sentence, i, sub);
        if !found || Suitable(words, sub) { StepKeeps(words, sentence, i, sub, s, here); }
        sentence := s;
        found := found || here;
        i := i + 1;
      }
      if !found || Suitable(words, sub) { FreeMeansNone(words, sentence); }
      NothingLeft(words, sentence, sub);
    }

    /** Substitue: on a copy. */
    method Substitute(sentence: string, sub: char) returns (copy: string)
      requires Valid()
      ensures Suitable(words, sub) ==> copy == Substituted(words, sentence, sub)
      ensures !HasWord(words, sentence) ==> copy == sentence
    {
      hide Substituted, HasWord, Suitable;
      var found;
      copy, found := SubstituteInplace(sentence, sub);
    }
  }

  lemma StartFree(words: Words, s: string)
    ensures FreeBefore(words, s, 0)
  {
  }

  lemma NothingLeft(words: Words, s: string, sub: char)
    requires Proper(words)
    ensures s[..|s|] + Substituted(words, s[|s|..], sub) == s
  {
  }

  /** One position further. */
  lemma StepKeeps(words: Words, before: string, i: nat, sub: char, s: string, here: bool)
    requires Proper(words) && i < |before|
    requires var ws := Under(words, before[i]);
             var k := FirstMatch(ws, before[i..]);
             && (here <==> k < |ws|) && (!here ==> s == before)
             && (here && Suitable(words, sub) ==>
                   s == before[..i] + Repeat(sub, Utf8Length(ws[k])) + before[i + |ws[k]|..])
    ensures here ==> HasWord(words, before)
    ensures FreeBefore(words, before, i) && (!here || Suitable(words, sub)) ==> i < |s| && FreeBefore(words, s, i + 1)
    ensures Suitable(words, sub) ==>
              && i < |s|
              && before[..i] + Substituted(words, before[i..], sub) == s[..i + 1] + Substituted(words, s[i + 1..], sub)
  {
    hide Substituted, FreeBefore, Suitable, Proper, HasWord;
    if here {
      HitKeeps(words, before, i, sub, s);
    } else {
      MissKeeps(words, before, i, sub);
    }
  }

  lemma HitKeeps(words: Words, before: string, i: nat, sub: char, s: string)
    requires Proper(words) && i < |before|
    requires var ws := Under(words, before[i]);
             var k := FirstMatch(ws, before[i..]);
             k < |ws|
             && (Suitable(words, sub) ==> s == before[..i] + Repeat(sub, Utf8Length(ws[k])) + before[i + |ws[k]|..])
    ensures HasWord(words, before)
    ensures FreeBefore(words, before, i) && Suitable(words, sub) ==> i < |s| && FreeBefore(words, s, i + 1)
    ensures Suitable(words, sub) ==>
              && i < |s|
              && before[..i] + Substituted(words, before[i..], sub) == s[..i + 1] + Substituted(words, s[i + 1..], sub)
  {
    hide Substituted, FreeBefore, Suitable, Proper;
    var ws := Under(words, before[i]);
    var k := FirstMatch(ws, before[i..]);
    UnderListed(words, before[i], k);
    OccursInTail(before, ws[k], i);
    if Suitable(words, sub) {
      ReplacedStep(words, before, i, sub, s, ws[k]);
      if FreeBefore(words, before, i) { ReplacingKeepsFree(words, before, s, i, sub); }
    }
  }

  lemma MissKeeps(words: Words, before: string, i: nat, sub: char)
    requires Proper(words) && i < |before|
    requires FirstMatch(Under(words, before[i]), before[i..]) == |Under(words, before[i])|
    ensures FreeBefore(words, before, i) ==> FreeBefore(words, before, i + 1)
    ensures Suitable(words, sub) ==>
              before[..i] + Substituted(words, before[i..], sub)
              == before[..i + 1] + Substituted(words, before[i + 1..], sub)
  {
    var ws := Under(words, before[i]);
    if FreeBefore(words, before, i) {
      hide Substituted, Suitable;
      forall j | 0 <= j < |ws|
        ensures !Occurs(before, ws[j], i)
      {
        OccursInTail(before, ws[j], i);
      }
      NoneUnder(words, before, i);
    }
    hide FreeBefore, Occurs, Under, FirstMatch;
    MissUnfolds(words, before, i, sub);
    hide Substituted;
    MoveOne(before[..i], before[i], Substituted(words, before[i + 1..], sub));
    assert before[..i] + [before[i]] == before[..i + 1];
  }

  lemma MissUnfolds(words: Words, s: string, i: nat, sub: char)
    requires Proper(words) && i < |s|
    requires FirstMatch(Under(words, s[i]), s[i..]) == |Under(words, s[i])|
    ensures Suitable(words, sub) ==>
              Substituted(words, s[i..], sub) == [s[i]] + Substituted(words, s[i + 1..], sub)
  {
    assert s[i..][1..] == s[i + 1..];
  }

  lemma MoveOne(a: string, c: char, b: string)
    ensures a + ([c] + b) == a + [c] + b
  {
  }

  lemma ReplacedStep(words: Words, before: string, i: nat, sub: char, s: string, w: string)
    requires Proper(words) && Suitable(words, sub) && i < |before|
    requires var ws := Under(words, before[i]); var k := FirstMatch(ws, before[i..]); k < |ws| && ws[k] == w
    requires Listed(words, w) && i + |w| <= |before|
    requires s == before[..i] + Repeat(sub, Utf8Length(w)) + before[i + |w|..]
    ensures i < |s| && s[..i] == before[..i] && s[i] == sub
    ensures before[..i] + Substituted(words, before[i..], sub) == s[..i + 1] + Substituted(words, s[i + 1..], sub)
  {
    hide Substituted, Repeat, Suitable, Utf8Length;
    var n := Utf8Length(w);
    RepeatFirst(sub, n);
    LongEnough(words, sub, w);
    var head, run, rest := before[..i], Repeat(sub, n - 1), before[i + |w|..];
    assert before[i..][|w|..] == rest;
    assert s == head + ([sub] + run) + rest;
    assert s[i + 1..] == run + rest && s[..i + 1] == head + [sub];
    RunStays(words, sub, n - 1, rest);
    MatchStep(words, before[i..], sub, w);
    Regroup(head, [sub], run, Substituted(words, rest, sub));
  }

  lemma LongEnough(words: Words, sub: char, w: string)
    requires Suitable(words, sub) && Listed(words, w)
    ensures Utf8Length(w) >= 1
  {
  }

  lemma RepeatFirst(c: char, n: nat)
    ensures n > 0 ==> Repeat(c, n) == [c] + Repeat(c, n - 1)
  {
  }

  lemma Regroup(a: string, b: string, c: string, d: string)
    ensures a + (b + c + d) == a + b + (c + d)
  {
  }

  lemma MatchStep(words: Words, s: string, sub: char, w: string)
    requires Proper(words) && s != ""
    requires var ws := Under(words, s[0]); var k := FirstMatch(ws, s); k < |ws| && ws[k] == w
    ensures |w| <= |s| && Substituted(words, s, sub) == Repeat(sub, Utf8Length(w)) + Substituted(words, s[|w|..], sub)
  {
  }

  /** Substituting from left to right leaves no listed word, also where replacements have brought bytes together. */
  lemma {:induction false} NoWordLeft(words: Words, before: string, i: nat, sub: char)
    requires Proper(words) && Suitable(words, sub) && i <= |before| && FreeBefore(words, before, i)
    ensures !HasWord(words, before[..i] + Substituted(words, before[i..], sub))
    decreases |before| - i
  {
    hide FreeBefore, Suitable, HasWord, Substituted;
    if i == |before| {
      NothingLeft(words, before, sub);
      FreeMeansNone(words, before);
    } else {
      var ws := Under(words, before[i]);
      var k := FirstMatch(ws, before[i..]);
      var s := if k < |ws| then before[..i] + Repeat(sub, Utf8Length(ws[k])) + before[i + |ws[k]|..] else before;
      StepKeeps(words, before, i, sub, s, k < |ws|);
      NoWordLeft(words, s, i + 1, sub);
    }
  }

  lemma SecondPassChangesNothing(words: Words, s: string, sub: char)
    requires Proper(words) && Suitable(words, sub)
    ensures var t := Substituted(words, s, sub);
            !HasWord(words, t) && Substituted(words, t, sub) == t
  {
    hide Suitable, HasWord, Substituted;
    StartFree(words, s);
    NoWordLeft(words, s, 0, sub);
    var t := Substituted(words, s, sub);
    assert s[0..] == s && s[..0] + t == t;
    NothingToSubstitute(words, t, sub);
  }

  lemma NoneUnder(words: Words, s: string, i: nat)
    requires Proper(words) && i < |s| && FreeBefore(words, s, i)
    requires forall j :: 0 <= j < |Under(words, s[i])| ==> !Occurs(s, Under(words, s[i])[j], i)
    ensures FreeBefore(words, s, i + 1)
  {
    forall w: string, p: nat | Listed(words, w) && p < i + 1
      ensures !Occurs(s, w, p)
    {
      if p == i && i + |w| <= |s| { assert s[i..i + |w|][0] == s[i]; }
    }
  }

  lemma StaysReplaced(words: Words, s: string, i: nat, word: string, sub: char, replaced: string)
    requires Suitable(words, sub) && Listed(words, word) && Listed(words, replaced)
    requires i + Utf8Length(replaced) <= |s| && s[i..i + Utf8Length(replaced)] == Repeat(sub, Utf8Length(replaced))
    ensures !Occurs(s, word, i)
  {
    assert s[i] == s[i..i + Utf8Length(replaced)][0];
    if i + |word| <= |s| { assert s[i..i + |word|][0] == s[i]; }
  }

  // ---- characters ----------------------------------------------------------

  /** Of UTF-8 text without NUL, Utf8Length is the number of code points. */
  lemma {:induction false} LengthIsCodePoints(w: string)
    requires Utf8.Decode(w).Some? && 0 !in Utf8.Decode(w).value
    ensures Utf8Length(w) == |Utf8.Decode(w).value|
    decreases |w|
  {
    if w != "" {
      var f := Utf8.First(w);
      var n := f.value.1;
      LengthIsCodePoints(w[n..]);
      FirstCounts(w);
    }
  }

  lemma FirstCounts(w: string)
    requires w != "" && Utf8.First(w).Some? && Utf8.First(w).value.0 != 0
    ensures var n := Utf8.First(w).value.1; 0 < n <= |w| && Utf8Length(w) == 1 + Utf8Length(w[n..])
  {
    FirstBytes(w);
    hide *;
    var n := Utf8.First(w).value.1;
    LengthStep(w);
    RestContinues(w, 1, n);
  }

  /** One leading byte, and continuations up to the width it announces. */
  lemma FirstBytes(w: string)
    requires w != "" && Utf8.First(w).Some? && Utf8.First(w).value.0 != 0
    ensures var n := Utf8.First(w).value.1;
            0 < n <= |w| && w[0] != '\0' && !Continues(w[0])
            && forall k :: 1 <= k < n ==> w[k] != '\0' && Continues(w[k])
  {
    forall k | 1 <= k < |w| && Utf8.Continues(w[k])
      ensures w[k] != '\0' && Continues(w[k])
    {
    }
  }

  lemma {:induction false} RestContinues(w: string, i: nat, n: nat)
    requires i <= n <= |w| && forall k :: i <= k < n ==> w[k] != '\0' && Continues(w[k])
    ensures Utf8Length(w[i..]) == Utf8Length(w[n..])
    decreases n - i
  {
    hide Utf8Length;
    if i < n {
      LengthStep(w[i..]);
      assert w[i..][1..] == w[i + 1..];
      RestContinues(w, i + 1, n);
    }
  }

  lemma LengthStep(w: string)
    requires w != "" && w[0] != '\0'
    ensures Utf8Length(w) == (if Continues(w[0]) then 0 else 1) + Utf8Length(w[1..])
  {
  }

  lemma {:induction false} LengthConcat(a: string, b: string)
    requires '\0' !in a
    ensures Utf8Length(a + b) == Utf8Length(a) + Utf8Length(b)
  {
    if a == "" {
      assert a + b == b;
    } else {
      assert (a + b)[1..] == a[1..] + b;
      LengthConcat(a[1..], b);
    }
  }

  lemma {:induction false} RunLength(c: char, n: nat)
    requires c != '\0' && !Continues(c)
    ensures Utf8Length(Repeat(c, n)) == n && '\0' !in Repeat(c, n)
  {
    if n > 0 {
      RunLength(c, n - 1);
      assert Repeat(c, n)[1..] == Repeat(c, n - 1);
    }
  }

  /** Substitution keeps the number of characters. */
  lemma {:induction false} KeepsCharacters(words: Words, s: string, sub: char)
    requires Proper(words) && '\0' !in s && sub != '\0' && !Continues(sub)
    ensures Utf8Length(Substituted(words, s, sub)) == Utf8Length(s)
    decreases |s|
  {
    if s != "" {
      var ws := Under(words, s[0]);
      var k := FirstMatch(ws, s);
      hide FirstMatch, Under, Utf8Length;
      if k < |ws| {
        var w := ws[k];
        UnderListed(words, s[0], k);
        assert s == w + s[|w|..] && s[0..|w|] == w;
        KeepsCharacters(words, s[|w|..], sub);
        RunLength(sub, Utf8Length(w));
        LengthConcat(w, s[|w|..]);
        LengthConcat(Repeat(sub, Utf8Length(w)), Substituted(words, s[|w|..], sub));
      } else {
        assert s == [s[0]] + s[1..];
        KeepsCharacters(words, s[1..], sub);
        LengthConcat([s[0]], s[1..]);
        LengthConcat([s[0]], Substituted(words, s[1..], sub));
      }
    }
  }
}
