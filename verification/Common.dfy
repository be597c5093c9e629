/** Optional values, and what several formats need of sequences. */
module Common {

  datatype Option<T> = None | Some(value: T)

  lemma Associates<T>(a: seq<T>, b: seq<T>, c: seq<T>)
    ensures a + b + c == a + (b + c)
  {
  }

  function Joined<T>(pieces: seq<seq<T>>): seq<T> {
    if pieces == [] then [] else Joined(pieces[..|pieces| - 1]) + pieces[|pieces| - 1]
  }

  /** The text has that word at p. */
  predicate Reads(t: string, p: nat, word: string) {
    p + |word| <= |t| && t[p..p + |word|] == word
  }

  lemma ReadsAt(t: string, p: nat, word: string, k: nat)
    requires Reads(t, p, word) && k < |word|
    ensures p + k < |t| && t[p + k] == word[k]
  {
    assert t[p..p + |word|][k] == t[p + k];
  }

  lemma ReadsSplit(t: string, p: nat, a: string, b: string)
    requires Reads(t, p, a + b)
    ensures Reads(t, p, a) && Reads(t, p + |a|, b)
  {
    assert t[p..p + |a|] == t[p..p + |a + b|][..|a|];
    assert t[p + |a|..p + |a| + |b|] == t[p..p + |a + b|][|a|..];
  }

  lemma ReadsJoin(t: string, p: nat, a: string, b: string)
    requires Reads(t, p, a) && Reads(t, p + |a|, b)
    ensures Reads(t, p, a + b)
  {
    assert t[p..p + |a + b|] == t[p..p + |a|] + t[p + |a|..p + |a| + |b|];
  }

  lemma ReadsEnds(t: string, p: nat, word: string)
    requires Reads(t, p, word)
    ensures p + |word| <= |t|
  {
  }
}
