/** find_json_token in dev/svr/3rd/mongoose.c: a dotted path walked over the flat token array,
  proved to return what looking the path up in the tree returns. */
module FrozenPath {
  import opened Common
  import opened FrozenTokens
  import opened Numerals

  /** A tree by its row (the tree is the row's first) and its preorder number. */
  datatype Place = Nowhere | Place(tree: Forest, at: nat)

  datatype Part = Malformed | Name(len: nat) | Index(index: nat, len: nat)

  predicate PathEnd(path: string, i: nat) {
    i >= |path| || path[i] == '\0'
  }

  function PartLen(path: string, i: nat): (n: nat)
    ensures i + n <= |path| || n == 0
    decreases |path| - i
  {
    if PathEnd(path, i) || path[i] == '[' || path[i] == '.' then 0 else 1 + PartLen(path, i + 1)
  }

  /** The digits of an index and its closing bracket, read up to i. */
  function IndexFrom(path: string, start: nat, i: nat, index: nat): (r: Part)
    requires start <= i <= |path|
    ensures r.Malformed? || (r.Index? && i < start + r.len <= |path|)
    decreases |path| - i
  {
    if PathEnd(path, i) then Malformed
    else if path[i] == ']' then Index(index, i + 1 - start)
    else if !IsDigit(path[i]) then Malformed
    else IndexFrom(path, start, i + 1, index * 10 + (path[i] - '0') as nat)
  }

  function PartAt(path: string, i: nat): (r: Part)
    requires !PathEnd(path, i)
    ensures r.Malformed? || (i + r.len <= |path| && (r.len == 0 ==> r.Name? && path[i] == '.'))
  {
    if path[i] == '[' then
      if i + 1 < |path| && IsDigit(path[i + 1]) then IndexFrom(path, i, i + 1, 0) else Malformed
    else Name(PartLen(path, i))
  }

  /** Child number k of a row starting at preorder number at. */
  function Child(row: Forest, at: nat, k: nat): Place
    decreases row
  {
    if row.Nil? then Nowhere
    else if k == 0 then Place(row, at)
    else Child(row.rest, at + 1 + Size(row.kids), k - 1)
  }

  /** The value of the first pair whose key is spelled word in the text. */
  function Member(s: string, row: Forest, at: nat, word: string): Place
    decreases row
  {
    if row.Nil? || row.rest.Nil? then Nowhere
    else if row.start <= row.end <= |s| && s[row.start..row.end] == word then Place(row.rest, at + 1)
    else Member(s, row.rest.rest, at + 2 + Size(row.rest.kids), word)
  }

  /** One part of a path, taken from the tree at preorder number at. */
  function Step(s: string, t: Forest, at: nat, path: string, i: nat): Place
    requires t.Cons? && !PathEnd(path, i)
  {
    match PartAt(path, i)
    case Malformed => Nowhere
    case Index(k, n) => if t.kind.Array? then Child(t.kids, at + 1, k) else Nowhere
    case Name(n) => if t.kind.Object? then Member(s, t.kids, at + 1, path[i..i + n]) else Nowhere
  }

  /** The place in the path after the part at i and the dot that may follow it. */
  function AfterPart(path: string, i: nat): (j: nat)
    requires !PathEnd(path, i) && !PartAt(path, i).Malformed?
    ensures i < j <= |path|
  {
    var j := i + PartAt(path, i).len;
    if j < |path| && path[j] == '.' then j + 1 else j
  }

  function Lookup(s: string, t: Forest, at: nat, path: string, i: nat): Place
    requires t.Cons?
    decreases |path| - i
  {
    if PathEnd(path, i) then Nowhere
    else
      var p := Step(s, t, at, path, i);
      if p.Nowhere? || p.tree.Nil? then Nowhere
      else
        var j := AfterPart(path, i);
        if PathEnd(path, j) then p else Lookup(s, p.tree, p.at, path, j)
  }

  /** The array holds the tree t from number at on. */
  ghost predicate Holds(toks: seq<Token>, at: nat, t: Forest) {
    t.Cons? && at + 1 + Size(t.kids) <= |toks| && toks[at..at + 1 + Size(t.kids)] == Root(t) + Flatten(t.kids)
  }

  lemma RowSplits(toks: seq<Token>, at: nat, row: Forest)
    requires row.Cons? && at + Size(row) <= |toks| && toks[at..at + Size(row)] == Flatten(row)
    ensures Holds(toks, at, row) && toks[at] == Root(row)[0]
    ensures var next := at + 1 + Size(row.kids); toks[next..next + Size(row.rest)] == Flatten(row.rest)
  {
    hide Flatten;
    FlattenCases(row);
    Split(toks, at, Root(row)[0], Flatten(row.kids), Flatten(row.rest));
  }

  lemma Split(toks: seq<Token>, at: nat, root: Token, below: seq<Token>, after: seq<Token>)
    requires at + 1 + |below| + |after| <= |toks| && toks[at..at + 1 + |below| + |after|] == [root] + below + after
    ensures var next := at + 1 + |below|;
            toks[at] == root && toks[at..next] == [root] + below && toks[next..next + |after|] == after
  {
    var all := [root] + below + after;
    assert toks[at] == all[0];
    assert all[..1 + |below|] == [root] + below && all[1 + |below|..] == after;
  }

  lemma KidsHeld(toks: seq<Token>, at: nat, t: Forest)
    requires Holds(toks, at, t)
    ensures at + 1 + Size(t.kids) <= |toks| && toks[at] == Root(t)[0]
              && toks[at + 1..at + 1 + Size(t.kids)] == Flatten(t.kids)
  {
    assert toks[at..at + 1 + Size(t.kids)][1..] == Flatten(t.kids);
  }

  lemma {:induction false} ChildHeld(s: string, toks: seq<Token>, at: nat, row: Forest, k: nat, lo: nat, hi: nat)
    requires at + Size(row) <= |toks| && toks[at..at + Size(row)] == Flatten(row)
    requires Shaped(s, row, lo, hi)
    ensures var p := Child(row, at, k); p.Place? ==> Holds(toks, p.at, p.tree) && Shaped(s, p.tree, 0, |s|)
    decreases row
  {
    if row.Cons? {
      RowSplits(toks, at, row);
      if k == 0 {
        ShapedWider(s, row, lo, hi, 0, |s|);
      } else {
        ChildHeld(s, toks, at + 1 + Size(row.kids), row.rest, k - 1, row.end, hi);
      }
    }
  }

  lemma {:induction false} MemberHeld(s: string, toks: seq<Token>, at: nat, row: Forest, word: string, lo: nat, hi: nat)
    requires at + Size(row) <= |toks| && toks[at..at + Size(row)] == Flatten(row)
    requires Shaped(s, row, lo, hi) && Pairs(row)
    ensures var p := Member(s, row, at, word); p.Place? ==> Holds(toks, p.at, p.tree) && Shaped(s, p.tree, 0, |s|)
    decreases row
  {
    if row.Cons? {
      RowSplits(toks, at, row);
      RowSplits(toks, at + 1, row.rest);
      ShapedWider(s, row.rest, row.end, hi, 0, |s|);
      MemberHeld(s, toks, at + 2 + Size(row.rest.kids), row.rest.rest, word, row.rest.end, hi);
    }
  }

  /** A lookup ends at a token of the array, with everything below it behind it. */
  lemma {:induction false} LookupHeld(s: string, toks: seq<Token>, t: Forest, at: nat, path: string, i: nat)
    requires Holds(toks, at, t) && Shaped(s, t, 0, |s|)
    ensures var p := Lookup(s, t, at, path, i); p.Place? ==> Holds(toks, p.at, p.tree) && Shaped(s, p.tree, 0, |s|)
    decreases |path| - i
  {
    hide Flatten, PartAt, Child, Member, Root;
    if !PathEnd(path, i) {
      StepHeld(s, toks, t, at, path, i);
      var p := Step(s, t, at, path, i);
      if p.Place? { LookupHeld(s, toks, p.tree, p.at, path, AfterPart(path, i)); }
    }
  }

  lemma StepHeld(s: string, toks: seq<Token>, t: Forest, at: nat, path: string, i: nat)
    requires Holds(toks, at, t) && Shaped(s, t, 0, |s|) && !PathEnd(path, i)
    ensures var p := Step(s, t, at, path, i);
            p.Place? ==> !PartAt(path, i).Malformed? && p.tree.Cons?
                         && Holds(toks, p.at, p.tree) && Shaped(s, p.tree, 0, |s|)
  {
    hide Flatten, PartAt, Child, Member;
    KidsHeld(toks, at, t);
    match PartAt(path, i) {
      case Malformed =>
      case Index(k, n) => if t.kind.Array? { ChildHeld(s, toks, at + 1, t.kids, k, t.start + 1, t.end - 1); }
      case Name(n) => if t.kind.Object? { MemberHeld(s, toks, at + 1, t.kids, path[i..i + n], t.start + 1, t.end - 1); }
    }
  }

  /** path_part_len. */
  method PathPartLen(path: string, i: nat) returns (n: nat)
    ensures n == PartLen(path, i)
  {
    n := 0;
    while !(PathEnd(path, i + n) || path[i + n] == '[' || path[i + n] == '.')
      invariant PartLen(path, i) == n + PartLen(path, i + n)
      decreases |path| - i - n
    {
      n := n + 1;
    }
  }

  /** The index between brackets: its length with the brackets, 0 if it is malformed. */
  method ReadIndex(path: string, i: nat) returns (ind: nat, n: nat)
    requires IsAt(path, i, '[')
    ensures PartAt(path, i) == if n == 0 then Malformed else Index(ind, n)
  {
    ind, n := 0, 1;
    if !(i + 1 < |path| && IsDigit(path[i + 1])) {
      return 0, 0;
    }
    while !PathEnd(path, i + n) && path[i + n] != ']'
      invariant 1 <= n && i + n <= |path|
      invariant IndexFrom(path, i, i + n, ind) == IndexFrom(path, i, i + 1, 0)
      decreases |path| - n
    {
      if !IsDigit(path[i + n]) {
        return 0, 0;
      }
      ind := ind * 10 + (path[i + n] - '0') as nat;
      n := n + 1;
    }
    if PathEnd(path, i + n) {
      return 0, 0;
    }
    n := n + 1;
  }

  /** Child number ind, or for ind == -1 the member called word. */
  function Select(s: string, row: Forest, at: nat, ind: int, word: string): Place {
    if ind >= 0 then Child(row, at, ind) else Member(s, row, at, word)
  }

  lemma SelectCases(s: string, row: Forest, at: nat, ind: int, word: string, lo: nat, hi: nat)
    requires row.Cons? && Shaped(s, row, lo, hi)
    ensures row.start <= row.end <= |s|
    ensures ind == 0 ==> Select(s, row, at, ind, word) == Place(row, at)
    ensures ind > 0 ==> Select(s, row, at, ind, word) == Select(s, row.rest, at + 1 + Size(row.kids), ind - 1, word)
    ensures ind < 0 && Pairs(row) ==> row.kind.Str? && row.kids.Nil? && row.rest.Cons? && Pairs(row.rest.rest)
    ensures ind < 0 && Pairs(row) ==>
              Select(s, row, at, ind, word)
              == if s[row.start..row.end] == word then Place(row.rest, at + 1)
                 else Select(s, row.rest.rest, at + 2 + Size(row.rest.kids), ind, word)
  {
  }

  /** The row stands in the array from number at on. */
  ghost predicate Stands(toks: seq<Token>, at: nat, row: Forest) {
    at + Size(row) <= |toks| && toks[at..at + Size(row)] == Flatten(row)
  }

  /** What the array shows of the first tree of a row, and where the next one is. */
  lemma Sibling(s: string, toks: seq<Token>, at: nat, row: Forest, lo: nat, hi: nat)
    requires Stands(toks, at, row) && row.Cons? && Shaped(s, row, lo, hi)
    ensures at < |toks| && toks[at] == Token(row.start, row.kind, row.end - row.start, Size(row.kids))
    ensures !row.kind.Array? && !row.kind.Object? ==> Size(row.kids) == 0
    ensures Stands(toks, at + 1 + Size(row.kids), row.rest) && Shaped(s, row.rest, row.end, hi)
    ensures Size(row) == 1 + Size(row.kids) + Size(row.rest)
  {
    hide Flatten;
    RowSplits(toks, at, row);
  }

  /** The loop of find_json_token over what is below one token: in arrays one token is skipped at a
    time, in objects a key and a value, and after each of them whatever is below it. */
  method FindBelow(s: string, toks: seq<Token>, at: nat, ind: int, word: string, ghost t: Forest) returns (i: nat)
    requires t.Cons? && Holds(toks, at, t) && Shaped(s, t, 0, |s|)
    requires if ind >= 0 then t.kind.Array? else ind == -1 && t.kind.Object?
    ensures i <= toks[at].numDesc == Size(t.kids)
    ensures var p := Select(s, t.kids, at + 1, ind, word);
            if i == Size(t.kids) then p.Nowhere? else p.Place? && p.at == at + 1 + i
  {
    hide Flatten, Holds, Select, Shaped, Pairs, Size, Stands;
    KidsStand(s, toks, at, t);
    var skip := if ind >= 0 then 1 else 2;
    var ind2 := 0;
    ghost var row, lo: nat := t.kids, t.start + 1;
    i := 0;
    while i < toks[at].numDesc
      invariant i + Size(row) == Size(t.kids) && Stands(toks, at + 1 + i, row)
      invariant Shaped(s, row, lo, t.end - 1) && (ind < 0 ==> Pairs(row))
      invariant 0 <= ind2 && (ind >= 0 ==> ind2 <= ind)
      invariant Select(s, t.kids, at + 1, ind, word) == Select(s, row, at + 1 + i, Remaining(ind, ind2), word)
      decreases Size(row)
    {
      SizeNil(row);
      Sibling(s, toks, at + 1 + i, row, lo, t.end - 1);
      SelectCases(s, row, at + 1 + i, Remaining(ind, ind2), word, lo, t.end - 1);
      var key := toks[at + 1 + i];
      // the source's test for a key that is not a string cannot succeed on a parsed array
      assert ind == -1 ==> key.kind.Str?;
      if ind == -1 {
        lo := row.end;
        Sibling(s, toks, at + 1 + i + 1, row.rest, lo, t.end - 1);
      }
      if ind2 == ind || (ind == -1 && key.len == |word| && s[key.start..EndOf(key)] == word) {
        i := i + skip - 1;
        return;
      }
      if ind == -1 {
        row := row.rest;
      }
      var last := toks[at + 1 + i - 1 + skip];
      if last.kind.Array? || last.kind.Object? {
        i := i + last.numDesc;
      }
      i := i + skip;
      ind2 := ind2 + 1;
      lo := row.end;
      row := row.rest;
    }
    SizeNil(row);
    SelectNil(s, at + 1 + i, Remaining(ind, ind2), word);
  }

  function Remaining(ind: int, ind2: int): int {
    if ind >= 0 then ind - ind2 else ind
  }

  lemma SizeNil(row: Forest)
    ensures Size(row) == 0 <==> row.Nil?
  {
  }

  lemma KidsStand(s: string, toks: seq<Token>, at: nat, t: Forest)
    requires Holds(toks, at, t) && (t.kind.Array? || t.kind.Object?) && Shaped(s, t, 0, |s|)
    ensures at < |toks| && toks[at].numDesc == Size(t.kids) && Stands(toks, at + 1, t.kids)
    ensures t.start + 1 <= t.end && Shaped(s, t.kids, t.start + 1, t.end - 1) && (t.kind.Object? ==> Pairs(t.kids))
  {
    hide Flatten;
    KidsHeld(toks, at, t);
  }

  lemma SelectNil(s: string, at: nat, ind: int, word: string)
    ensures Select(s, Nil, at, ind, word) == Nowhere
  {
  }

  /** An accepted text's array holds its tree. */
  lemma ParsedHolds(s: string, toks: seq<Token>)
    requires var o := ObjectAt(s, 0); o.Done? && Size(o.trees) <= |toks| && toks[..Size(o.trees)] == Flatten(o.trees)
    ensures var t := ObjectAt(s, 0).trees; Holds(toks, 0, t) && Shaped(s, t, 0, |s|)
  {
    hide ObjectAt, Flatten;
    TextShaped(s);
    var o := ObjectAt(s, 0);
    ShapedWider(s, o.trees, 0, o.next, 0, |s|);
    assert toks[0..0 + Size(o.trees)] == toks[..Size(o.trees)];
    RowSplits(toks, 0, o.trees);
  }

  lemma LookupCases(s: string, t: Forest, at: nat, path: string, i: nat)
    requires t.Cons? && !PathEnd(path, i)
    ensures var p := Step(s, t, at, path, i);
            && (p.Nowhere? || p.tree.Nil? ==> Lookup(s, t, at, path, i) == Nowhere)
            && (p.Place? && p.tree.Cons? ==>
                  && !PartAt(path, i).Malformed?
                  && Lookup(s, t, at, path, i)
                     == if PathEnd(path, AfterPart(path, i)) then p
                           else Lookup(s, p.tree, p.at, path, AfterPart(path, i)))
  {
  }

  /** What Step selects, in the terms of the loop. */
  lemma StepSelects(s: string, t: Forest, at: nat, path: string, i: nat)
    requires t.Cons? && !PathEnd(path, i)
    ensures var part := PartAt(path, i);
            && (part.Malformed? ==> path[i] == '[' && Step(s, t, at, path, i) == Nowhere)
            && (part.Index? ==>
                  && path[i] == '['
                  && Step(s, t, at, path, i)
                     == if t.kind.Array? then Select(s, t.kids, at + 1, part.index, "") else Nowhere)
            && (part.Name? ==>
                  && path[i] != '[' && part.len == PartLen(path, i)
                  && Step(s, t, at, path, i)
                     == if t.kind.Object? then Select(s, t.kids, at + 1, -1, path[i..i + part.len]) else Nowhere)
  {
    hide Child, Member;
  }

  /** find_json_token: the walk over the flat array returns the token that looking the path up in the
    tree returns, or null (-1) when there is none. */
  method FindJsonToken(s: string, toks: seq<Token>, path: string, ghost root: Forest) returns (r: int)
    requires Holds(toks, 0, root) && Shaped(s, root, 0, |s|)
    ensures var p := Lookup(s, root, 0, path, 0);
            r == if p.Place? then p.at else -1
  {
    hide Lookup, Step, Select, Flatten, Shaped, PartAt, PartLen;
    var at: nat, i: nat := 0, 0;
    ghost var t := root;
    while !PathEnd(path, i)
      invariant Holds(toks, at, t) && Shaped(s, t, 0, |s|)
      invariant Lookup(s, root, 0, path, 0) == Lookup(s, t, at, path, i)
      decreases |path| - i
    {
      LookupCases(s, t, at, path, i);
      StepSelects(s, t, at, path, i);
      StepHeld(s, toks, t, at, path, i);
      KidsHeld(toks, at, t);
      ghost var p := Step(s, t, at, path, i);
      var ind: int, n: nat := -1, 0;
      n := PathPartLen(path, i);
      var word := "";
      if path[i] == '[' {
        if !toks[at].kind.Array? {
          return -1;
        }
        ind, n := ReadIndex(path, i);
        if n == 0 {
          return -1;
        }
      } else if !toks[at].kind.Object? {
        return -1;
      } else {
        word := path[i..i + n];
      }
      var below := FindBelow(s, toks, at, ind, word, t);
      if below == toks[at].numDesc {
        return -1;
      }
      i := i + n;
      if i < |path| && path[i] == '.' {
        i := i + 1;
      }
      at := at + 1 + below;
      if PathEnd(path, i) {
        return at;
      }
      t := p.tree;
    }
    LookupEnds(s, t, at, path, i);
    r := -1;
  }

  lemma LookupEnds(s: string, t: Forest, at: nat, path: string, i: nat)
    requires t.Cons? && PathEnd(path, i)
    ensures Lookup(s, t, at, path, i) == Nowhere
  {
  }

  // ---- what paths mean -----------------------------------------------------

  /** The trees of a row, one behind the other, with their preorder numbers. */
  function Kids(row: Forest, at: nat): seq<Place> {
    if row.Nil? then [] else [Place(row, at)] + Kids(row.rest, at + 1 + Size(row.kids))
  }

  /** Elements are counted from 0. */
  lemma {:induction false} ChildIs(row: Forest, at: nat, k: nat)
    ensures Child(row, at, k) == if k < |Kids(row, at)| then Kids(row, at)[k] else Nowhere
    decreases row
  {
    if row.Cons? && k > 0 { ChildIs(row.rest, at + 1 + Size(row.kids), k - 1); }
  }

  /** Pair number m has that key. */
  predicate KeyIs(s: string, kids: seq<Place>, m: nat, word: string) {
    && 2 * m + 1 < |kids| && kids[2 * m].Place? && kids[2 * m].tree.Cons?
    && var key := kids[2 * m].tree; key.start <= key.end <= |s| && s[key.start..key.end] == word
  }

  /** Keys and values alternate, and the first pair with the key counts. */
  lemma {:induction false} MemberIs(s: string, row: Forest, at: nat, word: string)
    requires Pairs(row)
    ensures var kids, p := Kids(row, at), Member(s, row, at, word);
            && (p.Nowhere? ==> forall m: nat :: !KeyIs(s, kids, m, word))
            && (p.Place? ==>
                  exists m: nat :: KeyIs(s, kids, m, word) && p == kids[2 * m + 1]
                                   && forall n: nat :: n < m ==> !KeyIs(s, kids, n, word))
    decreases row
  {
    var kids, p := Kids(row, at), Member(s, row, at, word);
    if row.Cons? && row.rest.Cons? {
      var next := at + 2 + Size(row.rest.kids);
      MemberIs(s, row.rest.rest, next, word);
      MemberStep(s, row, at, word);
      if KeyIs(s, kids, 0, word) {
        assert p == kids[2 * 0 + 1];
      } else {
        var rest := Kids(row.rest.rest, next);
        forall m: nat
          ensures KeyIs(s, kids, m + 1, word) <==> KeyIs(s, rest, m, word)
        {
          assert 2 * (m + 1) == 2 * m + 2;
        }
        if p.Place? {
          var m: nat :| KeyIs(s, rest, m, word) && p == rest[2 * m + 1]
                        && forall n: nat :: n < m ==> !KeyIs(s, rest, n, word);
          assert KeyIs(s, kids, m + 1, word) && p == kids[2 * (m + 1) + 1];
          forall n: nat | n < m + 1
            ensures !KeyIs(s, kids, n, word)
          {
            if n > 0 { assert !KeyIs(s, rest, n - 1, word); }
          }
        } else {
          forall m: nat
            ensures !KeyIs(s, kids, m, word)
          {
            if m > 0 { assert !KeyIs(s, rest, m - 1, word); }
          }
        }
      }
    }
  }

  /** A key has nothing below it. */
  lemma MemberStep(s: string, row: Forest, at: nat, word: string)
    requires row.Cons? && row.rest.Cons? && row.kids.Nil?
    ensures var kids, rest := Kids(row, at), Kids(row.rest.rest, at + 2 + Size(row.rest.kids));
            && kids == [Place(row, at), Place(row.rest, at + 1)] + rest
            && Member(s, row, at, word)
               == if KeyIs(s, kids, 0, word) then Place(row.rest, at + 1)
                  else Member(s, row.rest.rest, at + 2 + Size(row.rest.kids), word)
  {
  }

  datatype Move = Field(name: string) | Elem(index: nat)

  function Figure(k: nat): char
    requires k < 10
  {
    "0123456789"[k]
  }

  function Numeral(k: nat): (d: string)
    ensures d != ""
  {
    if k < 10 then [Figure(k)] else Numeral(k / 10) + [Figure(k % 10)]
  }

  function MoveText(m: Move): string {
    if m.Field? then m.name else "[" + (Numeral(m.index) + "]")
  }

  /** Names are separated by dots, indices stand between brackets: "a.b[1].c". */
  function PathText(moves: seq<Move>): string {
    if moves == [] then ""
    else if |moves| == 1 then MoveText(moves[0])
    else MoveText(moves[0]) + ((if moves[1].Field? then "." else "") + PathText(moves[1..]))
  }

  predicate NameCharacters(name: string) {
    forall i :: 0 <= i < |name| ==> name[i] != '.' && name[i] != '[' && name[i] != '\0'
  }

  predicate GoodName(name: string) {
    name != "" && NameCharacters(name)
  }

  predicate GoodMoves(moves: seq<Move>) {
    forall i :: 0 <= i < |moves| ==> moves[i].Field? ==> GoodName(moves[i].name)
  }

  function Taken(s: string, t: Forest, at: nat, m: Move): Place
    requires t.Cons?
  {
    match m
    case Elem(k) => if t.kind.Array? then Child(t.kids, at + 1, k) else Nowhere
    case Field(name) => if t.kind.Object? then Member(s, t.kids, at + 1, name) else Nowhere
  }

  /** One move after the other, as long as there is something to go on from. */
  function Walk(s: string, t: Forest, at: nat, moves: seq<Move>): Place
    requires t.Cons? && moves != []
    decreases |moves|
  {
    var p := Taken(s, t, at, moves[0]);
    if p.Nowhere? || p.tree.Nil? then Nowhere
    else if |moves| == 1 then p
    else Walk(s, p.tree, p.at, moves[1..])
  }

  lemma {:induction false} NameRead(path: string, i: nat, name: string)
    requires Reads(path, i, name) && NameCharacters(name)
    requires var j := i + |name|; PathEnd(path, j) || path[j] == '.' || path[j] == '['
    ensures PartLen(path, i) == |name|
    decreases |name|
  {
    if name != "" {
      ReadsAt(path, i, name, 0);
      assert name == [name[0]] + name[1..];
      ReadsSplit(path, i, [name[0]], name[1..]);
      NameRead(path, i + 1, name[1..]);
    }
  }

  lemma DigitOf(k: nat)
    requires k < 10
    ensures IsDigit(Figure(k)) && (Figure(k) - '0') as nat == k
  {
  }

  lemma {:induction false} NumeralRead(path: string, start: nat, i: nat, k: nat)
    requires start <= i && Reads(path, i, Numeral(k))
    ensures start <= i + |Numeral(k)| <= |path|
    ensures IndexFrom(path, start, i, 0) == IndexFrom(path, start, i + |Numeral(k)|, k)
    ensures IsDigit(path[i])
    decreases k
  {
    hide IndexFrom, Figure, Reads;
    var d, n := [Figure(k % 10)], if k < 10 then "" else Numeral(k / 10);
    assert k < 10 ==> Numeral(k) == n + d;
    ReadsSplit(path, i, n, d);
    if k >= 10 {
      NumeralRead(path, start, i, k / 10);
    }
    ReadsAt(path, i + |n|, d, 0);
    DigitRead(path, start, i + |n|, k / 10, k % 10);
  }

  lemma DigitRead(path: string, start: nat, i: nat, index: nat, k: nat)
    requires start <= i < |path| && k < 10 && path[i] == Figure(k)
    ensures IsDigit(path[i])
    ensures IndexFrom(path, start, i, index) == IndexFrom(path, start, i + 1, index * 10 + k)
  {
    DigitOf(k);
    hide Figure;
  }

  predicate Stops(path: string, j: nat) {
    PathEnd(path, j) || path[j] == '.' || path[j] == '['
  }

  lemma FieldRead(path: string, i: nat, name: string)
    requires Reads(path, i, name) && GoodName(name) && Stops(path, i + |name|)
    ensures !PathEnd(path, i) && PartAt(path, i) == Name(|name|) && path[i..i + |name|] == name
  {
    hide PartLen;
    NameRead(path, i, name);
    ReadsAt(path, i, name, 0);
  }

  lemma ElemRead(path: string, i: nat, k: nat)
    requires Reads(path, i, "[" + (Numeral(k) + "]"))
    ensures !PathEnd(path, i) && PartAt(path, i) == Index(k, |Numeral(k)| + 2)
  {
    hide Numeral, IndexFrom;
    ReadsSplit(path, i, "[", Numeral(k) + "]");
    ReadsSplit(path, i + 1, Numeral(k), "]");
    ReadsAt(path, i, "[", 0);
    NumeralRead(path, i, i + 1, k);
    ReadsAt(path, i + 1 + |Numeral(k)|, "]", 0);
    IndexEnds(path, i, i + 1 + |Numeral(k)|, k);
  }

  lemma IndexEnds(path: string, start: nat, i: nat, index: nat)
    requires start <= i < |path| && path[i] == ']'
    ensures IndexFrom(path, start, i, index) == Index(index, i + 1 - start)
  {
  }

  /** A part of a written path, and the place behind the dot after it. */
  lemma MoveRead(path: string, i: nat, m: Move, dot: string)
    requires Reads(path, i, MoveText(m)) && (m.Field? ==> GoodName(m.name))
    requires var j := i + |MoveText(m)|;
             Reads(path, j, dot) && (dot == "." || (dot == "" && (PathEnd(path, j) || path[j] == '[')))
    ensures !PathEnd(path, i)
    ensures PartAt(path, i) == if m.Field? then Name(|m.name|) else Index(m.index, |MoveText(m)|)
    ensures AfterPart(path, i) == i + |MoveText(m)| + |dot|
    ensures m.Field? ==> path[i..i + |m.name|] == m.name
  {
    hide PartAt, Numeral, Reads, NameCharacters;
    var j := i + |MoveText(m)|;
    if dot == "." { ReadsAt(path, j, dot, 0); }
    if m.Field? { FieldRead(path, i, m.name); } else { ElemRead(path, i, m.index); }
  }

  lemma MoveTaken(s: string, t: Forest, at: nat, path: string, i: nat, m: Move, dot: string)
    requires t.Cons? && Reads(path, i, MoveText(m)) && (m.Field? ==> GoodName(m.name))
    requires var j := i + |MoveText(m)|;
             Reads(path, j, dot) && (dot == "." || (dot == "" && (PathEnd(path, j) || path[j] == '[')))
    ensures !PathEnd(path, i) && Step(s, t, at, path, i) == Taken(s, t, at, m)
    ensures !PartAt(path, i).Malformed? && AfterPart(path, i) == i + |MoveText(m)| + |dot|
  {
    hide Child, Member, PartAt, AfterPart, MoveText, Reads;
    MoveRead(path, i, m, dot);
  }

  lemma WalkCases(s: string, t: Forest, at: nat, moves: seq<Move>)
    requires t.Cons? && moves != []
    ensures var p := Taken(s, t, at, moves[0]);
            Walk(s, t, at, moves)
            == if p.Nowhere? || p.tree.Nil? then Nowhere
               else if |moves| == 1 then p
               else Walk(s, p.tree, p.at, moves[1..])
  {
    hide Taken;
  }

  lemma PathTextCases(moves: seq<Move>)
    ensures |moves| == 1 ==> PathText(moves) == MoveText(moves[0])
    ensures |moves| > 1 ==>
              PathText(moves) == MoveText(moves[0]) + ((if moves[1].Field? then "." else "") + PathText(moves[1..]))
  {
    hide MoveText;
  }

  /** Looking up a written path is walking its moves. */
  lemma {:induction false} WrittenPathWalks(s: string, t: Forest, at: nat, path: string, i: nat, moves: seq<Move>)
    requires t.Cons? && moves != [] && GoodMoves(moves)
    requires Reads(path, i, PathText(moves)) && i + |PathText(moves)| == |path|
    ensures Lookup(s, t, at, path, i) == Walk(s, t, at, moves)
    decreases |moves|
  {
    hide *;
    var m := moves[0];
    var text := MoveText(m);
    PathTextCases(moves);
    WalkCases(s, t, at, moves);
    var rest := if |moves| == 1 then "" else PathText(moves[1..]);
    var dot := if |moves| > 1 && moves[1].Field? then "." else "";
    assert |moves| == 1 ==> text == text + (dot + rest);
    ReadsSplit(path, i, text, dot + rest);
    ReadsSplit(path, i + |text|, dot, rest);
    var j := i + |text| + |dot|;
    MovesAreGood(moves);
    if |moves| > 1 { RestStarts(path, j, moves[1..]); } else { EndsHere(path, j); }
    MoveTaken(s, t, at, path, i, m, dot);
    LookupCases(s, t, at, path, i);
    var p := Step(s, t, at, path, i);
    if |moves| > 1 && p.Place? && p.tree.Cons? {
      WrittenPathWalks(s, p.tree, p.at, path, j, moves[1..]);
    }
  }

  lemma EndsHere(path: string, j: nat)
    requires j == |path|
    ensures PathEnd(path, j)
  {
  }

  lemma MovesAreGood(moves: seq<Move>)
    requires moves != [] && GoodMoves(moves)
    ensures moves[0].Field? ==> GoodName(moves[0].name)
    ensures GoodMoves(moves[1..])
  {
    hide GoodName;
  }

  lemma RestStarts(path: string, j: nat, moves: seq<Move>)
    requires moves != [] && GoodMoves(moves) && Reads(path, j, PathText(moves))
    ensures !PathEnd(path, j) && (moves[0].Elem? ==> path[j] == '[')
  {
    ReadsAt(path, j, PathText(moves), 0);
  }
}
