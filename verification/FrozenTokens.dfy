/** The JSON tokenizer "frozen" in dev/svr/3rd/mongoose.c: a recursive descent parser that fills
  one flat array of tokens in preorder, and find_json_token, which walks a dotted path over it. */
module FrozenTokens {
  import opened Common
  import opened Numerals

  const INVALID := -1
  const INCOMPLETE := -2
  const TOO_SMALL := -3

  datatype Kind = EndOfTokens | Str | Number | Object | True | False | Null | Array

  datatype Token = Token(start: int, kind: Kind, len: int, numDesc: int)

  /** A row of trees: the first one's root with its range in the text, its children, and the trees after it. */
  datatype Forest = Nil | Cons(kind: Kind, start: nat, end: nat, kids: Forest, rest: Forest)

  function Size(f: Forest): nat {
    if f.Nil? then 0 else 1 + Size(f.kids) + Size(f.rest)
  }

  /** Preorder, every root with the size of what is below it. */
  function Flatten(f: Forest): (t: seq<Token>)
    ensures |t| == Size(f)
  {
    if f.Nil? then []
    else [Token(f.start, f.kind, f.end - f.start, Size(f.kids))] + Flatten(f.kids) + Flatten(f.rest)
  }

  function Join(a: Forest, b: Forest): Forest {
    if a.Nil? then b else Cons(a.kind, a.start, a.end, a.kids, Join(a.rest, b))
  }

  lemma {:induction false} FlattenJoin(a: Forest, b: Forest)
    ensures Flatten(Join(a, b)) == Flatten(a) + Flatten(b) && Size(Join(a, b)) == Size(a) + Size(b)
  {
    hide Flatten;
    FlattenCases(a);
    FlattenCases(Join(a, b));
    if a.Cons? {
      FlattenJoin(a.rest, b);
      Associates(Root(a) + Flatten(a.kids), Flatten(a.rest), Flatten(b));
    } else {
      assert [] + Flatten(b) == Flatten(b);
    }
  }

  function Root(f: Forest): seq<Token>
    requires f.Cons?
  {
    [Token(f.start, f.kind, f.end - f.start, Size(f.kids))]
  }

  lemma FlattenCases(f: Forest)
    ensures Flatten(f) == if f.Nil? then [] else Root(f) + Flatten(f.kids) + Flatten(f.rest)
  {
  }

  lemma {:induction false} JoinAssociates(a: Forest, b: Forest, c: Forest)
    ensures Join(Join(a, b), c) == Join(a, Join(b, c))
  {
    if a.Cons? { JoinAssociates(a.rest, b, c); }
  }

  lemma {:induction false} JoinNil(a: Forest)
    ensures Join(a, Nil) == a
  {
    if a.Cons? { JoinNil(a.rest); }
  }

  // ---- what the text at a position is --------------------------------------

  /** Trees and the position after them, or an error code and how many tokens came before it. */
  datatype Outcome = Done(trees: Forest, next: nat) | Fail(code: int, captured: nat)

  function Code(o: Outcome): int {
    if o.Done? then 0 else o.code
  }

  function Count(o: Outcome): nat {
    if o.Done? then Size(o.trees) else o.captured
  }

  function Prepend(f: Forest, o: Outcome): Outcome {
    match o
    case Done(trees, next) => Done(Join(f, trees), next)
    case Fail(code, captured) => Fail(code, Size(f) + captured)
  }

  lemma PrependTwice(a: Forest, b: Forest, o: Outcome)
    ensures Prepend(a, Prepend(b, o)) == Prepend(Join(a, b), o)
  {
    FlattenJoin(a, b);
    if o.Done? { JoinAssociates(a, b, o.trees); }
  }

  lemma CountPrepend(f: Forest, o: Outcome)
    ensures Count(Prepend(f, o)) == Size(f) + Count(o) && Code(Prepend(f, o)) == Code(o)
  {
    if o.Done? { FlattenJoin(f, o.trees); }
  }

  datatype Scan = At(end: nat) | Bad(code: int)

  predicate IsSpace(c: char) { c == ' ' || c == '\t' || c == '\r' || c == '\n' }
  predicate IsAlpha(c: char) { 'a' <= c <= 'z' || 'A' <= c <= 'Z' }
  predicate IsName(c: char) { c == '_' || IsAlpha(c) || IsDigit(c) }

  function Skip(s: string, i: nat): (p: nat)
    requires i <= |s|
    ensures i <= p <= |s|
    decreases |s| - i
  {
    if i < |s| && IsSpace(s[i]) then Skip(s, i + 1) else i
  }

  function NameEnd(s: string, i: nat): (p: nat)
    requires i <= |s|
    ensures i <= p <= |s|
    decreases |s| - i
  {
    if i < |s| && IsName(s[i]) then NameEnd(s, i + 1) else i
  }

  predicate IsAt(s: string, p: nat, c: char) {
    p < |s| && s[p] == c
  }

  /** get_utf8_char_len: decided by the lead byte alone. */
  function CharLen(c: char): (n: nat)
    ensures 1 <= n <= 4 && (c as int < 128 ==> n == 1)
  {
    var b := c as int;
    if b / 128 % 2 == 0 then 1 else if b / 16 % 16 == 15 then 4 else if b / 16 % 16 == 14 then 3 else 2
  }

  /** get_escape_len: i is after the backslash, left counts from the backslash. */
  function EscapeLen(s: string, i: nat): (n: int)
    requires 0 < i < |s|
    ensures n == INVALID || n == INCOMPLETE || (0 < n && i + n <= |s|)
  {
    var left := |s| - i + 1;
    if s[i] == 'u' then
      if left < 6 then INCOMPLETE
      else if IsHexDigit(s[i + 1]) && IsHexDigit(s[i + 2]) && IsHexDigit(s[i + 3]) && IsHexDigit(s[i + 4]) then 5
      else INVALID
    else if s[i] in "\"\\/bfnrt" then
      if left < 2 then INCOMPLETE else 1
    else INVALID
  }

  /** The closing quote of a string whose body starts at i. */
  function StringEnd(s: string, i: nat): (r: Scan)
    requires i <= |s|
    ensures r.At? ==> i <= r.end < |s| && s[r.end] == '"'
    ensures r.Bad? ==> r.code == INVALID || r.code == INCOMPLETE
    decreases |s| - i
  {
    if i == |s| then Bad(INCOMPLETE)
    else if s[i] as int < 32 then Bad(INVALID)
    else if CharLen(s[i]) >= |s| - i then Bad(INCOMPLETE)
    else if s[i] == '\\' then
      var n := EscapeLen(s, i + 1);
      if n <= 0 then Bad(n) else StringEnd(s, i + 1 + n)
    else if s[i] == '"' then At(i)
    else StringEnd(s, i + CharLen(s[i]))
  }

  /** digit+ from i. */
  function SomeDigits(s: string, i: nat): (r: Scan)
    requires i <= |s|
    ensures r.At? ==> i < r.end <= |s|
    ensures r.Bad? ==> r.code == INVALID || r.code == INCOMPLETE
  {
    if i == |s| then Bad(INCOMPLETE)
    else if !IsDigit(s[i]) then Bad(INVALID)
    else At(DigitsEnd(s, i + 1))
  }

  function FractionEnd(s: string, i: nat): (r: Scan)
    requires i <= |s|
    ensures r.At? ==> i <= r.end <= |s|
    ensures r.Bad? ==> r.code == INVALID || r.code == INCOMPLETE
  {
    if IsAt(s, i, '.') then SomeDigits(s, i + 1) else At(i)
  }

  function ExponentEnd(s: string, i: nat): (r: Scan)
    requires i <= |s|
    ensures r.At? ==> i <= r.end <= |s|
    ensures r.Bad? ==> r.code == INVALID || r.code == INCOMPLETE
  {
    if IsAt(s, i, 'e') || IsAt(s, i, 'E') then
      SomeDigits(s, if IsAt(s, i + 1, '+') || IsAt(s, i + 1, '-') then i + 2 else i + 1)
    else At(i)
  }

  function NumberEnd(s: string, i: nat): (r: Scan)
    requires i < |s|
    ensures r.At? ==> i < r.end <= |s|
    ensures r.Bad? ==> r.code == INVALID || r.code == INCOMPLETE
  {
    var whole := SomeDigits(s, if s[i] == '-' then i + 1 else i);
    if whole.Bad? then whole
    else
      var fraction := FractionEnd(s, whole.end);
      if fraction.Bad? then fraction else ExponentEnd(s, fraction.end)
  }

  function LiteralEnd(s: string, i: nat, w: string): (r: Scan)
    requires i <= |s|
    ensures r.At? ==> r.end == i + |w| <= |s|
    ensures r.Bad? ==> r.code == INVALID || r.code == INCOMPLETE
  {
    if w <= s[i..] then At(i + |w|) else if s[i..] <= w then Bad(INCOMPLETE) else Bad(INVALID)
  }

  /** A token without descendants; the text continues skip bytes after its end. */
  function Leaf(kind: Kind, start: nat, r: Scan, skip: nat): (o: Outcome) {
    match r
    case At(end) => Done(Cons(kind, start, end, Nil, Nil), end + skip)
    case Bad(code) => Fail(code, 1)
  }

  predicate Progress(s: string, i: nat, o: Outcome) {
    if o.Done? then i < o.next <= |s| else o.code == INVALID || o.code == INCOMPLETE
  }

  function ValueAt(s: string, i: nat): (o: Outcome)
    requires i <= |s|
    ensures Progress(s, i, o)
    decreases |s| - i, 0
  {
    var p := Skip(s, i);
    if p == |s| then Fail(INCOMPLETE, 0)
    else if s[p] == '"' then Leaf(Str, p + 1, StringEnd(s, p + 1), 1)
    else if s[p] == '{' then Container(Object, p, ElementsAt(s, p + 1, Object))
    else if s[p] == '[' then Container(Array, p, ElementsAt(s, p + 1, Array))
    else if s[p] == 'n' then Leaf(Null, p, LiteralEnd(s, p, "null"), 0)
    else if s[p] == 't' then Leaf(True, p, LiteralEnd(s, p, "true"), 0)
    else if s[p] == 'f' then Leaf(False, p, LiteralEnd(s, p, "false"), 0)
    else if s[p] == '-' || IsDigit(s[p]) then Leaf(Number, p, NumberEnd(s, p), 0)
    else Fail(INVALID, 0)
  }

  function Container(kind: Kind, p: nat, inside: Outcome): (o: Outcome) {
    match inside
    case Done(kids, end) => Done(Cons(kind, p, end, kids, Nil), end)
    case Fail(code, captured) => Fail(code, 1 + captured)
  }

  function Close(kind: Kind): char {
    if kind.Array? then ']' else '}'
  }

  /** At most one comma is passed over, and none is demanded. */
  function AfterComma(s: string, i: nat): (p: nat)
    requires i <= |s|
    ensures i <= p <= |s|
  {
    var p := Skip(s, i);
    if IsAt(s, p, ',') then p + 1 else p
  }

  function ElementAt(s: string, i: nat, kind: Kind): (o: Outcome)
    requires i <= |s|
    ensures Progress(s, i, o)
    decreases |s| - i, 2
  {
    if kind.Array? then ValueAt(s, i) else PairAt(s, i)
  }

  /** What follows the opening bracket, up to and including the closing one. */
  function ElementsAt(s: string, i: nat, kind: Kind): (o: Outcome)
    requires i <= |s|
    ensures Progress(s, i, o)
    decreases |s| - i, 3
  {
    var p := Skip(s, i);
    if IsAt(s, p, Close(kind)) then Done(Nil, p + 1)
    else
      var first := ElementAt(s, p, kind);
      if first.Fail? then first else Prepend(first.trees, ElementsAt(s, AfterComma(s, first.next), kind))
  }

  function KeyAt(s: string, i: nat): (o: Outcome)
    requires i <= |s|
    ensures Progress(s, i, o)
  {
    var p := Skip(s, i);
    if p == |s| then Fail(INCOMPLETE, 0)
    else if IsAlpha(s[p]) then Leaf(Str, p, At(NameEnd(s, p + 1)), 0)
    else if s[p] == '"' then Leaf(Str, p + 1, StringEnd(s, p + 1), 1)
    else Fail(INVALID, 0)
  }

  function PairAt(s: string, i: nat): (o: Outcome)
    requires i <= |s|
    ensures Progress(s, i, o)
    decreases |s| - i, 1
  {
    var key := KeyAt(s, i);
    if key.Fail? then key
    else
      var p := Skip(s, key.next);
      if p == |s| then Fail(INCOMPLETE, Size(key.trees))
      else if s[p] != ':' then Fail(INVALID, Size(key.trees))
      else Prepend(key.trees, ValueAt(s, p + 1))
  }

  /** A text is one object, after white space; what follows it is not looked at. */
  function ObjectAt(s: string, i: nat): (o: Outcome)
    requires i <= |s|
    ensures Progress(s, i, o)
  {
    var p := Skip(s, i);
    if p == |s| then Fail(INCOMPLETE, 0)
    else if s[p] != '{' then Fail(INVALID, 0)
    else Container(Object, p, ElementsAt(s, p + 1, Object))
  }

  function Measured(t: Token, end: nat, numDesc: int): Token {
    t.(len := end - t.start, numDesc := numDesc)
  }

  lemma LeafEnds(before: seq<Token>, t: Token)
    ensures before + [t] + Flatten(Nil) == before + [t]
  {
    assert before + [t] + [] == before + [t];
  }

  lemma MeasuredAt(before: seq<Token>, t: Token, below: seq<Token>, u: Token)
    ensures (before + [t] + below)[|before|] == t
    ensures (before + [t] + below)[|before| := u] == before + ([u] + below + [])
  {
  }

  // ---- the tokenizer -------------------------------------------------------

  class Tokenizer {
    const src: string
    const doRealloc: bool
    var cur: nat
    var tokens: array<Token>
    var numTokens: nat

    ghost predicate Valid()
      reads this
    {
      cur <= |src| && numTokens <= tokens.Length && (!Capturing() ==> numTokens == 0)
    }

    /** An array of no room that may not grow records nothing. */
    ghost predicate Capturing()
      reads this
    {
      doRealloc || tokens.Length > 0
    }

    ghost function Captured(): seq<Token>
      requires Valid()
      reads this, tokens
    {
      tokens[..numTokens]
    }

    ghost predicate Fits(n: nat)
      reads this
    {
      !Capturing() || doRealloc || numTokens + n <= tokens.Length
    }

    /** Parsing came to outcome o, unless more tokens were met than there was room for. */
    ghost predicate Came(r: int, o: Outcome, fits: bool, capturing: bool, before: seq<Token>)
      reads this, tokens
    {
      && Valid() && Capturing() == capturing
      && r == (if fits then Code(o) else TOO_SMALL)
      && (r == 0 ==> o.Done? && cur == o.next && Captured() == before + (if capturing then Flatten(o.trees) else []))
    }

    constructor (src: string, arr: array<Token>, doRealloc: bool)
      ensures Valid() && this.src == src && this.doRealloc == doRealloc && cur == 0 && tokens == arr && numTokens == 0
    {
      this.src, this.doRealloc, cur, tokens, numTokens := src, doRealloc, 0, arr, 0;
    }

    /** cur(): the position of the next character that is not white space. */
    method SkipWhitespaces()
      requires Valid()
      modifies this`cur
      ensures Valid() && cur == Skip(src, old(cur))
    {
      while cur < |src| && IsSpace(src[cur])
        invariant Valid()
        invariant Skip(src, cur) == Skip(src, old(cur))
        decreases |src| - cur
      {
        cur := cur + 1;
      }
    }

    method TestAndSkip(expected: char) returns (r: int)
      requires Valid()
      modifies this`cur
      ensures Valid()
      ensures var p := Skip(src, old(cur));
              && r == (if p == |src| then INCOMPLETE else if src[p] == expected then 0 else INVALID)
              && cur == (if r == 0 then p + 1 else p)
    {
      SkipWhitespaces();
      if cur == |src| {
        return INCOMPLETE;
      }
      if src[cur] != expected {
        return INVALID;
      }
      cur := cur + 1;
      r := 0;
    }

    method CapturePtr(ptr: nat, kind: Kind) returns (r: int)
      requires Valid()
      modifies this`tokens, this`numTokens, tokens
      ensures Valid() && Capturing() == old(Capturing())
      ensures (tokens == old(tokens) || fresh(tokens)) && (!doRealloc ==> tokens == old(tokens))
      ensures r == if old(Fits(1)) then 0 else TOO_SMALL
      ensures r == 0 && Capturing() ==>
                && numTokens == old(numTokens) + 1
                && Captured() == old(Captured()) + [tokens[numTokens - 1]]
                && tokens[numTokens - 1].start == ptr && tokens[numTokens - 1].kind == kind
      ensures r == 0 && !Capturing() ==> numTokens == old(numTokens)
    {
      if doRealloc && numTokens >= tokens.Length {
        var bigger := new Token[if tokens.Length == 0 then 100 else tokens.Length * 2];
        forall k | 0 <= k < numTokens {
          bigger[k] := tokens[k];
        }
        assert bigger[..numTokens] == tokens[..numTokens];
        tokens := bigger;
      }
      if tokens.Length == 0 {
        return 0;
      }
      if numTokens >= tokens.Length {
        return TOO_SMALL;
      }
      tokens[numTokens] := tokens[numTokens].(start := ptr, kind := kind);
      numTokens := numTokens + 1;
      r := 0;
    }

    method CaptureLen(index: int, ptr: nat) returns (r: int)
      requires Valid()
      modifies tokens
      ensures Valid()
      ensures r == if tokens.Length == 0 || 0 <= index < tokens.Length then 0 else INVALID
      ensures index < 0 || index >= numTokens ==> Captured() == old(Captured())
      ensures 0 <= index < numTokens ==>
                Captured() == old(Captured())[index := Measured(old(tokens[index]), ptr, numTokens - 1 - index)]
    {
      if tokens.Length == 0 {
        return 0;
      }
      if !(0 <= index < tokens.Length) {
        return INVALID;
      }
      tokens[index] := Measured(tokens[index], ptr, numTokens - 1 - index);
      r := 0;
    }

    /** A token is over: it gets its length and the number of tokens captured since. */
    method EndToken(index: int, ghost before: seq<Token>, ghost t: Token, ghost kids: Forest)
      requires Valid() && 0 <= t.start <= cur
      requires Captured() == if Capturing() then before + [t] + Flatten(kids) else before
      requires Capturing() ==> index == |before|
      modifies tokens
      ensures Valid()
      ensures Captured() == before + (if Capturing() then Flatten(Cons(t.kind, t.start, cur, kids, Nil)) else [])
    {
      hide Flatten;
      var r := CaptureLen(index, cur);
      FlattenCases(Cons(t.kind, t.start, cur, kids, Nil));
      FlattenCases(Nil);
      MeasuredAt(before, t, Flatten(kids), Measured(t, cur, Size(kids)));
      assert before + [] == before;
    }

    method ParseString() returns (r: int)
      requires Valid() && IsAt(src, cur, '"')
      modifies this`cur, this`tokens, this`numTokens, tokens
      ensures (tokens == old(tokens) || fresh(tokens)) && (!doRealloc ==> tokens == old(tokens))
      ensures Came(r, Leaf(Str, old(cur) + 1, StringEnd(src, old(cur) + 1), 1),
                   old(Fits(1)), old(Capturing()), old(Captured()))
    {
      hide StringEnd;
      r := TestAndSkip('"');
      ghost var before, start := Captured(), cur;
      r := CapturePtr(cur, Str);
      if r < 0 {
        return;
      }
      ghost var t := if Capturing() then tokens[numTokens - 1] else Token(start, Str, 0, 0);
      r := FindQuote();
      if r == 0 {
        LeafEnds(before, t);
        EndToken(numTokens - 1, before, t, Nil);
        cur := cur + 1;
      }
    }

    /** Its loop, up to the closing quote. */
    method FindQuote() returns (r: int)
      requires Valid()
      modifies this`cur
      ensures Valid() && old(cur) <= cur
      ensures StringEnd(src, old(cur)) == if r == 0 then At(cur) else Bad(r)
    {
      hide StringEnd;
      while cur < |src|
        invariant Valid() && old(cur) <= cur
        invariant StringEnd(src, cur) == StringEnd(src, old(cur))
        decreases |src| - cur
      {
        StringCases(src, cur);
        var ch := src[cur];
        var len := CharLen(ch);
        if ch as int < 32 {
          return INVALID;
        }
        if len >= |src| - cur {
          return INCOMPLETE;
        }
        if ch == '\\' {
          var n := EscapeLen(src, cur + 1);
          if n <= 0 {
            return n;
          }
          len := len + n;
        } else if ch == '"' {
          return 0;
        }
        cur := cur + len;
      }
      StringCases(src, cur);
      r := INCOMPLETE;
    }

    method SkipDigits()
      requires Valid()
      modifies this`cur
      ensures Valid() && cur == DigitsEnd(src, old(cur))
    {
      while cur < |src| && IsDigit(src[cur])
        invariant Valid()
        invariant DigitsEnd(src, cur) == DigitsEnd(src, old(cur))
        decreases |src| - cur
      {
        cur := cur + 1;
      }
    }

    /** digit+, as demanded three times by parse_number. */
    method ScanDigits() returns (r: int)
      requires Valid()
      modifies this`cur
      ensures Valid() && old(cur) <= cur
      ensures SomeDigits(src, old(cur)) == if r == 0 then At(cur) else Bad(r)
    {
      if cur >= |src| {
        return INCOMPLETE;
      }
      if !IsDigit(src[cur]) {
        return INVALID;
      }
      SkipDigits();
      r := 0;
    }

    method ScanNumber() returns (r: int)
      requires Valid() && cur < |src|
      modifies this`cur
      ensures Valid() && old(cur) <= cur
      ensures NumberEnd(src, old(cur)) == if r == 0 then At(cur) else Bad(r)
    {
      hide SomeDigits;
      if src[cur] == '-' {
        cur := cur + 1;
      }
      r := ScanDigits();
      if r < 0 {
        return;
      }
      if IsAt(src, cur, '.') {
        cur := cur + 1;
        r := ScanDigits();
        if r < 0 {
          return;
        }
      }
      if IsAt(src, cur, 'e') || IsAt(src, cur, 'E') {
        cur := cur + 1;
        if IsAt(src, cur, '+') || IsAt(src, cur, '-') {
          cur := cur + 1;
        }
        r := ScanDigits();
        if r < 0 {
          return;
        }
      }
    }

    method ParseNumber() returns (r: int)
      requires Valid() && cur < |src| && (src[cur] == '-' || IsDigit(src[cur]))
      modifies this`cur, this`tokens, this`numTokens, tokens
      ensures (tokens == old(tokens) || fresh(tokens)) && (!doRealloc ==> tokens == old(tokens))
      ensures Came(r, Leaf(Number, old(cur), NumberEnd(src, old(cur)), 0),
                   old(Fits(1)), old(Capturing()), old(Captured()))
    {
      hide NumberEnd;
      ghost var before, start := Captured(), cur;
      r := CapturePtr(cur, Number);
      if r < 0 {
        return;
      }
      ghost var t := if Capturing() then tokens[numTokens - 1] else Token(start, Number, 0, 0);
      label captured:
      r := ScanNumber();
      assert Captured() == old@captured(Captured());
      if r < 0 {
        return;
      }
      LeafEnds(before, t);
      EndToken(numTokens - 1, before, t, Nil);
    }

    method Expect(w: string, kind: Kind) returns (r: int)
      requires Valid()
      modifies this`cur, this`tokens, this`numTokens, tokens
      ensures (tokens == old(tokens) || fresh(tokens)) && (!doRealloc ==> tokens == old(tokens))
      ensures Came(r, Leaf(kind, old(cur), LiteralEnd(src, old(cur), w), 0),
                   old(Fits(1)), old(Capturing()), old(Captured()))
    {
      hide LiteralEnd;
      ghost var before, start := Captured(), cur;
      var n := |src| - cur;
      r := CapturePtr(cur, kind);
      if r < 0 {
        return;
      }
      ghost var t := if Capturing() then tokens[numTokens - 1] else Token(start, kind, 0, 0);
      var i := 0;
      while i < |w|
        invariant 0 <= i <= |w| && i <= n
        invariant forall k :: 0 <= k < i ==> src[cur + k] == w[k]
      {
        if i >= n || src[cur + i] != w[i] {
          break;
        }
        i := i + 1;
      }
      LiteralCases(src, cur, w, i);
      if i < |w| {
        return if i >= n then INCOMPLETE else INVALID;
      }
      cur := cur + |w|;
      LeafEnds(before, t);
      EndToken(numTokens - 1, before, t, Nil);
      r := 0;
    }

    method ParseIdentifier() returns (r: int)
      requires Valid() && cur < |src| && IsAlpha(src[cur])
      modifies this`cur, this`tokens, this`numTokens, tokens
      ensures (tokens == old(tokens) || fresh(tokens)) && (!doRealloc ==> tokens == old(tokens))
      ensures Came(r, Leaf(Str, old(cur), At(NameEnd(src, old(cur) + 1)), 0),
                   old(Fits(1)), old(Capturing()), old(Captured()))
    {
      ghost var before, start := Captured(), cur;
      r := CapturePtr(cur, Str);
      if r < 0 {
        return;
      }
      ghost var t := if Capturing() then tokens[numTokens - 1] else Token(start, Str, 0, 0);
      label captured:
      while cur < |src| && IsName(src[cur])
        invariant Valid() && start <= cur && tokens == old@captured(tokens) && numTokens == old@captured(numTokens)
        invariant NameEnd(src, cur) == NameEnd(src, start + 1)
        invariant Captured() == old@captured(Captured())
        decreases |src| - cur
      {
        cur := cur + 1;
      }
      LeafEnds(before, t);
      EndToken(numTokens - 1, before, t, Nil);
      r := 0;
    }

    method ParseKey() returns (r: int)
      requires Valid()
      modifies this`cur, this`tokens, this`numTokens, tokens
      ensures (tokens == old(tokens) || fresh(tokens)) && (!doRealloc ==> tokens == old(tokens))
      ensures var o := KeyAt(src, old(cur));
              Came(r, o, old(Fits(Count(o))), old(Capturing()), old(Captured()))
    {
      hide Leaf, StringEnd, NameEnd, Skip;
      SkipWhitespaces();
      if cur == |src| {
        return INCOMPLETE;
      }
      LeafCount(Str, cur, At(NameEnd(src, cur + 1)), 0);
      LeafCount(Str, cur + 1, StringEnd(src, cur + 1), 1);
      if IsAlpha(src[cur]) {
        r := ParseIdentifier();
      } else if src[cur] == '"' {
        r := ParseString();
      } else {
        r := INVALID;
      }
    }

    method ParsePair() returns (r: int)
      requires Valid()
      modifies this`cur, this`tokens, this`numTokens, tokens
      ensures (tokens == old(tokens) || fresh(tokens)) && (!doRealloc ==> tokens == old(tokens))
      ensures var o := PairAt(src, old(cur));
              Came(r, o, old(Fits(Count(o))), old(Capturing()), old(Captured()))
      decreases |src| - cur, 2
    {
      hide ValueAt, KeyAt, Prepend, Skip, Flatten;
      ghost var before := Captured();
      ghost var key := KeyAt(src, cur);
      PairNeeds(src, cur);
      r := ParseKey();
      if r < 0 {
        return;
      }
      r := TestAndSkip(':');
      if r < 0 {
        return;
      }
      ghost var value := ValueAt(src, cur);
      PrependParts(key.trees, value, before);
      r := ParseValue();
    }

    method ParseValue() returns (r: int)
      requires Valid()
      modifies this`cur, this`tokens, this`numTokens, tokens
      ensures (tokens == old(tokens) || fresh(tokens)) && (!doRealloc ==> tokens == old(tokens))
      ensures var o := ValueAt(src, old(cur));
              Came(r, o, old(Fits(Count(o))), old(Capturing()), old(Captured()))
      decreases |src| - cur, 1
    {
      hide Leaf, StringEnd, NumberEnd, LiteralEnd, Container, ElementsAt, Skip, Flatten;
      SkipWhitespaces();
      if cur == |src| {
        return INCOMPLETE;
      }
      var ch := src[cur];
      LeafCount(Str, cur + 1, StringEnd(src, cur + 1), 1);
      LeafCount(Null, cur, LiteralEnd(src, cur, "null"), 0);
      LeafCount(True, cur, LiteralEnd(src, cur, "true"), 0);
      LeafCount(False, cur, LiteralEnd(src, cur, "false"), 0);
      if ch == '-' || IsDigit(ch) { LeafCount(Number, cur, NumberEnd(src, cur), 0); }
      if ch == '"' {
        r := ParseString();
      } else if ch == '{' {
        SkipNothing(src, cur);
        r := ParseObject();
      } else if ch == '[' {
        r := ParseArray();
      } else if ch == 'n' {
        r := Expect("null", Null);
      } else if ch == 't' {
        r := Expect("true", True);
      } else if ch == 'f' {
        r := Expect("false", False);
      } else if ch == '-' || IsDigit(ch) {
        r := ParseNumber();
      } else {
        r := INVALID;
      }
    }

    method ParseElement(kind: Kind) returns (r: int)
      requires Valid()
      modifies this`cur, this`tokens, this`numTokens, tokens
      ensures (tokens == old(tokens) || fresh(tokens)) && (!doRealloc ==> tokens == old(tokens))
      ensures var o := ElementAt(src, old(cur), kind);
              Came(r, o, old(Fits(Count(o))), old(Capturing()), old(Captured()))
      decreases |src| - cur, 3
    {
      hide ValueAt, PairAt, Flatten, Skip;
      if kind.Array? {
        r := ParseValue();
      } else {
        r := ParsePair();
      }
    }

    /** One round of the loop: an element and the comma that may follow it. */
    method ParseNext(kind: Kind, ghost done: Forest, ghost before: seq<Token>) returns (r: int)
      requires Valid() && !IsAt(src, cur, Close(kind)) && Skip(src, cur) == cur
      requires Captured() == if Capturing() then before + Flatten(done) else before
      modifies this`cur, this`tokens, this`numTokens, tokens
      ensures (tokens == old(tokens) || fresh(tokens)) && (!doRealloc ==> tokens == old(tokens))
      ensures var first, all := ElementAt(src, old(cur), kind), Prepend(done, ElementsAt(src, old(cur), kind));
              && Valid() && Capturing() == old(Capturing()) && Count(all) >= Size(done)
              && (r != 0 ==> r == if old(Fits(Count(all) - Size(done))) then Code(all) else TOO_SMALL)
              && (r != 0 ==> old(Fits(Count(all) - Size(done))) ==> all.Fail?)
              && (r == 0 ==>
                    && first.Done? && old(cur) < cur && Skip(src, cur) == cur
                    && Captured() == (if Capturing() then before + Flatten(Join(done, first.trees)) else before)
                    && all == Prepend(Join(done, first.trees), ElementsAt(src, cur, kind)))
      decreases |src| - cur, 4
    {
      hide ElementAt, ElementsAt, Prepend, Skip, Flatten, Join, Close, Size, IsAt, AfterComma;
      ghost var first := ElementAt(src, cur, kind);
      ElementsStep(src, cur, kind, done, first, before);
      r := ParseElement(kind);
      if r < 0 {
        return;
      }
      SkipWhitespaces();
      if cur < |src| && src[cur] == ',' {
        cur := cur + 1;
      }
      AfterCommaCases(src, first);
      ElementsSkip(src, cur, kind);
      SkipWhitespaces();
    }

    /** The loop of parse_array and of parse_object, with the closing bracket. */
    method ParseElements(kind: Kind) returns (r: int)
      requires Valid()
      modifies this`cur, this`tokens, this`numTokens, tokens
      ensures (tokens == old(tokens) || fresh(tokens)) && (!doRealloc ==> tokens == old(tokens))
      ensures var o := ElementsAt(src, old(cur), kind);
              Came(r, o, old(Fits(Count(o))), old(Capturing()), old(Captured()))
      decreases |src| - cur, 5
    {
      hide ElementAt, ElementsAt, Prepend, Skip, Flatten, Join, Close;
      ghost var before, done := Captured(), Nil;
      ghost var all := ElementsAt(src, cur, kind);
      ElementsStart(src, cur, kind, before);
      SkipWhitespaces();
      while !IsAt(src, cur, Close(kind))
        invariant Valid() && Capturing() == old(Capturing()) && old(cur) <= cur
        invariant (tokens == old(tokens) || fresh(tokens)) && (!doRealloc ==> tokens == old(tokens))
        invariant all == Prepend(done, ElementsAt(src, cur, kind)) && Skip(src, cur) == cur
        invariant Captured() == if Capturing() then before + Flatten(done) else before
        decreases |src| - cur
      {
        ghost var first := ElementAt(src, cur, kind);
        r := ParseNext(kind, done, before);
        if r < 0 {
          return;
        }
        done := Join(done, first.trees);
      }
      ElementsEnd(src, cur, kind, done);
      cur := cur + 1;
      r := 0;
    }

    method ParseArray() returns (r: int)
      requires Valid() && IsAt(src, cur, '[')
      modifies this`cur, this`tokens, this`numTokens, tokens
      ensures (tokens == old(tokens) || fresh(tokens)) && (!doRealloc ==> tokens == old(tokens))
      ensures var o := Container(Array, old(cur), ElementsAt(src, old(cur) + 1, Array));
              Came(r, o, old(Fits(Count(o))), old(Capturing()), old(Captured()))
      decreases |src| - cur, 0
    {
      hide ElementsAt, Skip, Flatten;
      ghost var before := Captured();
      SkipNothing(src, cur);
      r := TestAndSkip('[');
      if r < 0 {
        return;
      }
      ghost var all, start := ElementsAt(src, cur, Array), cur - 1;
      r := CapturePtr(cur - 1, Array);
      if r < 0 {
        return;
      }
      ghost var t := if Capturing() then tokens[numTokens - 1] else Token(start, Array, 0, 0);
      var ind := numTokens - 1;
      r := ParseElements(Array);
      if r < 0 {
        return;
      }
      EndToken(ind, before, t, all.trees);
    }

    method ParseObject() returns (r: int)
      requires Valid()
      modifies this`cur, this`tokens, this`numTokens, tokens
      ensures (tokens == old(tokens) || fresh(tokens)) && (!doRealloc ==> tokens == old(tokens))
      ensures var o := ObjectAt(src, old(cur));
              Came(r, o, old(Fits(Count(o))), old(Capturing()), old(Captured()))
      decreases |src| - cur, 0
    {
      hide ElementsAt, Skip, Flatten;
      ghost var before := Captured();
      r := TestAndSkip('{');
      if r < 0 {
        return;
      }
      ghost var all, start := ElementsAt(src, cur, Object), cur - 1;
      r := CapturePtr(cur - 1, Object);
      if r < 0 {
        return;
      }
      ghost var t := if Capturing() then tokens[numTokens - 1] else Token(start, Object, 0, 0);
      var ind := numTokens - 1;
      r := ParseElements(Object);
      if r < 0 {
        return;
      }
      EndToken(ind, before, t, all.trees);
    }

    /** doit: one object and the token that marks the end. */
    method DoIt() returns (r: int)
      requires Valid() && cur == 0 && numTokens == 0
      modifies this`cur, this`tokens, this`numTokens, tokens
      ensures Valid() && (tokens == old(tokens) || fresh(tokens)) && (!doRealloc ==> tokens == old(tokens))
      ensures var o := ObjectAt(src, 0);
              && r == (if old(Fits(if o.Done? then Count(o) + 1 else Count(o))) then Code(o) else TOO_SMALL)
              && (r == 0 ==> o.Done? && cur == o.next)
              && (r == 0 && old(Capturing()) ==>
                    && Size(o.trees) < tokens.Length && tokens[..Size(o.trees)] == Flatten(o.trees)
                    && IsEnd(tokens[Size(o.trees)], cur))
    {
      hide ObjectAt, Flatten;
      if |src| == 0 {
        EmptyText(src);
        return INCOMPLETE;
      }
      ghost var o := ObjectAt(src, 0);
      r := ParseObject();
      if r < 0 {
        return;
      }
      ghost var all := Captured();
      r := CapturePtr(cur, EndOfTokens);
      if r < 0 {
        return;
      }
      var ignored := CaptureLen(numTokens, cur);
      if Capturing() {
        assert Captured()[..|all|] == all && all == [] + Flatten(o.trees) == Flatten(o.trees);
        assert Captured()[|all|] == tokens[|all|];
        assert tokens[..|all|] == Captured()[..|all|];
      }
    }
  }

  lemma EmptyText(s: string)
    requires s == ""
    ensures ObjectAt(s, 0) == Fail(INCOMPLETE, 0)
  {
  }

  predicate IsEnd(t: Token, at: nat) {
    t.kind.EndOfTokens? && t.start == at
  }

  /** parse_json: on success the number of bytes consumed, with the caller's array
    filled unless it has no room at all. */
  method ParseJson(s: string, arr: array<Token>) returns (r: int)
    modifies arr
    ensures var o := ObjectAt(s, 0);
            var needed := if o.Done? then Size(o.trees) + 1 else o.captured;
            && r == (if 0 < arr.Length < needed then TOO_SMALL else if o.Done? then o.next else o.code)
            && (r >= 0 && arr.Length > 0 ==>
                  && arr[..Size(o.trees)] == Flatten(o.trees)
                  && IsEnd(arr[Size(o.trees)], o.next))
  {
    hide ObjectAt;
    var f := new Tokenizer(s, arr, false);
    r := f.DoIt();
    if r == 0 {
      r := f.cur;
    }
  }

  /** parse_json2: the same in an array that grows, or null. */
  method ParseJson2(s: string) returns (tokens: array?<Token>)
    ensures var o := ObjectAt(s, 0);
            && (tokens == null <==> o.Fail?)
            && (tokens != null ==>
                  && fresh(tokens) && Size(o.trees) < tokens.Length
                  && tokens[..Size(o.trees)] == Flatten(o.trees)
                  && IsEnd(tokens[Size(o.trees)], o.next))
  {
    hide ObjectAt;
    var none := new Token[0];
    var f := new Tokenizer(s, none, true);
    var r := f.DoIt();
    tokens := if r < 0 then null else f.tokens;
  }

  lemma LiteralCases(s: string, i: nat, w: string, k: nat)
    requires k <= |w| && i + k <= |s| && forall j :: 0 <= j < k ==> s[i + j] == w[j]
    ensures k == |w| ==> LiteralEnd(s, i, w) == At(i + |w|)
    ensures k < |w| && i + k == |s| ==> LiteralEnd(s, i, w) == Bad(INCOMPLETE)
    ensures k < |w| && i + k < |s| && s[i + k] != w[k] ==> LiteralEnd(s, i, w) == Bad(INVALID)
  {
    assert forall j :: 0 <= j < k ==> s[i..][j] == w[j];
    if k < |w| && i + k < |s| && s[i + k] != w[k] {
      assert s[i..][k] != w[k];
    }
  }

  lemma AfterCommaCases(s: string, first: Outcome)
    ensures first.Done? && first.next <= |s| ==>
              var p := Skip(s, first.next);
              AfterComma(s, first.next) == if p < |s| && s[p] == ',' then p + 1 else p
  {
  }

  lemma SkipTwice(s: string, i: nat)
    requires i <= |s|
    ensures Skip(s, Skip(s, i)) == Skip(s, i)
    decreases |s| - i
  {
    if i < |s| && IsSpace(s[i]) { SkipTwice(s, i + 1); }
  }

  lemma ElementsSkip(s: string, i: nat, kind: Kind)
    requires i <= |s|
    ensures ElementsAt(s, Skip(s, i), kind) == ElementsAt(s, i, kind)
    ensures Skip(s, Skip(s, i)) == Skip(s, i)
  {
    SkipTwice(s, i);
  }

  lemma ElementsStart(s: string, i: nat, kind: Kind, before: seq<Token>)
    requires i <= |s|
    ensures ElementsAt(s, i, kind) == Prepend(Nil, ElementsAt(s, Skip(s, i), kind))
    ensures Skip(s, Skip(s, i)) == Skip(s, i) && before + Flatten(Nil) == before
  {
    hide ElementsAt, Prepend;
    ElementsSkip(s, i, kind);
    PrependNil(ElementsAt(s, i, kind));
    assert before + [] == before;
  }

  lemma PrependNil(o: Outcome)
    ensures Prepend(Nil, o) == o
  {
  }

  lemma ElementsStep(s: string, p: nat, kind: Kind, done: Forest, first: Outcome, base: seq<Token>)
    requires p <= |s| && Skip(s, p) == p && !IsAt(s, p, Close(kind))
    requires first == ElementAt(s, p, kind)
    ensures var all := Prepend(done, ElementsAt(s, p, kind));
            && (first.Fail? ==> all == Fail(first.code, Size(done) + first.captured))
            && (first.Done? ==>
                  && all == Prepend(Join(done, first.trees), ElementsAt(s, AfterComma(s, first.next), kind))
                  && Count(all) >= Size(done) + Size(first.trees)
                  && base + Flatten(done) + Flatten(first.trees) == base + Flatten(Join(done, first.trees)))
  {
    hide ElementAt, Skip, Flatten, AfterComma;
    if first.Done? {
      var more := ElementsAt(s, AfterComma(s, first.next), kind);
      PrependTwice(done, first.trees, more);
      CountPrepend(Join(done, first.trees), more);
      FlattenJoin(done, first.trees);
      Associates(base, Flatten(done), Flatten(first.trees));
    }
  }

  lemma ElementsEnd(s: string, p: nat, kind: Kind, done: Forest)
    requires IsAt(s, p, Close(kind)) && Skip(s, p) == p
    ensures Prepend(done, ElementsAt(s, p, kind)) == Done(done, p + 1)
  {
    JoinNil(done);
  }

  lemma PairNeeds(s: string, i: nat)
    requires i <= |s|
    ensures Count(PairAt(s, i)) >= Count(KeyAt(s, i))
  {
    hide KeyAt, ValueAt, Skip, Prepend;
    var key := KeyAt(s, i);
    if key.Done? {
      var p := Skip(s, key.next);
      if IsAt(s, p, ':') { CountPrepend(key.trees, ValueAt(s, p + 1)); }
    }
  }

  lemma SkipNothing(s: string, i: nat)
    requires i < |s| && !IsSpace(s[i])
    ensures Skip(s, i) == i
  {
  }

  lemma LeafCount(kind: Kind, start: nat, r: Scan, skip: nat)
    ensures Count(Leaf(kind, start, r, skip)) == 1
  {
    assert Size(Nil) == 0;
  }

  lemma PrependParts(f: Forest, o: Outcome, before: seq<Token>)
    ensures Count(Prepend(f, o)) == Size(f) + Count(o) && Code(Prepend(f, o)) == Code(o)
    ensures o.Done? ==>
              var all := Prepend(f, o);
              all.Done? && all.next == o.next && before + Flatten(all.trees) == before + Flatten(f) + Flatten(o.trees)
  {
    CountPrepend(f, o);
    if o.Done? {
      FlattenJoin(f, o.trees);
      Associates(before, Flatten(f), Flatten(o.trees));
    }
  }

  lemma StringCases(s: string, i: nat)
    requires i <= |s|
    ensures StringEnd(s, i) ==
              if i == |s| then Bad(INCOMPLETE)
              else if s[i] as int < 32 then Bad(INVALID)
              else if CharLen(s[i]) >= |s| - i then Bad(INCOMPLETE)
              else if s[i] == '\\' then
                if EscapeLen(s, i + 1) <= 0 then Bad(EscapeLen(s, i + 1)) else StringEnd(s, i + 1 + EscapeLen(s, i + 1))
              else if s[i] == '"' then At(i)
              else StringEnd(s, i + CharLen(s[i]))
  {
  }

  // ---- what a parsed tree looks like ---------------------------------------

  /** The trees lie in [lo, hi) one after another, containers begin and end with their brackets and
    hold their children inside them, and everything else is childless. */
  predicate Shaped(s: string, f: Forest, lo: nat, hi: nat) {
    f.Nil? || (
      && lo <= f.start <= f.end <= hi <= |s|
      && (if f.kind.Object? || f.kind.Array? then
            && f.start + 2 <= f.end && s[f.start] == (if f.kind.Array? then '[' else '{')
            && s[f.end - 1] == Close(f.kind)
            && Shaped(s, f.kids, f.start + 1, f.end - 1)
            && (f.kind.Object? ==> Pairs(f.kids))
          else f.kids.Nil?)
      && Shaped(s, f.rest, f.end, hi))
  }

  predicate Pairs(f: Forest) {
    f.Nil? || (f.kind.Str? && f.kids.Nil? && f.rest.Cons? && Pairs(f.rest.rest))
  }

  lemma {:induction false} ShapedJoin(s: string, a: Forest, b: Forest, lo: nat, mid: nat, hi: nat)
    requires Shaped(s, a, lo, mid) && Shaped(s, b, mid, hi) && lo <= mid <= hi <= |s|
    ensures Shaped(s, Join(a, b), lo, hi)
    decreases a
  {
    if a.Nil? {
      ShapedWider(s, b, mid, hi, lo, hi);
    } else {
      ShapedJoin(s, a.rest, b, a.end, mid, hi);
    }
  }

  lemma {:induction false} ShapedWider(s: string, f: Forest, lo: nat, hi: nat, lo2: nat, hi2: nat)
    requires Shaped(s, f, lo, hi) && lo2 <= lo && hi <= hi2 <= |s|
    ensures Shaped(s, f, lo2, hi2)
    decreases f
  {
    if f.Cons? { ShapedWider(s, f.rest, f.end, hi, f.end, hi2); }
  }

  lemma {:induction false} ValueShaped(s: string, i: nat)
    requires i <= |s|
    ensures var o := ValueAt(s, i);
            o.Done? ==> o.trees.Cons? && o.trees.rest.Nil? && Shaped(s, o.trees, i, o.next)
    decreases |s| - i, 0
  {
    hide Skip, StringEnd, NumberEnd, LiteralEnd, ElementsAt;
    var p := Skip(s, i);
    if IsAt(s, p, '{') {
      ElementsShaped(s, p + 1, Object);
    } else if IsAt(s, p, '[') {
      ElementsShaped(s, p + 1, Array);
    }
  }

  lemma PairShaped(s: string, i: nat)
    requires i <= |s|
    ensures var o := PairAt(s, i);
            o.Done? ==>
              && o.trees.Cons? && o.trees.kind.Str? && o.trees.kids.Nil?
              && o.trees.rest.Cons? && o.trees.rest.rest.Nil? && Shaped(s, o.trees, i, o.next)
    decreases |s| - i, 1
  {
    hide Skip, StringEnd, ValueAt;
    var key := KeyAt(s, i);
    if key.Done? {
      var p := Skip(s, key.next);
      if IsAt(s, p, ':') {
        ValueShaped(s, p + 1);
        var value := ValueAt(s, p + 1);
        if value.Done? {
          ShapedWider(s, value.trees, p + 1, value.next, key.next, value.next);
          ShapedJoin(s, key.trees, value.trees, i, key.next, value.next);
          assert Join(key.trees, value.trees).rest == value.trees;
        }
      }
    }
  }

  lemma {:induction false} PairsJoin(a: Forest, b: Forest)
    requires Pairs(a) && Pairs(b)
    ensures Pairs(Join(a, b))
  {
    if a.Cons? { PairsJoin(a.rest.rest, b); }
  }

  lemma ElementsShaped(s: string, i: nat, kind: Kind)
    requires i <= |s|
    ensures var o := ElementsAt(s, i, kind);
            o.Done? ==>
              && s[o.next - 1] == Close(kind) && Shaped(s, o.trees, i, o.next - 1)
              && (!kind.Array? ==> Pairs(o.trees))
    decreases |s| - i, 2
  {
    hide Skip, ValueAt, PairAt, Shaped, Join;
    var p := Skip(s, i);
    if IsAt(s, p, Close(kind)) {
      ShapedNil(s, i, p);
    } else {
      if kind.Array? { ValueShaped(s, p); } else { PairShaped(s, p); }
      var first := ElementAt(s, p, kind);
      if first.Done? {
        var q := AfterComma(s, first.next);
        ElementsShaped(s, q, kind);
        var more := ElementsAt(s, q, kind);
        if more.Done? {
          ShapedWider(s, first.trees, p, first.next, i, q);
          ShapedJoin(s, first.trees, more.trees, i, q, more.next - 1);
          if !kind.Array? { PairsJoin(first.trees, more.trees); }
        }
      }
    }
  }

  lemma ShapedNil(s: string, lo: nat, hi: nat)
    ensures Shaped(s, Nil, lo, hi)
  {
  }

  /** Every accepted text is one well-shaped object. */
  lemma TextShaped(s: string)
    ensures var o := ObjectAt(s, 0);
            o.Done? ==> o.trees.Cons? && o.trees.kind.Object? && o.trees.rest.Nil? && Shaped(s, o.trees, 0, o.next)
  {
    hide Skip, ElementsAt;
    var p := Skip(s, 0);
    if IsAt(s, p, '{') { ElementsShaped(s, p + 1, Object); }
  }

  function EndOf(t: Token): int {
    t.start + t.len
  }

  /** Read off the array: token q is among the num_desc tokens after p if and only if its range is
    inside p's; otherwise it lies wholly after it. */
  ghost predicate NestedOrApart(t: seq<Token>, p: nat, q: nat)
    requires p < q < |t|
  {
    if q <= p + t[p].numDesc then t[p].start <= t[q].start && EndOf(t[q]) <= EndOf(t[p])
    else EndOf(t[p]) <= t[q].start
  }

  lemma FlattenAt(f: Forest, p: nat)
    requires p < Size(f)
    ensures var k := Size(f.kids);
            && (p == 0 ==> Flatten(f)[p] == Root(f)[0])
            && (0 < p <= k ==> Flatten(f)[p] == Flatten(f.kids)[p - 1])
            && (p > k ==> Flatten(f)[p] == Flatten(f.rest)[p - 1 - k])
  {
    hide Flatten;
    FlattenCases(f);
    var k, below, after := Size(f.kids), Flatten(f.kids), Flatten(f.rest);
    assert Flatten(f)[p] == if p == 0 then Root(f)[0] else if p <= k then below[p - 1] else after[p - 1 - k];
  }

  lemma {:induction false} InsideRange(s: string, f: Forest, lo: nat, hi: nat, p: nat)
    requires Shaped(s, f, lo, hi) && p < Size(f)
    ensures var t := Flatten(f)[p]; lo <= t.start <= EndOf(t) <= hi && 0 <= t.numDesc < Size(f) - p
    decreases f
  {
    hide Flatten;
    var k := Size(f.kids);
    FlattenAt(f, p);
    if p == 0 {
    } else if p <= k {
      InsideRange(s, f.kids, f.start + 1, f.end - 1, p - 1);
    } else {
      InsideRange(s, f.rest, f.end, hi, p - 1 - k);
    }
  }

  lemma {:induction false} RangesNestOrStayApart(s: string, f: Forest, lo: nat, hi: nat, p: nat, q: nat)
    requires Shaped(s, f, lo, hi) && p < q < Size(f)
    ensures NestedOrApart(Flatten(f), p, q)
    decreases f
  {
    hide Flatten;
    var k := Size(f.kids);
    FlattenAt(f, p);
    FlattenAt(f, q);
    InsideRange(s, f, lo, hi, p);
    if q <= k {
      InsideRange(s, f.kids, f.start + 1, f.end - 1, q - 1);
      if p > 0 { RangesNestOrStayApart(s, f.kids, f.start + 1, f.end - 1, p - 1, q - 1); }
    } else {
      InsideRange(s, f.rest, f.end, hi, q - 1 - k);
      if 0 < p <= k {
        InsideRange(s, f.kids, f.start + 1, f.end - 1, p - 1);
      } else if p > k {
        RangesNestOrStayApart(s, f.rest, f.end, hi, p - 1 - k, q - 1 - k);
      }
    }
  }
}
