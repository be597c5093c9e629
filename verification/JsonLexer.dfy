/** The scanner of dev/svr/3rd/json.hpp over a string buffer, whose byte at the limit is the
  terminating NUL.  Labels of the generated code keep their numbers. */
module JsonLexer {
  import opened Common
  import opened JsonNumber
  import opened Numerals
  import opened Utf8

  datatype Kind =
    | LiteralTrue | LiteralFalse | LiteralNull
    | ValueString | ValueNumber
    | BeginArray | BeginObject | EndArray | EndObject
    | NameSeparator | ValueSeparator
    | ParseError | EndOfInput

  /** A token class with the range [start, end) it was read from. */
  datatype Token = Token(kind: Kind, start: nat, end: nat)

  /** The character at p; the buffer ends with a NUL. */
  function At(t: string, p: nat): char {
    if p < |t| then t[p] else '\0'
  }

  // ---- what a token is -----------------------------------------------------

  predicate IsSpace(c: char) { c == ' ' || c == '\t' || c == '\n' || c == '\r' }

  function SkipSpaces(t: string, p: nat): (q: nat)
    requires p <= |t|
    ensures p <= q <= |t| && !IsSpace(At(t, q))
    decreases |t| - p
  {
    if IsSpace(At(t, p)) then SkipSpaces(t, p + 1) else p
  }


  predicate SimpleEscape(c: char) {
    c == '\"' || c == '\\' || c == '/' || c == 'b' || c == 'f' || c == 'n' || c == 'r' || c == 't'
  }

  predicate FourHex(t: string, p: nat) {
    IsHexDigit(At(t, p)) && IsHexDigit(At(t, p + 1)) && IsHexDigit(At(t, p + 2)) && IsHexDigit(At(t, p + 3))
  }

  /** Where the string whose body starts at p ends, just after its closing quote; -1 if the
    body is ill formed.  Raw characters 0x10 to 0x1F are taken, as the transition table does. */
  function StringEnd(t: string, p: nat): (e: int)
    requires p <= |t|
    ensures e == -1 || p < e <= |t|
    decreases |t| - p
  {
    var c := At(t, p);
    if c == '\"' then p + 1
    else if c == '\\' then
      if SimpleEscape(At(t, p + 1)) then StringEnd(t, p + 2)
      else if At(t, p + 1) == 'u' && FourHex(t, p + 2) then StringEnd(t, p + 6)
      else -1
    else if c <= '\U{0F}' then -1
    else StringEnd(t, p + 1)
  }

  predicate StartsNumber(c: char) { c == '-' || IsDigit(c) }

  /** Where the longest number starting at p and ending no later than e ends; p if there is none. */
  ghost function NumberEnd(t: string, p: nat, e: nat): (m: nat)
    requires p <= e <= |t|
    ensures p <= m <= e && (m > p ==> IsNumber(t[p..m]))
    ensures forall n: nat :: m < n <= e ==> !IsNumber(t[p..n])
  {
    if e == p then p else if IsNumber(t[p..e]) then e else NumberEnd(t, p, e - 1)
  }

  function Literal(t: string, p: nat, word: string, kind: Kind): Token {
    if Reads(t, p, word) then Token(kind, p, p + |word|) else Token(ParseError, p, p + 1)
  }

  /** The token at a position that holds no space. */
  ghost function Classify(t: string, p: nat): Token
    requires p <= |t|
  {
    var c := At(t, p);
    if c == '\0' then Token(EndOfInput, p, p + 1)
    else if c == '[' then Token(BeginArray, p, p + 1)
    else if c == ']' then Token(EndArray, p, p + 1)
    else if c == '{' then Token(BeginObject, p, p + 1)
    else if c == '}' then Token(EndObject, p, p + 1)
    else if c == ',' then Token(ValueSeparator, p, p + 1)
    else if c == ':' then Token(NameSeparator, p, p + 1)
    else if c == 'n' then Literal(t, p, "null", LiteralNull)
    else if c == 't' then Literal(t, p, "true", LiteralTrue)
    else if c == 'f' then Literal(t, p, "false", LiteralFalse)
    else if c == '\"' then
      var e := StringEnd(t, p + 1);
      if e == -1 then Token(ParseError, p, p + 1) else Token(ValueString, p, e)
    else if StartsNumber(c) then
      var m := NumberEnd(t, p, |t|);
      if m == p then Token(ParseError, p, p + 1) else Token(ValueNumber, p, m)
    else Token(ParseError, p, p + 1)
  }

  /** What the parser may rely on about the current token. */
  ghost predicate GoodToken(t: string, k: Token) {
    && k.start < k.end <= |t| + 1 && (k.kind != EndOfInput ==> k.end <= |t|)
    && (k.kind == ValueString ==> StringEnd(t, k.start + 1) == k.end)
  }

  ghost function NextToken(t: string, p: nat): (k: Token)
    requires p <= |t|
    ensures GoodToken(t, k) && p < k.end
  {
    Classify(t, SkipSpaces(t, p))
  }

  // ---- number scanning facts -----------------------------------------------

  /** Once the automaton is dead, nothing longer is a number. */
  lemma DeadStops(t: string, p: nat, q: nat)
    requires p <= q <= |t|
    requires q == |t| || Delta(Run(Start, t[p..q]), t[q]) == Dead
    ensures forall m: nat :: q < m <= |t| ==> !Accepting(Run(Start, t[p..m]))
  {
    forall m: nat | q < m <= |t|
      ensures !Accepting(Run(Start, t[p..m]))
    {
      assert t[p..q + 1][..q - p] == t[p..q];
      assert Run(Start, t[p..q + 1]) == Dead;
      assert t[p..m] == t[p..q + 1] + t[q + 1..m];
      RunConcat(Start, t[p..q + 1], t[q + 1..m]);
      RunDead(t[q + 1..m]);
    }
  }

  /** The longest accepted prefix is the longest number. */
  lemma LongestIs(t: string, p: nat, m: nat)
    requires p <= m <= |t|
    requires m > p ==> Accepting(Run(Start, t[p..m]))
    requires forall n: nat :: m < n <= |t| ==> !Accepting(Run(Start, t[p..n]))
    ensures NumberEnd(t, p, |t|) == m
  {
    hide Run, IsNumber;
    var e := NumberEnd(t, p, |t|);
    AcceptsExactlyNumbers(t[p..e]);
    AcceptsExactlyNumbers(t[p..m]);
  }

  /** The automaton stopped at q with m the last accepting position, or p if there was none. */
  lemma NumberToken(t: string, p: nat, m: nat, q: nat)
    requires p < |t| && StartsNumber(t[p]) && p <= m <= q <= |t|
    requires m > p ==> Accepting(Run(Start, t[p..m]))
    requires forall n: nat :: m < n <= q ==> !Accepting(Run(Start, t[p..n]))
    requires q == |t| || Delta(Run(Start, t[p..q]), t[q]) == Dead
    ensures Classify(t, p) == if m == p then Token(ParseError, p, p + 1) else Token(ValueNumber, p, m)
  {
    hide Run, NumberEnd;
    DeadStops(t, p, q);
    LongestIs(t, p, m);
  }

  lemma StringToken(t: string, p: nat)
    requires p < |t| && t[p] == '\"'
    ensures Classify(t, p) == (var e := StringEnd(t, p + 1);
                              if e == -1 then Token(ParseError, p, p + 1) else Token(ValueString, p, e))
  {
  }

  lemma EscapeKinds(c: char)
    ensures SimpleEscape(c) ==> c != '\0' && c != 'u'
  {
  }

  lemma HexIsInside(t: string, p: nat)
    ensures IsHexDigit(At(t, p)) ==> p < |t|
  {
  }

  lemma Mismatch(t: string, p: nat, word: string, i: nat)
    requires i < |word| && At(t, p + i) != word[i]
    ensures !Reads(t, p, word)
  {
    if p + |word| <= |t| {
      assert t[p..p + |word|][i] == t[p + i];
    }
  }

  lemma RunNothing(t: string, p: nat)
    requires p <= |t|
    ensures Run(Start, t[p..p]) == Start
  {
  }

  lemma RunExtends(t: string, p: nat, q: nat)
    requires p <= q < |t|
    ensures Run(Start, t[p..q + 1]) == Delta(Run(Start, t[p..q]), t[q])
  {
    assert t[p..q + 1][..q - p] == t[p..q];
  }

  // ---- the scanner ---------------------------------------------------------

  /** The labels of the number part, each taken with its character still to be consumed. */
  datatype Label = L22 | L23 | L25 | L40 | L42 | L43 | L44 | L45 | L47 | L49

  /** The state after consuming that character. */
  function After(l: Label): State {
    match l
    case L22 => Minus
    case L23 => Zero
    case L25 => Digits
    case L40 => Digits
    case L42 => Dot
    case L43 => E
    case L44 => Sign
    case L45 => Exp
    case L47 => Frac
    case L49 => Zero
  }

  /** The labels that store m_marker. */
  predicate MarksPosition(at: Label) {
    at.L23? || at.L25? || at.L40? || at.L47? || at.L49?
  }

  method FirstLabel(yych: char) returns (at: Label)
    requires StartsNumber(yych)
    ensures After(at) == Delta(Start, yych) && (at.L22? || at.L23? || at.L25?)
  {
    at := if yych == '-' then L22 else if yych == '0' then L23 else L25;
  }

  /** The jump each label makes on the character after the one it consumed. */
  method Branch(at: Label, yych: char) returns (more: bool, next: Label)
    ensures more ==> Delta(After(at), yych) == After(next) && yych != '\0'
    ensures !more ==> Delta(After(at), yych) == Dead
    ensures more && at.L45? ==> next.L45?
    ensures more ==> !next.L22? && !next.L23? && !next.L25? && (next.L40? || next.L49? || !at.L22?)
  {
    next := at;
    more := true;
    match at {
      case L22 =>
        if yych == '0' { next := L49; } else if '1' <= yych <= '9' { next := L40; } else { more := false; }
      case L23 | L49 =>
        if yych == '.' { next := L42; } else if yych == 'E' || yych == 'e' { next := L43; } else { more := false; }
      case L25 | L40 =>
        if IsDigit(yych) { next := L40; }
        else if yych == '.' { next := L42; }
        else if yych == 'E' || yych == 'e' { next := L43; }
        else { more := false; }
      case L42 =>
        if IsDigit(yych) { next := L47; } else { more := false; }
      case L43 =>
        if yych == '+' || yych == '-' { next := L44; } else if IsDigit(yych) { next := L45; } else { more := false; }
      case L44 =>
        if IsDigit(yych) { next := L45; } else { more := false; }
      case L45 =>
        if IsDigit(yych) { next := L45; } else { more := false; }
      case L47 =>
        if IsDigit(yych) { next := L47; } else if yych == 'E' || yych == 'e' { next := L43; } else { more := false; }
    }
  }

  class Lexer {
    const content: string
    var start: nat
    var marker: nat
    var cursor: nat

    constructor (s: string)
      ensures content == s && start == 0 && cursor == 0
    {
      content := s;
      start, marker, cursor := 0, 0, 0;
    }

    /** Labels 50 to 62: the rest of a literal, falling back to the marker on a mismatch. */
    method ScanLiteral(word: string, kind: Kind) returns (k: Kind)
      requires |word| > 0 && cursor < |content| && content[cursor] == word[0]
      requires forall i :: 0 <= i < |word| ==> word[i] != '\0'
      modifies `marker, `cursor
      ensures Token(k, old(cursor), cursor) == Literal(content, old(cursor), word, kind)
    {
      ghost var p := cursor;
      cursor := cursor + 1;
      marker := cursor;
      var i := 1;
      while i < |word|
        invariant 1 <= i <= |word| && cursor == p + i <= |content| && marker == p + 1
        invariant content[p..cursor] == word[..i]
      {
        if At(content, cursor) != word[i] {
          cursor := marker;
          Mismatch(content, p, word, i);
          return ParseError;
        }
        assert cursor < |content| && content[cursor] == word[i];
        assert content[p..cursor + 1] == content[p..cursor] + [content[cursor]];
        assert word[..i + 1] == word[..i] + [word[i]];
        cursor := cursor + 1;
        i := i + 1;
      }
      assert word[..i] == word;
      k := kind;
    }

    /** Labels 36 to 39: four hexadecimal digits after the cursor; it ends on the last of them. */
    method ScanFourHex() returns (hex: bool)
      requires cursor < |content|
      modifies `cursor
      ensures hex <==> FourHex(content, old(cursor) + 1)
      ensures hex ==> cursor == old(cursor) + 4 < |content|
    {
      hide IsHexDigit;
      var h := 0;
      ghost var u := cursor;
      while h < 4
        invariant 0 <= h <= 4 && cursor == u + h < |content|
        invariant h > 0 ==> IsHexDigit(At(content, u + 1))
        invariant h > 1 ==> IsHexDigit(At(content, u + 2))
        invariant h > 2 ==> IsHexDigit(At(content, u + 3))
        invariant h > 3 ==> IsHexDigit(At(content, u + 4))
      {
        cursor := cursor + 1;
        HexIsInside(content, cursor);
        if !IsHexDigit(At(content, cursor)) {
          return false;
        }
        h := h + 1;
      }
      hex := true;
    }

    /** Labels 26 and 30 to 39. */
    method ScanString() returns (k: Kind)
      requires cursor < |content| && content[cursor] == '\"'
      modifies `marker, `cursor
      ensures Token(k, old(cursor), cursor) == Classify(content, old(cursor))
    {
      hide Classify, FourHex, SimpleEscape;
      ghost var p := cursor;
      StringToken(content, p);
      cursor := cursor + 1;
      marker := cursor;
      var yych := At(content, cursor);
      while yych > '\U{0F}' && yych != '\"'
        invariant p < cursor <= |content| && marker == p + 1 && yych == At(content, cursor)
        invariant StringEnd(content, p + 1) == StringEnd(content, cursor)
        decreases |content| - cursor
      {
        if yych != '\\' {
          // label 30
          cursor := cursor + 1;
        } else {
          // label 33
          cursor := cursor + 1;
          yych := At(content, cursor);
          EscapeKinds(yych);
          if SimpleEscape(yych) {
            cursor := cursor + 1;
          } else if yych == 'u' {
            var hex := ScanFourHex();
            if !hex {
              cursor := marker;
              return ParseError;
            }
            cursor := cursor + 1;
          } else {
            cursor := marker;
            return ParseError;
          }
        }
        yych := At(content, cursor);
      }
      if yych == '\"' {
        // label 34
        cursor := cursor + 1;
        return ValueString;
      }
      // label 32 with yyaccept == 0
      cursor := marker;
      return ParseError;
    }

    /** Labels 22 to 25 and 40 to 49: the number automaton, remembering in marker the last
      position at which the text read so far was a number. */
    method ScanNumber() returns (k: Kind)
      requires cursor < |content| && StartsNumber(content[cursor])
      modifies `marker, `cursor
      ensures Token(k, old(cursor), cursor) == Classify(content, old(cursor))
    {
      hide Run, Classify, Delta;
      ghost var p := cursor;
      var yyaccept := 0;
      var at := FirstLabel(At(content, cursor));
      RunNothing(content, p);
      var more := true;
      while more
        invariant p <= cursor <= |content|
        invariant more ==> cursor < |content| && Delta(Run(Start, content[p..cursor]), content[cursor]) == After(at)
        invariant yyaccept == 1 ==> p < marker <= cursor && Accepting(Run(Start, content[p..marker]))
        invariant at.L22? ==> cursor == p && yyaccept == 0
        invariant yyaccept != 1 ==> more && (at.L22? || at.L23? || at.L25? || at.L40? || at.L49?)
        invariant !at.L45? ==> forall n: nat :: p < n <= cursor && Accepting(Run(Start, content[p..n])) ==>
              yyaccept == 1 && n <= marker
        decreases |content| - cursor, more
      {
        RunExtends(content, p, cursor);
        cursor := cursor + 1;
        if MarksPosition(at) {
          yyaccept, marker := 1, cursor;
        }
        var next;
        more, next := Branch(at, At(content, cursor));
        if !more {
          if at.L22? {
            NumberToken(content, p, p, cursor);
            return ParseError;
          }
          if Accepting(After(at)) {
            NumberToken(content, p, cursor, cursor);
            return ValueNumber;
          }
          NumberToken(content, p, marker, cursor);
          cursor := marker;
          return ValueNumber;
        }
        at := next;
      }
    }

    /** scan(): skips spaces by calling itself, then dispatches on the first character. */
    method Scan() returns (k: Kind)
      requires cursor <= |content|
      modifies `start, `marker, `cursor
      ensures Token(k, start, cursor) == NextToken(content, old(cursor))
      decreases |content| - cursor
    {
      hide NumberEnd, StringEnd;
      marker := 0;
      start := cursor;
      var yych := At(content, cursor);
      if IsSpace(yych) {
        // labels 2 to 5
        ghost var p := cursor;
        cursor := cursor + 1;
        while IsSpace(At(content, cursor))
          invariant p < cursor <= |content| && SkipSpaces(content, cursor) == SkipSpaces(content, p)
          decreases |content| - cursor
        {
          cursor := cursor + 1;
        }
        k := Scan();
        return;
      }
      if yych == 'n' {
        k := ScanLiteral("null", LiteralNull);
      } else if yych == 't' {
        k := ScanLiteral("true", LiteralTrue);
      } else if yych == 'f' {
        k := ScanLiteral("false", LiteralFalse);
      } else if yych == '\"' {
        k := ScanString();
      } else if StartsNumber(yych) {
        k := ScanNumber();
      } else {
        cursor := cursor + 1;
        k := SingleCharacter(yych);
      }
    }

    /** get_string() on a string token. */
    method GetString() returns (r: Decoded)
      requires start < cursor <= |content| && StringEnd(content, start + 1) == cursor
      ensures r == Unescape(content, start + 1, cursor - 1)
    {
      hide Unescape, SimpleEscape, EscapedChar, CodePoint, ToUnicode, StringEnd;
      var result := "";
      var i := start + 1;
      ghost var all := Unescape(content, start + 1, cursor - 1);
      while i < cursor - 1
        invariant start + 1 <= i
        invariant Prepend(result, Unescape(content, i, cursor - 1)) == all
        decreases cursor - i
      {
        UnescapeCases(content, i, cursor - 1);
        if At(content, i) == '\\' {
          i := i + 1;
          var c := At(content, i);
          if SimpleEscape(c) {
            PrependTwice(result, [EscapedChar(c)], Unescape(content, i + 1, cursor - 1));
            result := result + [EscapedChar(c)];
          } else if c == 'u' {
            var codepoint := CodePoint(content, i + 1);
            if IsHigh(codepoint) {
              if i + 6 >= |content| || At(content, i + 5) != '\\' || At(content, i + 6) != 'u' {
                return BadEscape;
              }
              var codepoint2 := CodePoint(content, i + 7);
              if !IsLow(codepoint2) {
                return BadEscape;
              }
              PrependTwice(result, ToUnicode(Astral(codepoint, codepoint2)), Unescape(content, i + 12, cursor - 1));
              result := result + ToUnicode(Astral(codepoint, codepoint2));
              i := i + 11;
            } else {
              if codepoint > 0x10_FFFF {
                return BadEscape;
              }
              PrependTwice(result, ToUnicode(codepoint), Unescape(content, i + 5, cursor - 1));
              result := result + ToUnicode(codepoint);
              i := i + 4;
            }
          }
        } else {
          PrependTwice(result, [At(content, i)], Unescape(content, i + 1, cursor - 1));
          result := result + [At(content, i)];
        }
        i := i + 1;
      }
      UnescapeCases(content, i, cursor - 1);
      r := Decoded(result);
    }
  }

  lemma UnescapeCases(t: string, i: nat, e: nat)
    ensures i >= e ==> Unescape(t, i, e) == Decoded("")
    ensures i < e && At(t, i) != '\\' ==> Unescape(t, i, e) == Prepend([At(t, i)], Unescape(t, i + 1, e))
    ensures i < e && At(t, i) == '\\' ==> Unescape(t, i, e) == UnescapeBackslash(t, i, e)
  {
  }

  lemma PairCase(t: string, i: nat, e: nat)
    requires i < e && At(t, i) == '\\' && At(t, i + 1) == 'u' && IsHigh(CodePoint(t, i + 2))
    ensures Unescape(t, i, e) == UnescapePair(t, i, e, CodePoint(t, i + 2))
  {
    hide CodePoint, UnescapePair;
  }

  lemma PrependTwice(a: string, b: string, d: Decoded)
    ensures Prepend(a, Prepend(b, d)) == Prepend(a + b, d)
  {
    if d.Decoded? { assert a + (b + d.s) == a + b + d.s; }
  }

  function SingleCharacter(c: char): Kind {
    if c == '\0' then EndOfInput else if c == '[' then BeginArray else if c == ']' then EndArray
    else if c == '{' then BeginObject else if c == '}' then EndObject
    else if c == ',' then ValueSeparator else if c == ':' then NameSeparator else ParseError
  }

  // ---- the value of a string token -----------------------------------------

  /** BadEscape stands for the exceptions of get_string and to_unicode. */
  datatype Decoded = Decoded(s: string) | BadEscape

  function Prepend(s: string, d: Decoded): Decoded {
    match d
    case Decoded(r) => Decoded(s + r)
    case BadEscape => BadEscape
  }

  function EscapedChar(c: char): char {
    if c == 't' then '\t' else if c == 'b' then '\U{8}' else if c == 'f' then '\U{C}'
    else if c == 'n' then '\n' else if c == 'r' then '\r' else c
  }

  /** The digits at the front, read in base 16 after those in acc. */
  function HexRun(s: string, acc: nat): nat {
    if s == "" || !IsHexDigit(s[0]) then acc else HexRun(s[1..], 16 * acc + HexDigitValue(s[0]))
  }

  function Unsigned(s: string): nat {
    if |s| > 2 && s[0] == '0' && (s[1] == 'x' || s[1] == 'X') && IsHexDigit(s[2]) then HexRun(s[2..], 0)
    else HexRun(s, 0)
  }

  /** strtoul in base 16: white space, a sign, a prefix, digits.  A blank is the only white space in a string. */
  function StrToUL(s: string): nat {
    if s != "" && s[0] == ' ' then StrToUL(s[1..])
    else if s != "" && s[0] == '+' then Unsigned(s[1..])
    else if s != "" && s[0] == '-' then (-(Unsigned(s[1..]) as int)) % 0x1_0000_0000_0000_0000
    else Unsigned(s)
  }

  function CodePoint(t: string, p: nat): nat {
    StrToUL([At(t, p), At(t, p + 1), At(t, p + 2), At(t, p + 3)])
  }

  /** Four digits, which the scanner asks for, are read by their places. */
  lemma FourDigits(t: string, p: nat)
    requires FourHex(t, p)
    ensures CodePoint(t, p)
         == 4096 * HexDigitValue(At(t, p)) + 256 * HexDigitValue(At(t, p + 1))
            + 16 * HexDigitValue(At(t, p + 2)) + HexDigitValue(At(t, p + 3))
  {
    hide HexDigitValue;
    var a, b, c, d := At(t, p), At(t, p + 1), At(t, p + 2), At(t, p + 3);
    var s := [a, b, c, d];
    var u, v, w := HexDigitValue(a), 16 * HexDigitValue(a) + HexDigitValue(b), [c, d];
    assert s[1..] == [b, c, d] && [b, c, d][1..] == w && w[1..] == [d] && [d][1..] == [];
    assert HexRun(s, 0) == HexRun([b, c, d], u) == HexRun(w, v);
    assert HexRun(w, v) == HexRun([d], 16 * v + HexDigitValue(c));
    assert HexRun([d], 16 * v + HexDigitValue(c)) == 16 * (16 * v + HexDigitValue(c)) + HexDigitValue(d);
    assert StrToUL(s) == HexRun(s, 0);
  }

  predicate IsHigh(c: nat) { 0xD800 <= c <= 0xDBFF }

  predicate IsLow(c: nat) { 0xDC00 <= c <= 0xDFFF }

  /** The code point of a surrogate pair, as to_unicode computes it. */
  function Astral(high: nat, low: nat): nat
    requires IsHigh(high) && IsLow(low)
  {
    high * 1024 + low - 0x35F_DC00
  }

  /** to_unicode for a code point that is not a high surrogate: its UTF-8 bytes. */
  function ToUnicode(c: nat): string
    requires c <= 0x10_FFFF
  {
    if c < 0x80 then [c as char]
    else if c <= 0x7FF then [(0xC0 + c / 64) as char, (0x80 + c % 64) as char]
    else if c <= 0xFFFF then [(0xE0 + c / 4096) as char, (0x80 + c / 64 % 64) as char, (0x80 + c % 64) as char]
    else [(0xF0 + c / 0x4_0000) as char, (0x80 + c / 4096 % 64) as char, (0x80 + c / 64 % 64) as char,
          (0x80 + c % 64) as char]
  }

  /** The characters between the quotes, from i up to e, with escapes replaced. */
  function Unescape(t: string, i: nat, e: nat): Decoded
    decreases e - i, 2
  {
    if i >= e then Decoded("")
    else if At(t, i) != '\\' then Prepend([At(t, i)], Unescape(t, i + 1, e))
    else UnescapeBackslash(t, i, e)
  }

  function UnescapeBackslash(t: string, i: nat, e: nat): Decoded
    requires i < e
    decreases e - i, 1
  {
    var c := At(t, i + 1);
    if SimpleEscape(c) then Prepend([EscapedChar(c)], Unescape(t, i + 2, e))
    else if c != 'u' then Unescape(t, i + 2, e)
    else
      var v := CodePoint(t, i + 2);
      if IsHigh(v) then UnescapePair(t, i, e, v)
      else if v > 0x10_FFFF then BadEscape
      else Prepend(ToUnicode(v), Unescape(t, i + 6, e))
  }

  /** A pair takes twelve characters, and the loop goes on behind the one after them. */
  function UnescapePair(t: string, i: nat, e: nat, high: nat): Decoded
    requires i < e && IsHigh(high)
    decreases e - i, 0
  {
    if i + 7 >= |t| || At(t, i + 6) != '\\' || At(t, i + 7) != 'u' then BadEscape
    else
      var low := CodePoint(t, i + 8);
      if IsLow(low) then Prepend(ToUnicode(Astral(high, low)), Unescape(t, i + 13, e)) else BadEscape
  }

  /** The letters after a backslash stand for themselves or for five control characters. */
  lemma EscapedChars()
    ensures EscapedChar('\"') == '\U{22}' && EscapedChar('\\') == '\U{5C}' && EscapedChar('/') == '\U{2F}'
    ensures EscapedChar('b') == '\U{8}' && EscapedChar('f') == '\U{C}' && EscapedChar('n') == '\U{A}'
    ensures EscapedChar('r') == '\U{D}' && EscapedChar('t') == '\U{9}'
  {
  }

  /** The bytes of a code point are UTF-8: decoding them gives it back, whatever follows. */
  lemma ToUnicodeDecodes(c: nat, rest: string)
    requires c <= 0x10_FFFF
    ensures First(ToUnicode(c) + rest) == Some((c, |ToUnicode(c)|))
  {
    if c >= 0x80 { TailBytes(c); }
  }

  lemma ToUnicodeIsWhole(c: nat)
    requires c <= 0x10_FFFF
    ensures Decode(ToUnicode(c)) == Some([c])
  {
    var b := ToUnicode(c);
    ToUnicodeDecodes(c, "");
    assert b + "" == b && b[|b|..] == "";
    hide ToUnicode, First;
    assert Decode(b[|b|..]) == Some([]);
    assert [c] + [] == [c];
  }

  lemma TailBytes(c: nat)
    ensures Continues((0x80 + c % 64) as char) && Low((0x80 + c % 64) as char) == c % 64
    ensures Continues((0x80 + c / 64 % 64) as char) && Low((0x80 + c / 64 % 64) as char) == c / 64 % 64
    ensures Continues((0x80 + c / 4096 % 64) as char) && Low((0x80 + c / 4096 % 64) as char) == c / 4096 % 64
    ensures c < 0x1_0000 ==> c == c / 4096 * 4096 + c / 64 % 64 * 64 + c % 64
    ensures c == c / 0x4_0000 * 0x4_0000 + c / 4096 % 64 * 4096 + c / 64 % 64 * 64 + c % 64
  {
    assert c / 64 / 64 == c / 4096 && c / 4096 / 64 == c / 0x4_0000;
  }

  /** Pairs stand for the code points from 0x10000 on, high half first (section 3 of RFC 2781). */
  lemma AstralIs(high: nat, low: nat)
    requires IsHigh(high) && IsLow(low)
    ensures 0x1_0000 <= Astral(high, low) <= 0x10_FFFF
    ensures Astral(high, low) == 0x1_0000 + (high - 0xD800) * 0x400 + (low - 0xDC00)
  {
  }

  // ---- the value of a number token -----------------------------------------

  /** How far strtold reads a decimal number whose digits start at p. */
  function DecimalEnd(t: string, p: nat): nat {
    var q := DigitsEnd(t, p);
    var f := if At(t, q) == '.' then DigitsEnd(t, q + 1) else q;
    if At(t, f) == 'e' || At(t, f) == 'E' then
      var d := if At(t, f + 1) == '+' || At(t, f + 1) == '-' then f + 2 else f + 1;
      if IsDigit(At(t, d)) then DigitsEnd(t, d) else f
    else f
  }

  /** strtold takes "0x" and a hexadecimal digit, perhaps after a point, as a hexadecimal number. */
  predicate StartsHexFloat(t: string, p: nat) {
    && At(t, p) == '0' && (At(t, p + 1) == 'x' || At(t, p + 1) == 'X')
    && (IsHexDigit(At(t, p + 2)) || (At(t, p + 2) == '.' && IsHexDigit(At(t, p + 3))))
  }

  /** Whether strtold, started at a number token, stops exactly at the token's end. */
  predicate ConvertsExactly(t: string, start: nat, end: nat) {
    var p := if At(t, start) == '-' then start + 1 else start;
    !StartsHexFloat(t, p) && DecimalEnd(t, p) == end
  }

  function DigitsValue(s: string): nat {
    if s == "" then 0 else 10 * DigitsValue(s[..|s| - 1]) + HexDigitValue(s[|s| - 1])
  }

  /** The integer an all-digits literal with optional minus denotes. */
  function WholeValue(s: string): int {
    if s != "" && s[0] == '-' then -(DigitsValue(s[1..]) as int) else DigitsValue(s)
  }

  predicate IsWhole(s: string) {
    AllDigits(if s != "" && s[0] == '-' then s[1..] else s)
  }
}
