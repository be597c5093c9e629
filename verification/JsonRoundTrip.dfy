/** Parsing undoes dumping, for the engine of dev/svr/3rd/json.hpp. */
module JsonRoundTrip {
  import opened Common
  import opened JsonText
  import opened JsonNumber
  import opened JsonLexer
  import opened JsonParser
  import opened Numerals

  // ---- pieces of text ------------------------------------------------------

  lemma {:induction false} SkipRun(t: string, p: nat, n: nat)
    requires p + n <= |t| && forall i :: p <= i < p + n ==> IsSpace(t[i])
    ensures NextToken(t, p) == NextToken(t, p + n)
    decreases n
  {
    if n > 0 { SkipRun(t, p + 1, n - 1); }
  }

  lemma SkipSpaceText(t: string, p: nat, w: string)
    requires Reads(t, p, w) && forall i :: 0 <= i < |w| ==> IsSpace(w[i])
    ensures NextToken(t, p) == NextToken(t, p + |w|)
  {
    forall i | p <= i < p + |w|
      ensures IsSpace(t[i])
    {
      ReadsAt(t, p, w, i - p);
    }
    SkipRun(t, p, |w|);
  }

  lemma TokenHere(t: string, p: nat)
    requires p <= |t| && !IsSpace(At(t, p))
    ensures NextToken(t, p) == Classify(t, p)
  {
  }

  // ---- strings -------------------------------------------------------------

  lemma HexDigitReads(n: nat)
    requires n < 16
    ensures IsHexDigit(HexDigit(n)) && HexDigitValue(HexDigit(n)) == n
  {
  }

  /** The escaped form of one character, followed by anything. */
  lemma EscapedChars(t: string, p: nat, c: char, e: nat)
    requires Reads(t, p, EscapeChar(c)) && p + |EscapeChar(c)| <= e
    ensures StringEnd(t, p) == StringEnd(t, p + |EscapeChar(c)|)
    ensures Unescape(t, p, e) == Prepend([c], Unescape(t, p + |EscapeChar(c)|, e))
  {
    var x := EscapeChar(c);
    ReadsAt(t, p, x, 0);
    if HasShortEscape(c) {
      ReadsAt(t, p, x, 1);
    } else if NeedsHex(c) {
      EscapedHex(t, p, c, e);
    }
  }

  lemma EscapedHex(t: string, p: nat, c: char, e: nat)
    requires NeedsHex(c) && Reads(t, p, EscapeChar(c)) && p + |EscapeChar(c)| <= e
    ensures StringEnd(t, p) == StringEnd(t, p + 6)
    ensures Unescape(t, p, e) == Prepend([c], Unescape(t, p + 6, e))
  {
    hide HexDigit, HexDigitValue, IsHexDigit;
    var x := EscapeChar(c);
    assert x == ['\\', 'u', '0', '0', HexDigit(c as int / 16 % 16), HexDigit(c as int % 16)];
    ReadsAt(t, p, x, 0);
    ReadsAt(t, p, x, 1);
    ReadsAt(t, p, x, 2);
    ReadsAt(t, p, x, 3);
    ReadsAt(t, p, x, 4);
    ReadsAt(t, p, x, 5);
    HexDigitReads(0);
    assert HexDigit(0) == '0' by { ZeroDigit(); }
    HexDigitReads(c as int / 16 % 16);
    HexDigitReads(c as int % 16);
    FourDigits(t, p + 2);
    assert CodePoint(t, p + 2) == c as int;
    assert ToUnicode(c as int) == [c];
  }

  lemma ZeroDigit()
    ensures HexDigit(0) == '0'
  {
  }

  lemma EmptyBody(t: string, p: nat)
    requires Reads(t, p, "\"")
    ensures StringEnd(t, p) == p + 1 && Unescape(t, p, p) == Decoded("")
  {
    ReadsAt(t, p, "\"", 0);
  }

  /** An escaped string followed by a quote is one string body and decodes to the string. */
  lemma {:induction false} EscapedBody(t: string, p: nat, s: string)
    requires Reads(t, p, Escape(s) + "\"")
    ensures StringEnd(t, p) == p + |Escape(s)| + 1
    ensures Unescape(t, p, p + |Escape(s)|) == Decoded(s)
    decreases |s|
  {
    hide EscapeChar, StringEnd, Unescape, Reads;
    if s == "" {
      assert Escape(s) + "\"" == "\"";
      EmptyBody(t, p);
    } else {
      var c, r := s[0], s[1..];
      assert Escape(s) + "\"" == EscapeChar(c) + (Escape(r) + "\"");
      ReadsSplit(t, p, EscapeChar(c), Escape(r) + "\"");
      EscapedChars(t, p, c, p + |Escape(s)|);
      EscapedBody(t, p + |EscapeChar(c)|, r);
      assert [c] + r == s;
    }
  }

  /** The scanner takes a dumped string as a single token, and get_string gives the string back. */
  lemma StringRoundTrip(t: string, p: nat, s: string)
    requires Reads(t, p, Quote(s))
    ensures NextToken(t, p) == Token(ValueString, p, p + |Quote(s)|)
    ensures Unescape(t, p + 1, p + |Quote(s)| - 1) == Decoded(s)
  {
    hide Escape, StringEnd, Unescape;
    assert Quote(s) == "\"" + (Escape(s) + "\"");
    ReadsSplit(t, p, "\"", Escape(s) + "\"");
    ReadsAt(t, p, Quote(s), 0);
    EscapedBody(t, p + 1, s);
    TokenHere(t, p);
  }

  // ---- integers ------------------------------------------------------------

  /** The characters that may follow a dumped value. */
  predicate Delimits(c: char) {
    c == ',' || c == ']' || c == '}' || c == '\n' || c == ' '
  }

  predicate Delimited(t: string, q: nat) {
    q == |t| || (q < |t| && Delimits(t[q]))
  }

  lemma {:induction false} DecimalShape(n: nat)
    ensures AllDigits(DecimalDigits(n)) && DigitsValue(DecimalDigits(n)) == n
    ensures IsInt(DecimalDigits(n)) && (DecimalDigits(n) == "0" <==> n == 0)
  {
    if n < 10 {
      var d := Digit(n);
      assert d as int == n + 48;
      assert DecimalDigits(n) == [d] && [d][..0] == "";
      assert DigitsValue([d]) == 10 * DigitsValue("") + HexDigitValue(d);
    } else {
      var front, last := DecimalDigits(n / 10), Digit(n % 10);
      DecimalShape(n / 10);
      var s := front + [last];
      assert s[..|s| - 1] == front;
      assert last as int == n % 10 + 48;
      assert s[0] == front[0];
    }
  }

  lemma {:induction false} DigitsRun(t: string, p: nat, d: string)
    requires Reads(t, p, d) && AllDigits(d) && !IsDigit(At(t, p + |d|))
    ensures DigitsEnd(t, p) == p + |d|
    decreases |d|
  {
    if d != "" {
      ReadsAt(t, p, d, 0);
      assert d == [d[0]] + d[1..];
      ReadsSplit(t, p, [d[0]], d[1..]);
      DigitsRun(t, p + 1, d[1..]);
    }
  }

  lemma DecimalRun(sign: string, n: nat)
    requires IsMinus(sign)
    ensures var q := Run(Start, sign + DecimalDigits(n)); q.Zero? || q.Digits?
  {
    hide Run, DecimalDigits;
    DecimalShape(n);
    RunConcat(Start, sign, DecimalDigits(n));
    RunMinus(sign);
    RunInt(Run(Start, sign), DecimalDigits(n));
  }

  /** Digits that end at a delimiter are one number token. */
  lemma DecimalToken(t: string, p: nat, sign: string, n: nat)
    requires IsMinus(sign) && Reads(t, p, sign + DecimalDigits(n)) && Delimited(t, p + |sign + DecimalDigits(n)|)
    ensures NextToken(t, p) == Token(ValueNumber, p, p + |sign + DecimalDigits(n)|)
  {
    hide Run, Classify, DecimalDigits;
    var x := sign + DecimalDigits(n);
    var q := p + |x|;
    DecimalShape(n);
    ReadsAt(t, p, x, 0);
    DecimalRun(sign, n);
    NoNumberLonger(t, p, q);
    assert StartsNumber(x[0]);
    NumberToken(t, p, q, q);
    TokenHere(t, p);
  }

  /** And they are converted exactly. */
  lemma DecimalConverts(t: string, p: nat, sign: string, n: nat)
    requires IsMinus(sign) && Reads(t, p, sign + DecimalDigits(n)) && Delimited(t, p + |sign + DecimalDigits(n)|)
    ensures ConvertsExactly(t, p, p + |sign + DecimalDigits(n)|)
  {
    hide DecimalDigits, DigitsEnd, StartsHexFloat, DecimalEnd, IsInt, HexDigit;
    var d := DecimalDigits(n);
    DecimalShape(n);
    ReadsSplit(t, p, sign, d);
    ReadsAt(t, p, sign + d, 0);
    if sign == "" { FirstIsDigit(n); }
    DecimalStops(t, p + |sign|, d);
    NotHexFloat(t, p + |sign|, n);
  }

  lemma FirstIsDigit(n: nat)
    ensures DecimalDigits(n)[0] != '-'
  {
    DecimalShape(n);
    assert IsDigit(DecimalDigits(n)[0]);
  }

  lemma DecimalStops(t: string, p: nat, d: string)
    requires Reads(t, p, d) && AllDigits(d) && Delimited(t, p + |d|)
    ensures DecimalEnd(t, p) == p + |d|
  {
    hide DigitsEnd;
    DigitsRun(t, p, d);
  }

  lemma NotHexFloat(t: string, p: nat, n: nat)
    requires Reads(t, p, DecimalDigits(n)) && Delimited(t, p + |DecimalDigits(n)|)
    ensures !StartsHexFloat(t, p)
  {
    ReadsAt(t, p, DecimalDigits(n), 0);
    if n > 0 { NonZeroLead(n); }
  }

  lemma {:induction false} NonZeroLead(n: nat)
    requires n > 0
    ensures DecimalDigits(n)[0] != '0'
  {
    if n >= 10 { NonZeroLead(n / 10); }
  }

  lemma NoNumberLonger(t: string, p: nat, q: nat)
    requires p < q && Delimited(t, q) && p <= |t|
    requires Run(Start, t[p..q]).Zero? || Run(Start, t[p..q]).Digits?
    ensures q == |t| || Delta(Run(Start, t[p..q]), t[q]) == Dead
  {
    hide Run;
  }

  /** Every 64-bit integer survives. */
  lemma IntegerRoundTrip(t: string, p: nat, i: int)
    requires IsInt64(i) && Reads(t, p, Decimal(i)) && Delimited(t, p + |Decimal(i)|)
    ensures var k := Token(ValueNumber, p, p + |Decimal(i)|);
            NextToken(t, p) == k && ConvertsExactly(t, k.start, k.end) && NumberOf(t, k) == Integer(i)
  {
    hide NextToken, ConvertsExactly, DecimalDigits, IsWhole, WholeValue;
    var sign := if i < 0 then "-" else "";
    var n := if i < 0 then -i else i;
    assert Decimal(i) == sign + DecimalDigits(n);
    DecimalToken(t, p, sign, n);
    DecimalConverts(t, p, sign, n);
    WholeDecimal(i);
  }

  lemma WholeDecimal(i: int)
    ensures IsWhole(Decimal(i)) && WholeValue(Decimal(i)) == i
  {
    hide DecimalDigits, DigitsValue;
    var n := if i < 0 then -i else i;
    DecimalShape(n);
    if i < 0 {
      assert Decimal(i)[1..] == DecimalDigits(n);
    }
  }

  // ---- separators ----------------------------------------------------------

  lemma PunctuationToken(t: string, p: nat, kind: Kind)
    requires p < |t| && SingleCharacter(t[p]) == kind && kind != ParseError && kind != EndOfInput
    ensures NextToken(t, p) == Token(kind, p, p + 1)
  {
  }

  lemma NewlineSkipped(t: string, p: nat, style: Style)
    requires Reads(t, p, Newline(style))
    ensures NextToken(t, p) == NextToken(t, p + |Newline(style)|)
  {
    SkipSpaceText(t, p, Newline(style));
  }

  /** The end of a non-empty array or object: white space, then the bracket. */
  lemma ClosingToken(t: string, p: nat, style: Style, n: nat, bracket: char, kind: Kind)
    requires Reads(t, p, Newline(style) + (Spaces(n) + [bracket]))
    requires SingleCharacter(bracket) == kind && (kind == EndArray || kind == EndObject)
    ensures NextToken(t, p) == Token(kind, p + |Newline(style)| + n, p + |Newline(style)| + n + 1)
    ensures Delimited(t, p)
  {
    hide Reads, NextToken, Spaces;
    var w := Newline(style) + (Spaces(n) + [bracket]);
    ReadsSplit(t, p, Newline(style), Spaces(n) + [bracket]);
    NewlineSkipped(t, p, style);
    var q := p + |Newline(style)|;
    ReadsSplit(t, q, Spaces(n), [bracket]);
    SpacesSkipped(t, q, n);
    ReadsAt(t, q + n, [bracket], 0);
    PunctuationToken(t, q + n, kind);
    ReadsAt(t, p, w, 0);
  }

  /** A comma, with the newline that follows it in pretty text. */
  lemma CommaToken(t: string, p: nat, style: Style)
    requires Reads(t, p, Comma(style))
    ensures NextToken(t, p) == Token(ValueSeparator, p, p + 1)
    ensures NextToken(t, p + 1) == NextToken(t, p + |Comma(style)|)
    ensures Delimited(t, p)
  {
    hide NextToken, Reads;
    ReadsAt(t, p, Comma(style), 0);
    PunctuationToken(t, p, ValueSeparator);
    if style.pretty {
      assert Comma(style) == "," + "\n";
      ReadsSplit(t, p, ",", "\n");
      SkipSpaceText(t, p + 1, "\n");
    }
  }

  /** A colon, with the space that follows it in pretty text. */
  lemma ColonToken(t: string, p: nat, style: Style)
    requires Reads(t, p, Colon(style))
    ensures NextToken(t, p) == Token(NameSeparator, p, p + 1)
    ensures NextToken(t, p + 1) == NextToken(t, p + |Colon(style)|)
  {
    hide NextToken, Reads;
    ReadsAt(t, p, Colon(style), 0);
    PunctuationToken(t, p, NameSeparator);
    if style.pretty {
      assert Colon(style) == ":" + " ";
      ReadsSplit(t, p, ":", " ");
      SkipSpaceText(t, p + 1, " ");
    }
  }

  // ---- keys ----------------------------------------------------------------

  lemma {:induction false} KeyLessExcludes(a: string, b: string)
    requires KeyLess(a, b)
    ensures a != b && !KeyLess(b, a)
  {
    if a != [] && a[0] == b[0] {
      KeyLessExcludes(a[1..], b[1..]);
    }
  }

  lemma {:induction false} InsertLast(ms: seq<Member>, key: string, value: Value)
    requires forall m :: m in ms ==> KeyLess(m.key, key)
    ensures Insert(ms, key, value) == ms + [Member(key, value)]
  {
    if ms != [] {
      assert ms[0] in ms;
      KeyLessExcludes(ms[0].key, key);
      InsertLast(ms[1..], key, value);
      assert ms == [ms[0]] + ms[1..];
    }
  }

  // ---- values --------------------------------------------------------------

  lemma StorableIsFloatFree(v: Value)
    requires Storable(v)
    ensures FloatFree(v)
  {
  }

  lemma {:induction false} ValueRoundTrip(t: string, p: nat, v: Value, style: Style, indent: nat)
    requires Storable(v) && FloatFree(v)
    requires Reads(t, p, Dump(v, style, indent)) && Delimited(t, p + |Dump(v, style, indent)|)
    ensures ParseValue(t, NextToken(t, p)) == Parsed(v, NextToken(t, p + |Dump(v, style, indent)|))
    decreases v, 0
  {
    hide NextToken, GoodToken, ParseItems, ParseMembers, Unescape;
    hide ConvertsExactly, NumberOf, Escape, Decimal, Storable, FloatFree;
    var q := p + |Dump(v, style, indent)|;
    match v {
      case Null => WordRoundTrip(t, p, "null", LiteralNull);
      case Boolean(b) =>
        if b { WordRoundTrip(t, p, "true", LiteralTrue); } else { WordRoundTrip(t, p, "false", LiteralFalse); }
      case Integer(i) =>
        assert IsInt64(i) by { StorableParts(v); }
        IntegerRoundTrip(t, p, i);
      case Float(_) => assert false by { StorableParts(v); }
      case String(s) => StringRoundTrip(t, p, s);
      case Array(items) =>
        StorableParts(v);
        if items == [] {
          EmptyBrackets(t, p, "[]", BeginArray, EndArray);
        } else {
          ArrayRoundTrip(t, p, v, items, style, indent);
        }
      case Object(ms) =>
        StorableParts(v);
        if ms == [] {
          EmptyBrackets(t, p, "{}", BeginObject, EndObject);
        } else {
          ObjectRoundTrip(t, p, v, ms, style, indent);
        }
    }
  }

  lemma StorableParts(v: Value)
    requires Storable(v) && FloatFree(v)
    ensures !v.Float? && (v.Integer? ==> IsInt64(v.i))
    ensures v.Array? ==> forall x :: x in v.items ==> Storable(x) && FloatFree(x)
    ensures v.Object? ==> Sorted(v.members) && forall m :: m in v.members ==> Storable(m.value) && FloatFree(m.value)
  {
  }

  lemma WordRoundTrip(t: string, p: nat, word: string, kind: Kind)
    requires Reads(t, p, word)
    requires (word == "null" && kind == LiteralNull) || (word == "true" && kind == LiteralTrue)
             || (word == "false" && kind == LiteralFalse)
    ensures NextToken(t, p) == Token(kind, p, p + |word|)
  {
    ReadsAt(t, p, word, 0);
    TokenHere(t, p);
  }

  lemma EmptyBrackets(t: string, p: nat, w: string, open: Kind, close: Kind)
    requires |w| == 2 && Reads(t, p, w)
    requires SingleCharacter(w[0]) == open && SingleCharacter(w[1]) == close
    requires open != ParseError && open != EndOfInput && close != ParseError && close != EndOfInput
    ensures NextToken(t, p) == Token(open, p, p + 1) && NextToken(t, p + 1) == Token(close, p + 1, p + 2)
  {
    ReadsAt(t, p, w, 0);
    ReadsAt(t, p, w, 1);
    PunctuationToken(t, p, open);
    PunctuationToken(t, p + 1, close);
  }

  lemma OpeningToken(t: string, p: nat, w: string, kind: Kind)
    requires |w| == 1 && Reads(t, p, w) && SingleCharacter(w[0]) == kind && kind != ParseError && kind != EndOfInput
    ensures NextToken(t, p) == Token(kind, p, p + 1)
  {
    ReadsAt(t, p, w, 0);
    PunctuationToken(t, p, kind);
  }

  lemma ArrayText(items: seq<Value>, style: Style, indent: nat)
    requires items != [] && FloatFree(Array(items))
    ensures var inner := Deeper(style, indent);
            Dump(Array(items), style, indent) ==
            "[" + (Newline(style) + (DumpItems(items, style, inner)
              + (Newline(style) + (Spaces(Shallower(style, inner)) + "]"))))
  {
    hide DumpItems, Spaces, Newline;
  }

  lemma ObjectText(ms: seq<Member>, style: Style, indent: nat)
    requires ms != [] && FloatFree(Object(ms))
    ensures var inner := Deeper(style, indent);
            Dump(Object(ms), style, indent) ==
            "{" + (Newline(style) + (DumpMembers(ms, style, inner)
              + (Newline(style) + (Spaces(Shallower(style, inner)) + "}"))))
  {
    hide DumpMembers, Spaces, Newline;
  }

  /** After an opening bracket, a successful loop is the whole value. */
  lemma BracketsDelegate(t: string, k: Token)
    requires GoodToken(t, k) && (k.kind == BeginArray || k.kind == BeginObject)
    ensures k.kind == BeginArray && ParseItems(t, NextToken(t, k.end), []).Parsed? ==>
              ParseValue(t, k) == ParseItems(t, NextToken(t, k.end), [])
    ensures k.kind == BeginObject && ParseMembers(t, NextToken(t, k.end), []).Parsed? ==>
              ParseValue(t, k) == ParseMembers(t, NextToken(t, k.end), [])
  {
    hide NextToken, Unescape, Insert;
  }

  lemma ArrayRoundTrip(t: string, p: nat, v: Value, items: seq<Value>, style: Style, indent: nat)
    requires v == Array(items) && items != [] && FloatFree(v)
    requires forall x :: x in items ==> Storable(x) && FloatFree(x)
    requires Reads(t, p, Dump(v, style, indent))
    ensures ParseValue(t, NextToken(t, p)) == Parsed(v, NextToken(t, p + |Dump(v, style, indent)|))
    decreases items, 2
  {
    hide Dump, DumpItems, Spaces, Newline, NextToken, GoodToken, Reads, ParseValue, ParseItems, FloatFree, Storable;
    var inner := Deeper(style, indent);
    var body, n := DumpItems(items, style, inner), Shallower(style, inner);
    var tail := Newline(style) + (Spaces(n) + "]");
    var d := Dump(v, style, indent);
    assert d == "[" + (Newline(style) + (body + tail)) by { ArrayText(items, style, indent); }
    ReadsSplit(t, p, "[", Newline(style) + (body + tail));
    OpeningToken(t, p, "[", BeginArray);
    ReadsSplit(t, p + 1, Newline(style), body + tail);
    NewlineSkipped(t, p + 1, style);
    ItemsRoundTrip(t, p + 1 + |Newline(style)|, items, [], style, inner, n);
    BracketsDelegate(t, NextToken(t, p));
    assert [] + items == items;
  }

  /** One turn of the loop over elements. */
  lemma ItemsStep(t: string, k: Token, acc: seq<Value>)
    requires GoodToken(t, k)
    ensures var v := ParseValue(t, k);
            v.Parsed? ==>
              && (v.next.kind == ValueSeparator ==>
                    v.next.end <= |t|
                    && ParseItems(t, k, acc) == ParseItems(t, NextToken(t, v.next.end), acc + [v.value]))
              && (v.next.kind == EndArray ==>
                    v.next.end <= |t|
                    && ParseItems(t, k, acc) == Parsed(Array(acc + [v.value]), NextToken(t, v.next.end)))
  {
    hide ParseValue, NextToken;
  }

  lemma {:induction false} ItemsRoundTrip(t: string, p: nat, items: seq<Value>, acc: seq<Value>,
        style: Style, indent: nat, n: nat)
    requires items != [] && forall x :: x in items ==> Storable(x) && FloatFree(x)
    requires Reads(t, p, DumpItems(items, style, indent) + (Newline(style) + (Spaces(n) + "]")))
    ensures ParseItems(t, NextToken(t, p), acc) ==
            Parsed(Array(acc + items),
                   NextToken(t, p + |DumpItems(items, style, indent) + (Newline(style) + (Spaces(n) + "]"))|))
    decreases items, 1
  {
    hide Dump, DumpItems, Comma, Newline, Spaces, NextToken;
    hide GoodToken, ParseValue, Storable, FloatFree, Reads, Delimited, ParseItems;
    var tail := Newline(style) + (Spaces(n) + "]");
    var x := Dump(items[0], style, indent);
    var p1 := p + indent;
    var q := p1 + |x|;
    ReadsEnds(t, p, DumpItems(items, style, indent) + tail);
    ItemsStep(t, NextToken(t, p), acc);
    FirstStands(t, p, items, style, indent, tail);
    SpacesSkipped(t, p, indent);
    if |items| == 1 {
      ClosingToken(t, q, style, n, ']', EndArray);
      ValueRoundTrip(t, p1, items[0], style, indent);
      assert [items[0]] == items;
    } else {
      CommaToken(t, q, style);
      ValueRoundTrip(t, p1, items[0], style, indent);
      ItemsRoundTrip(t, q + |Comma(style)|, items[1..], acc + [items[0]], style, indent, n);
      assert acc + [items[0]] + items[1..] == acc + items;
    }
  }

  /** Where the parts of a row of elements stand. */
  lemma FirstStands(t: string, p: nat, items: seq<Value>, style: Style, indent: nat, tail: string)
    requires items != [] && forall x :: x in items ==> FloatFree(x)
    requires Reads(t, p, DumpItems(items, style, indent) + tail)
    ensures var x, q := Dump(items[0], style, indent), p + indent + |Dump(items[0], style, indent)|;
            && Reads(t, p, Spaces(indent)) && Reads(t, p + indent, x)
            && (|items| == 1 ==>
                  Reads(t, q, tail) && |DumpItems(items, style, indent) + tail| == indent + |x| + |tail|)
            && (|items| > 1 ==>
                  var more := DumpItems(items[1..], style, indent) + tail;
                  && Reads(t, q, Comma(style)) && Reads(t, q + |Comma(style)|, more)
                  && |DumpItems(items, style, indent) + tail| == indent + |x| + |Comma(style)| + |more|)
  {
    hide Dump, DumpItems, Comma, Spaces, FloatFree, Reads;
    var x := Dump(items[0], style, indent);
    var rest := if |items| == 1 then "" else Comma(style) + DumpItems(items[1..], style, indent);
    assert items[0..] == items;
    ItemsFrom(items, 0, style, indent);
    assert DumpItems(items, style, indent) + tail == Spaces(indent) + (x + (rest + tail));
    ReadsSplit(t, p, Spaces(indent), x + (rest + tail));
    ReadsSplit(t, p + indent, x, rest + tail);
    if |items| == 1 {
      assert rest + tail == tail;
    } else {
      var more := DumpItems(items[1..], style, indent) + tail;
      assert rest + tail == Comma(style) + more;
      ReadsSplit(t, p + indent + |x|, Comma(style), more);
    }
  }

  lemma SpacesSkipped(t: string, p: nat, n: nat)
    requires Reads(t, p, Spaces(n))
    ensures NextToken(t, p) == NextToken(t, p + n)
  {
    SkipSpaceText(t, p, Spaces(n));
  }

  lemma ObjectRoundTrip(t: string, p: nat, v: Value, ms: seq<Member>, style: Style, indent: nat)
    requires v == Object(ms) && ms != [] && FloatFree(v) && Sorted(ms)
    requires forall m :: m in ms ==> Storable(m.value) && FloatFree(m.value)
    requires Reads(t, p, Dump(v, style, indent))
    ensures ParseValue(t, NextToken(t, p)) == Parsed(v, NextToken(t, p + |Dump(v, style, indent)|))
    decreases ms, 2
  {
    hide Dump, DumpMembers, Spaces, Newline, NextToken, GoodToken;
    hide Reads, ParseValue, ParseMembers, FloatFree, Storable, Sorted;
    var inner := Deeper(style, indent);
    var body, n := DumpMembers(ms, style, inner), Shallower(style, inner);
    var tail := Newline(style) + (Spaces(n) + "}");
    var d := Dump(v, style, indent);
    assert d == "{" + (Newline(style) + (body + tail)) by { ObjectText(ms, style, indent); }
    ReadsSplit(t, p, "{", Newline(style) + (body + tail));
    OpeningToken(t, p, "{", BeginObject);
    ReadsSplit(t, p + 1, Newline(style), body + tail);
    NewlineSkipped(t, p + 1, style);
    assert [] + ms == ms;
    MembersRoundTrip(t, p + 1 + |Newline(style)|, ms, [], style, inner, n);
    BracketsDelegate(t, NextToken(t, p));
  }

  lemma {:induction false} MembersRoundTrip(t: string, p: nat, ms: seq<Member>, acc: seq<Member>,
        style: Style, indent: nat, n: nat)
    requires ms != [] && forall m :: m in ms ==> Storable(m.value) && FloatFree(m.value)
    requires Sorted(acc + ms)
    requires Reads(t, p, DumpMembers(ms, style, indent) + (Newline(style) + (Spaces(n) + "}")))
    ensures ParseMembers(t, NextToken(t, p), acc) ==
            Parsed(Object(acc + ms),
                   NextToken(t, p + |DumpMembers(ms, style, indent) + (Newline(style) + (Spaces(n) + "}"))|))
    decreases ms, 1
  {
    hide Dump, DumpMembers, Comma, Newline, Spaces, MemberHead, Reads, Delimited;
    hide NextToken, GoodToken, ParsePair, Storable, FloatFree, Insert, KeyLess;
    var tail := Newline(style) + (Spaces(n) + "}");
    var x := MemberHead(ms[0].key, style, indent) + Dump(ms[0].value, style, indent);
    var rest := if |ms| == 1 then "" else Comma(style) + DumpMembers(ms[1..], style, indent);
    assert ms[0..] == ms;
    MembersFrom(ms, 0, style, indent);
    assert DumpMembers(ms, style, indent) + tail == x + (rest + tail);
    ReadsSplit(t, p, x, rest + tail);
    var q := p + |x|;
    NextKeyIsLast(acc, ms);
    InsertLast(acc, ms[0].key, ms[0].value);
    assert acc + [ms[0]] == Insert(acc, ms[0].key, ms[0].value);
    if |ms| == 1 {
      assert rest + tail == tail;
      ClosingToken(t, q, style, n, '}', EndObject);
      PairRoundTrip(t, p, ms[0], style, indent);
      assert [ms[0]] == ms;
    } else {
      var more := DumpMembers(ms[1..], style, indent) + tail;
      assert rest + tail == Comma(style) + more;
      ReadsSplit(t, q, Comma(style), more);
      CommaToken(t, q, style);
      PairRoundTrip(t, p, ms[0], style, indent);
      assert acc + [ms[0]] + ms[1..] == acc + ms;
      MembersRoundTrip(t, q + |Comma(style)|, ms[1..], acc + [ms[0]], style, indent, n);
    }
  }

  lemma NextKeyIsLast(acc: seq<Member>, ms: seq<Member>)
    requires ms != [] && Sorted(acc + ms)
    ensures forall m :: m in acc ==> KeyLess(m.key, ms[0].key)
  {
    hide KeyLess;
    forall m | m in acc
      ensures KeyLess(m.key, ms[0].key)
    {
      var i :| 0 <= i < |acc| && acc[i] == m;
      assert (acc + ms)[i] == m && (acc + ms)[|acc|] == ms[0];
    }
  }

  lemma PairRoundTrip(t: string, p: nat, m: Member, style: Style, indent: nat)
    requires Storable(m.value) && FloatFree(m.value)
    requires Reads(t, p, MemberHead(m.key, style, indent) + Dump(m.value, style, indent))
    requires Delimited(t, p + |MemberHead(m.key, style, indent) + Dump(m.value, style, indent)|)
    ensures ParsePair(t, NextToken(t, p)) ==
            Pair(m.key, m.value, NextToken(t, p + |MemberHead(m.key, style, indent) + Dump(m.value, style, indent)|))
    decreases m, 0
  {
    hide Dump, Spaces, Unescape, Escape, Quote, Colon, MemberHead, Reads, Delimited;
    hide NextToken, GoodToken, ParseValue, Storable, FloatFree;
    var d := Dump(m.value, style, indent);
    var colon := Colon(style);
    assert MemberHead(m.key, style, indent) + d == Spaces(indent) + (Quote(m.key) + (colon + d)) by {
      HeadIsQuoted(m.key, style, indent);
    }
    ReadsSplit(t, p, Spaces(indent), Quote(m.key) + (colon + d));
    SpacesSkipped(t, p, indent);
    var p1 := p + indent;
    ReadsSplit(t, p1, Quote(m.key), colon + d);
    StringRoundTrip(t, p1, m.key);
    var p2 := p1 + |Quote(m.key)|;
    ReadsSplit(t, p2, colon, d);
    ColonToken(t, p2, style);
    var p3 := p2 + |colon|;
    ValueRoundTrip(t, p3, m.value, style, indent);
  }

  lemma HeadIsQuoted(key: string, style: Style, indent: nat)
    ensures MemberHead(key, style, indent) == Spaces(indent) + (Quote(key) + Colon(style))
  {
  }

  /** Parsing the dumped text returns the value, for every storable value and every indent. */
  lemma RoundTrip(v: Value, indent: int)
    requires Storable(v)
    ensures FloatFree(v) && ParseText(DumpTop(v, indent)) == Accepted(v)
  {
    hide Dump, ParseValue, Storable, FloatFree;
    StorableIsFloatFree(v);
    var t := DumpTop(v, indent);
    var style := if indent >= 0 then Style(true, indent) else Style(false, 0);
    assert t == Dump(v, style, 0);
    assert t[0..|t|] == t;
    ValueRoundTrip(t, 0, v, style, 0);
    TokenHere(t, |t|);
  }

  // ---- what the parser returns ---------------------------------------------

  lemma {:induction false} KeyLessTotal(a: string, b: string)
    ensures a == b || KeyLess(a, b) || KeyLess(b, a)
  {
    if a != [] && b != [] && a[0] == b[0] {
      KeyLessTotal(a[1..], b[1..]);
      assert a == [a[0]] + a[1..] && b == [b[0]] + b[1..];
    }
  }

  lemma {:induction false} KeyLessTransitive(a: string, b: string, c: string)
    requires KeyLess(a, b) && KeyLess(b, c)
    ensures KeyLess(a, c)
  {
    if a != [] && a[0] == b[0] && b[0] == c[0] {
      KeyLessTransitive(a[1..], b[1..], c[1..]);
    }
  }

  predicate AllAbove(key: string, ms: seq<Member>) {
    forall m :: m in ms ==> KeyLess(key, m.key)
  }

  lemma SortedCons(m: Member, ms: seq<Member>)
    ensures Sorted([m] + ms) <==> AllAbove(m.key, ms) && Sorted(ms)
  {
    hide KeyLess;
    var s := [m] + ms;
    if Sorted(s) {
      forall x | x in ms
        ensures KeyLess(m.key, x.key)
      {
        var i :| 0 <= i < |ms| && ms[i] == x;
        assert s[0] == m && s[i + 1] == x;
      }
      forall i, j | 0 <= i < j < |ms|
        ensures KeyLess(ms[i].key, ms[j].key)
      {
        assert s[i + 1] == ms[i] && s[j + 1] == ms[j];
      }
    }
  }

  /** Writing a key keeps the members in order and unique; the last write of a key wins. */
  lemma {:induction false} InsertKeepsOrder(ms: seq<Member>, key: string, value: Value)
    requires Sorted(ms)
    ensures Sorted(Insert(ms, key, value))
    ensures forall m :: m in Insert(ms, key, value) <==> m == Member(key, value) || (m in ms && m.key != key)
  {
    if ms == [] {
      return;
    }
    var first, rest := ms[0], ms[1..];
    assert ms == [first] + rest;
    SortedCons(first, rest);
    KeyLessTotal(first.key, key);
    if first.key == key {
      SortedCons(Member(key, value), rest);
      forall m | m in rest
        ensures m.key != key
      {
        KeyLessExcludes(key, m.key);
      }
    } else if KeyLess(key, first.key) {
      forall m | m in ms
        ensures KeyLess(key, m.key) && m.key != key
      {
        if m != first { KeyLessTransitive(key, first.key, m.key); }
        KeyLessExcludes(key, m.key);
      }
      SortedCons(Member(key, value), ms);
    } else {
      InsertKeepsOrder(rest, key, value);
      SortedCons(first, Insert(rest, key, value));
    }
  }

  /** Objects list their members in key order, each key once, and integers are of 64 bits, at every depth. */
  predicate Healthy(v: Value) {
    match v
    case Integer(i) => IsInt64(i)
    case Array(items) => forall x :: x in items ==> Healthy(x)
    case Object(ms) => Sorted(ms) && forall m :: m in ms ==> Healthy(m.value)
    case _ => true
  }

  lemma {:induction false} HealthyIsStorable(v: Value)
    requires Healthy(v) && FloatFree(v)
    ensures Storable(v)
  {
    match v {
      case Array(items) =>
        forall x | x in items
          ensures Storable(x)
        {
          HealthyIsStorable(x);
        }
      case Object(ms) =>
        forall m | m in ms
          ensures Storable(m.value)
        {
          HealthyIsStorable(m.value);
        }
      case _ =>
    }
  }

  /** Whatever text is accepted, with floats or without, the value read is healthy. */
  lemma {:induction false} ParsedIsHealthy(t: string, k: Token)
    requires GoodToken(t, k)
    ensures var r := ParseValue(t, k); r.Parsed? ==> Healthy(r.value)
    decreases |t| + 1 - k.end, 0
  {
    hide NextToken, Unescape, ParseItems, ParseMembers, WholeValue, ConvertsExactly;
    if k.kind == BeginArray {
      ItemsAreHealthy(t, NextToken(t, k.end), []);
    } else if k.kind == BeginObject {
      MembersAreHealthy(t, NextToken(t, k.end), []);
    }
  }

  lemma {:induction false} ItemsAreHealthy(t: string, k: Token, acc: seq<Value>)
    requires GoodToken(t, k) && forall x :: x in acc ==> Healthy(x)
    ensures var r := ParseItems(t, k, acc); r.Parsed? ==> Healthy(r.value)
    decreases |t| + 1 - k.end, 1
  {
    hide NextToken, ParseValue, GoodToken;
    ParsedIsHealthy(t, k);
    var v := ParseValue(t, k);
    if v.Parsed? && v.next.kind == ValueSeparator {
      assert v.next.end <= |t| by { TokenInside(t, v.next); }
      ItemsAreHealthy(t, NextToken(t, v.next.end), acc + [v.value]);
    } else if v.Parsed? && v.next.kind == EndArray {
      ArrayHealthy(acc + [v.value]);
    }
  }

  lemma ArrayHealthy(items: seq<Value>)
    requires forall x :: x in items ==> Healthy(x)
    ensures Healthy(Array(items))
  {
  }

  lemma ObjectHealthy(ms: seq<Member>)
    requires Sorted(ms) && forall m :: m in ms ==> Healthy(m.value)
    ensures Healthy(Object(ms))
  {
  }

  lemma {:induction false} MembersAreHealthy(t: string, k: Token, acc: seq<Member>)
    requires GoodToken(t, k) && Sorted(acc) && forall m :: m in acc ==> Healthy(m.value)
    ensures var r := ParseMembers(t, k, acc); r.Parsed? ==> Healthy(r.value)
    decreases |t| + 1 - k.end, 2
  {
    hide NextToken, ParsePair, GoodToken, Insert, Sorted;
    PairIsHealthy(t, k);
    var p := ParsePair(t, k);
    if p.Pair? {
      assert p.next.kind != EndOfInput ==> p.next.end <= |t| by { TokenInside(t, p.next); }
      var ms := Insert(acc, p.key, p.value);
      InsertKeepsOrder(acc, p.key, p.value);
      if p.next.kind == ValueSeparator {
        MembersAreHealthy(t, NextToken(t, p.next.end), ms);
      } else {
        ObjectHealthy(ms);
      }
    }
  }

  lemma PairIsHealthy(t: string, k: Token)
    requires GoodToken(t, k)
    ensures var p := ParsePair(t, k); p.Pair? ==> Healthy(p.value)
    decreases |t| + 1 - k.end, 1
  {
    hide NextToken, Unescape, ParseValue;
    if k.kind == ValueString {
      var colon := NextToken(t, k.end);
      if colon.kind == NameSeparator {
        ParsedIsHealthy(t, NextToken(t, colon.end));
      }
    }
  }

  /** Accepted text without floats can be dumped in any style and read back unchanged. */
  lemma RedumpStable(t: string, indent: int)
    ensures var d := ParseText(t);
            d.Accepted? && FloatFree(d.value) ==> ParseText(DumpTop(d.value, indent)) == d
  {
    hide ParseValue, DumpTop, FloatFree;
    ParsedIsHealthy(t, NextToken(t, 0));
    var d := ParseText(t);
    if d.Accepted? && FloatFree(d.value) {
      HealthyIsStorable(d.value);
      RoundTrip(d.value, indent);
    }
  }
}
