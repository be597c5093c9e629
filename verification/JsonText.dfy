/** JSON values and their text form, after `extra_space`, `escape_string` and `dump` of
  dev/svr/3rd/json.hpp.  A string is a sequence of chars, one a byte of the source. */
module JsonText {

  /** Float carries the literal it was read from: floating-point values are not modelled. */
  datatype Value =
    | Null
    | Boolean(b: bool)
    | Integer(i: int)
    | Float(literal: string)
    | String(s: string)
    | Array(items: seq<Value>)
    | Object(members: seq<Member>)

  datatype Member = Member(key: string, value: Value)

  /** The order std::map<std::string, ...> keeps its keys in. */
  predicate KeyLess(a: string, b: string) {
    if b == [] then false
    else if a == [] then true
    else a[0] < b[0] || (a[0] == b[0] && KeyLess(a[1..], b[1..]))
  }

  predicate Sorted(ms: seq<Member>) {
    forall i, j :: 0 <= i < j < |ms| ==> KeyLess(ms[i].key, ms[j].key)
  }

  predicate IsInt64(i: int) {
    -0x8000_0000_0000_0000 <= i < 0x8000_0000_0000_0000
  }

  /** The values the round trip is about: no floats, integers of 64 bits, and objects listing
    their members in the order of the map that holds them. */
  predicate Storable(v: Value) {
    match v
    case Integer(i) => IsInt64(i)
    case Float(_) => false
    case Array(items) => forall x :: x in items ==> Storable(x)
    case Object(ms) => Sorted(ms) && forall m :: m in ms ==> Storable(m.value)
    case _ => true
  }

  predicate FloatFree(v: Value) {
    match v
    case Float(_) => false
    case Array(items) => forall x :: x in items ==> FloatFree(x)
    case Object(ms) => forall m :: m in ms ==> FloatFree(m.value)
    case _ => true
  }

  // ---- escaping ------------------------------------------------------------

  /** The letter after the backslash for the seven characters with a short escape. */
  function ShortEscape(c: char): (e: char) {
    if c == '\"' then '\"' else if c == '\\' then '\\' else if c == '\U{8}' then 'b' else if c == '\U{C}' then 'f'
    else if c == '\n' then 'n' else if c == '\r' then 'r' else if c == '\t' then 't' else '\0'
  }

  predicate HasShortEscape(c: char) {
    ShortEscape(c) != '\0'
  }

  predicate NeedsHex(c: char) {
    c <= '\U{1F}' && !HasShortEscape(c)
  }

  function HexDigit(n: int): char {
    if 0 <= n < 10 then (n + 48) as char else if 10 <= n < 16 then (n + 87) as char else '0'
  }

  /** sprintf("u%04x") for a byte value. */
  function HexForm(c: char): (h: string)
    ensures |h| == 5
  {
    ['u', '0', '0', HexDigit(c as int / 16 % 16), HexDigit(c as int % 16)]
  }

  function EscapeChar(c: char): (e: string)
    ensures |e| > 0
  {
    if HasShortEscape(c) then ['\\', ShortEscape(c)]
    else if NeedsHex(c) then ['\\'] + HexForm(c)
    else [c]
  }

  function Escape(s: string): string {
    if s == [] then [] else EscapeChar(s[0]) + Escape(s[1..])
  }

  function ExtraSpace(s: string): nat {
    if s == [] then 0 else (if HasShortEscape(s[0]) then 1 else if NeedsHex(s[0]) then 5 else 0) + ExtraSpace(s[1..])
  }

  lemma {:induction false} EscapeLength(s: string)
    ensures |Escape(s)| == |s| + ExtraSpace(s)
    ensures ExtraSpace(s) == 0 ==> Escape(s) == s
  {
    if s != [] {
      EscapeLength(s[1..]);
      assert s == [s[0]] + s[1..];
    }
  }

  lemma {:induction false} EscapeConcat(a: string, b: string)
    ensures Escape(a + b) == Escape(a) + Escape(b)
  {
    if a == [] {
      assert a + b == b;
    } else {
      assert (a + b)[1..] == a[1..] + b;
      EscapeConcat(a[1..], b);
      assert Escape(a + b) == EscapeChar(a[0]) + (Escape(a[1..]) + Escape(b));
    }
  }

  method ExtraSpaceLoop(s: string) returns (result: nat)
    ensures result == ExtraSpace(s)
  {
    result := 0;
    var i := 0;
    while i < |s|
      invariant 0 <= i <= |s|
      invariant result + ExtraSpace(s[i..]) == ExtraSpace(s)
    {
      var c := s[i];
      assert s[i..][1..] == s[i + 1..];
      if HasShortEscape(c) {
        result := result + 1;
      } else if c <= '\U{1F}' {
        result := result + 5;
      }
      i := i + 1;
    }
  }

  /** escape_string.  The result string has one cell more than its size, the terminating NUL;
    the buffer is filled exactly, and the terminator survives unless the last character took
    the \u form, in which case the write after sprintf lands on it. */
  method EscapeString(s: string) returns (text: string, terminated: bool)
    ensures text == Escape(s)
    ensures terminated <==> (s == [] || !NeedsHex(s[|s| - 1]))
  {
    EscapeLength(s);
    var space := ExtraSpaceLoop(s);
    hide Escape, EscapeChar, NeedsHex, HasShortEscape, ExtraSpace;
    if space == 0 {
      NoExtraSpace(s);
      return s, true;
    }
    var n := |s| + space;
    var result := new char[n + 1](i => if i < n then '\\' else '\0');
    var pos := 0;
    var k := 0;
    EscapeEmpty(s[..0]);
    assert s[0..] == s;
    while k < |s|
      invariant 0 <= k <= |s| && pos == |Escape(s[..k])| && pos + |Escape(s[k..])| == n
      invariant result[..pos] == Escape(s[..k])
      invariant forall j :: pos <= j < n ==> result[j] == '\\'
      invariant result[n] == (if k == |s| && k > 0 && NeedsHex(s[k - 1]) then '\\' else '\0')
    {
      EscapeStep(s, k);
      EscapeEmpty(s[k + 1..]);
      pos := PutChar(result, pos, s[k]);
      k := k + 1;
    }
    assert s[..k] == s;
    text := result[..n];
    terminated := result[n] == '\0';
  }

  /** A string that loses its terminator. */
  method EscapeOfControl() returns (text: string, terminated: bool)
    ensures text == ['\\', 'u', '0', '0', '0', '1'] && !terminated
  {
    var s := ['\U{1}'];
    text, terminated := EscapeString(s);
    assert s[1..] == [] && Escape(s) == EscapeChar(s[0]) + Escape([]);
  }

  /** One turn of the loop: the switch on the character.  Cells not yet written hold a backslash. */
  method PutChar(result: array<char>, pos: nat, c: char) returns (pos': nat)
    requires pos + |EscapeChar(c)| < result.Length
    requires forall j :: pos <= j < result.Length - 1 ==> result[j] == '\\'
    modifies result
    ensures pos' == pos + |EscapeChar(c)|
    ensures result[..pos'] == old(result[..pos]) + EscapeChar(c)
    ensures forall j :: pos' <= j < result.Length - 1 ==> result[j] == '\\'
    ensures result[result.Length - 1] ==
            if NeedsHex(c) && pos' == result.Length - 1 then '\\' else old(result[result.Length - 1])
  {
    hide HexForm;
    pos' := pos;
    if HasShortEscape(c) {
      if c != '\\' {
        result[pos + 1] := ShortEscape(c);
      }
      pos' := pos + 2;
    } else if c <= '\U{1F}' {
      assert NeedsHex(c);
      var h := HexForm(c) + ['\0'];
      forall j | 0 <= j < 6 {
        result[pos + 1 + j] := h[j];
      }
      pos' := pos + 6;
      result[pos'] := '\\';
    } else {
      result[pos] := c;
      pos' := pos + 1;
    }
    assert result[pos..pos'] == EscapeChar(c);
    assert result[..pos] == old(result[..pos]);
  }

  lemma EscapeEmpty(s: string)
    ensures Escape(s) == [] <==> s == []
  {
  }

  lemma EscapeStep(s: string, k: nat)
    requires k < |s|
    ensures Escape(s[..k + 1]) == Escape(s[..k]) + EscapeChar(s[k])
    ensures Escape(s[k..]) == EscapeChar(s[k]) + Escape(s[k + 1..])
  {
    assert s[..k + 1] == s[..k] + [s[k]];
    EscapeConcat(s[..k], [s[k]]);
    assert [s[k]][1..] == [];
    assert Escape([s[k]]) == EscapeChar(s[k]) + Escape([]);
    assert s[k..][1..] == s[k + 1..];
  }

  lemma {:induction false} NoExtraSpace(s: string)
    requires ExtraSpace(s) == 0
    ensures forall i :: 0 <= i < |s| ==> !NeedsHex(s[i])
  {
    if s != [] {
      NoExtraSpace(s[1..]);
      assert forall i :: 0 < i < |s| ==> s[i] == s[1..][i - 1];
    }
  }

  // ---- dump ----------------------------------------------------------------

  const WORD: nat := 0x1_0000_0000

  function Digit(n: nat): char
    requires n < 10
  {
    (n + 48) as char
  }

  function DecimalDigits(n: nat): (d: string)
    ensures |d| > 0
  {
    if n < 10 then [Digit(n)] else DecimalDigits(n / 10) + [Digit(n % 10)]
  }

  /** operator<< on a 64-bit integer. */
  function Decimal(i: int): string {
    if i < 0 then "-" + DecimalDigits(-i) else DecimalDigits(i)
  }

  function Spaces(n: nat): (s: string)
    ensures |s| == n && forall i :: 0 <= i < n ==> s[i] == ' '
  {
    seq(n, _ => ' ')
  }

  datatype Style = Style(pretty: bool, step: nat)

  function Newline(style: Style): string { if style.pretty then "\n" else "" }
  function Comma(style: Style): string { if style.pretty then ",\n" else "," }
  function Colon(style: Style): string { if style.pretty then ": " else ":" }

  /** new_indent += indent_step, in 32 bits. */
  function Deeper(style: Style, indent: nat): nat {
    if style.pretty then (indent + style.step) % WORD else indent
  }

  /** new_indent -= indent_step, in 32 bits. */
  function Shallower(style: Style, indent: nat): nat {
    if style.pretty then (indent - style.step) % WORD else indent
  }

  function Quote(s: string): string {
    "\"" + Escape(s) + "\""
  }

  function Dump(v: Value, style: Style, indent: nat): string
    requires FloatFree(v)
    decreases v, 0
  {
    match v
    case Null => "null"
    case Boolean(b) => if b then "true" else "false"
    case Integer(i) => Decimal(i)
    case String(s) => Quote(s)
    case Array(items) =>
      if items == [] then "[]"
      else
        var inner := Deeper(style, indent);
        "[" + Newline(style) + DumpItems(items, style, inner) + Newline(style) + Spaces(Shallower(style, inner)) + "]"
    case Object(ms) =>
      if ms == [] then "{}"
      else
        var inner := Deeper(style, indent);
        "{" + Newline(style) + DumpMembers(ms, style, inner) + Newline(style) + Spaces(Shallower(style, inner)) + "}"
    case Float(_) => ""
  }

  function DumpItems(items: seq<Value>, style: Style, indent: nat): string
    requires items != [] && forall x :: x in items ==> FloatFree(x)
    decreases items, 1
  {
    var first := Spaces(indent) + Dump(items[0], style, indent);
    if |items| == 1 then first else first + (Comma(style) + DumpItems(items[1..], style, indent))
  }

  function HeadText(indent: nat, escaped: string, style: Style): string {
    Spaces(indent) + ("\"" + escaped + "\"" + Colon(style))
  }

  function MemberHead(key: string, style: Style, indent: nat): string {
    HeadText(indent, Escape(key), style)
  }

  function DumpMembers(ms: seq<Member>, style: Style, indent: nat): string
    requires ms != [] && forall m :: m in ms ==> FloatFree(m.value)
    decreases ms, 1
  {
    var first := MemberHead(ms[0].key, style, indent) + Dump(ms[0].value, style, indent);
    if |ms| == 1 then first else first + (Comma(style) + DumpMembers(ms[1..], style, indent))
  }

  /** dump(indent): pretty for a non-negative indent, compact otherwise. */
  function DumpTop(v: Value, indent: int): string
    requires FloatFree(v)
  {
    if indent >= 0 then Dump(v, Style(true, indent), 0) else Dump(v, Style(false, 0), 0)
  }

  lemma ItemsFrom(items: seq<Value>, i: nat, style: Style, indent: nat)
    requires i < |items| && forall x :: x in items ==> FloatFree(x)
    ensures DumpItems(items[i..], style, indent) ==
            Spaces(indent) + Dump(items[i], style, indent)
            + (if i + 1 == |items| then "" else Comma(style) + DumpItems(items[i + 1..], style, indent))
  {
    assert items[i..][1..] == items[i + 1..];
  }

  lemma MembersFrom(ms: seq<Member>, i: nat, style: Style, indent: nat)
    requires i < |ms| && forall m :: m in ms ==> FloatFree(m.value)
    ensures DumpMembers(ms[i..], style, indent) ==
            MemberHead(ms[i].key, style, indent) + Dump(ms[i].value, style, indent)
            + (if i + 1 == |ms| then "" else Comma(style) + DumpMembers(ms[i + 1..], style, indent))
  {
    assert ms[i..][1..] == ms[i + 1..];
  }

  /** The internal dump, writing to the stream o. */
  method DumpTo(o: string, v: Value, style: Style, indent: nat) returns (o': string)
    requires FloatFree(v)
    ensures o' == o + Dump(v, style, indent)
    decreases v, 0
  {
    hide DumpItems, DumpMembers, Escape, Decimal, Spaces, Newline;
    match v {
      case Null => o' := o + "null";
      case Boolean(b) => o' := o + (if b then "true" else "false");
      case Integer(i) => o' := o + Decimal(i);
      case String(s) =>
        var e, _ := EscapeString(s);
        o' := o + "\"" + e + "\"";
        assert o' == o + Quote(s);
      case Array(items) => o' := DumpArrayTo(o, v, items, style, indent);
      case Object(ms) => o' := DumpObjectTo(o, v, ms, style, indent);
    }
  }

  method DumpArrayTo(o: string, ghost v: Value, items: seq<Value>, style: Style, indent: nat) returns (o': string)
    requires v == Array(items) && FloatFree(v)
    ensures o' == o + Dump(v, style, indent)
    decreases items, 2
  {
    hide DumpItems, Spaces, Newline;
    if items == [] {
      return o + "[]";
    }
    var newIndent := Deeper(style, indent);
    o' := o + ("[" + Newline(style));
    o' := DumpItemsTo(o', items, style, newIndent);
    newIndent := Shallower(style, newIndent);
    o' := o' + (Newline(style) + Spaces(newIndent) + "]");
  }

  method DumpObjectTo(o: string, ghost v: Value, ms: seq<Member>, style: Style, indent: nat) returns (o': string)
    requires v == Object(ms) && FloatFree(v)
    ensures o' == o + Dump(v, style, indent)
    decreases ms, 2
  {
    hide DumpMembers, Spaces, Newline;
    if ms == [] {
      return o + "{}";
    }
    var newIndent := Deeper(style, indent);
    o' := o + ("{" + Newline(style));
    o' := DumpMembersTo(o', ms, style, newIndent);
    newIndent := Shallower(style, newIndent);
    o' := o' + (Newline(style) + Spaces(newIndent) + "}");
  }

  /** The loop over the elements of an array. */
  method DumpItemsTo(o: string, items: seq<Value>, style: Style, indent: nat) returns (o': string)
    requires items != [] && forall x :: x in items ==> FloatFree(x)
    ensures o' == o + DumpItems(items, style, indent)
    decreases items, 1
  {
    hide Dump, DumpItems, Comma, Spaces, FloatFree;
    o' := o;
    var i := 0;
    while i < |items|
      invariant 0 <= i <= |items|
      invariant i == 0 ==> o' == o
      invariant 0 < i < |items| ==>
          o' + (Comma(style) + DumpItems(items[i..], style, indent)) == o + DumpItems(items, style, indent)
      invariant i == |items| ==> o' == o + DumpItems(items, style, indent)
    {
      ItemsFrom(items, i, style, indent);
      assert items[0..] == items;
      if i != 0 {
        o' := o' + Comma(style);
      }
      o' := o' + Spaces(indent);
      o' := DumpTo(o', items[i], style, indent);
      i := i + 1;
    }
  }

  /** The loop over the members of an object. */
  method DumpMembersTo(o: string, ms: seq<Member>, style: Style, indent: nat) returns (o': string)
    requires ms != [] && forall m :: m in ms ==> FloatFree(m.value)
    ensures o' == o + DumpMembers(ms, style, indent)
    decreases ms, 1
  {
    hide Dump, DumpMembers, Comma, FloatFree, Escape, HeadText;
    o' := o;
    var i := 0;
    while i < |ms|
      invariant 0 <= i <= |ms|
      invariant i == 0 ==> o' == o
      invariant 0 < i < |ms| ==>
          o' + (Comma(style) + DumpMembers(ms[i..], style, indent)) == o + DumpMembers(ms, style, indent)
      invariant i == |ms| ==> o' == o + DumpMembers(ms, style, indent)
    {
      MembersFrom(ms, i, style, indent);
      assert ms[0..] == ms;
      if i != 0 {
        o' := o' + Comma(style);
      }
      var e, _ := EscapeString(ms[i].key);
      o' := o' + HeadText(indent, e, style);
      o' := DumpTo(o', ms[i].value, style, indent);
      i := i + 1;
    }
  }
}
