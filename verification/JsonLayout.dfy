/** What the text `dump` of dev/svr/3rd/json.hpp writes looks like: its lines, their indentation, and the
  characters of its strings. */
module JsonLayout {
  import opened JsonText

  // ---- strings -------------------------------------------------------------

  /** The characters section 7 of RFC 7159 asks to escape are escaped, by a letter where there is one, the
    others by four digits in lower case; all other characters are written as they are. */
  lemma EscapeTable(c: char)
    ensures c < ' ' || c == '\"' || c == '\\' <==> EscapeChar(c) != [c]
    ensures forall i :: 0 <= i < 7 && c == "\U{22}\U{5C}\U{8}\U{C}\U{A}\U{D}\U{9}"[i] ==>
              EscapeChar(c) == ['\\', "\"\\bfnrt"[i]]
    ensures c < ' ' && c !in "\U{8}\U{C}\U{A}\U{D}\U{9}" ==>
              EscapeChar(c) == ['\\', 'u', '0', '0', "01"[c as int / 16], "0123456789abcdef"[c as int % 16]]
  {
    if c < ' ' { HexDigitIs(c as int % 16); HexDigitIs(c as int / 16); }
  }

  lemma HexDigitIs(n: nat)
    requires n < 16
    ensures HexDigit(n) == "0123456789abcdef"[n]
  {
  }

  /** Where two strings first differ, or the first one ends. */
  predicate LessAt(a: string, b: string, n: nat) {
    n <= |a| && n < |b| && a[..n] == b[..n] && (n == |a| || a[n] < b[n])
  }

  /** The order of the keys: at the first place where they differ, or the shorter one first. */
  lemma {:induction false} KeyLessIs(a: string, b: string)
    ensures KeyLess(a, b) <==> exists n: nat :: LessAt(a, b, n)
    decreases |a|
  {
    if KeyLess(a, b) {
      if a == [] || a[0] < b[0] {
        assert LessAt(a, b, 0);
      } else {
        KeyLessIs(a[1..], b[1..]);
        var n: nat :| LessAt(a[1..], b[1..], n);
        assert a[..n + 1] == [a[0]] + a[1..][..n] && b[..n + 1] == [b[0]] + b[1..][..n];
        assert LessAt(a, b, n + 1);
      }
    }
    forall n: nat | LessAt(a, b, n)
      ensures KeyLess(a, b)
    {
      if n > 0 {
        assert a[..n][0] == b[..n][0];
        assert a[1..][..n - 1] == a[..n][1..] && b[1..][..n - 1] == b[..n][1..];
        assert LessAt(a[1..], b[1..], n - 1);
        KeyLessIs(a[1..], b[1..]);
      }
    }
  }

  // ---- lines ---------------------------------------------------------------

  datatype Line = Line(depth: nat, text: string)

  /** The lines of a value that has this before it on its first line and a comma or nothing behind it. */
  function Lines(v: Value, before: string, depth: nat, comma: string, colon: string): (r: seq<Line>)
    requires FloatFree(v)
    ensures r != []
    decreases v, 0
  {
    match v
    case Null => [Line(depth, before + "null" + comma)]
    case Boolean(b) => [Line(depth, before + (if b then "true" else "false") + comma)]
    case Integer(i) => [Line(depth, before + Decimal(i) + comma)]
    case String(s) => [Line(depth, before + Quote(s) + comma)]
    case Array(items) =>
      if items == [] then [Line(depth, before + "[]" + comma)]
      else [Line(depth, before + "[")] + ItemLines(items, depth + 1, colon) + [Line(depth, "]" + comma)]
    case Object(ms) =>
      if ms == [] then [Line(depth, before + "{}" + comma)]
      else [Line(depth, before + "{")] + MemberLines(ms, depth + 1, colon) + [Line(depth, "}" + comma)]
    case Float(_) => [Line(depth, "")]
  }

  function ItemLines(items: seq<Value>, depth: nat, colon: string): (r: seq<Line>)
    requires items != [] && forall x :: x in items ==> FloatFree(x)
    ensures r != []
    decreases items, 1
  {
    if |items| == 1 then Lines(items[0], "", depth, "", colon)
    else Lines(items[0], "", depth, ",", colon) + ItemLines(items[1..], depth, colon)
  }

  function MemberLines(ms: seq<Member>, depth: nat, colon: string): (r: seq<Line>)
    requires ms != [] && forall m :: m in ms ==> FloatFree(m.value)
    ensures r != []
    decreases ms, 1
  {
    if |ms| == 1 then Lines(ms[0].value, Quote(ms[0].key) + colon, depth, "", colon)
    else Lines(ms[0].value, Quote(ms[0].key) + colon, depth, ",", colon) + MemberLines(ms[1..], depth, colon)
  }

  /** Each line is indented by its depth times the step, which is counted in 32 bits. */
  function LineText(l: Line, step: nat): string {
    Spaces(l.depth * step % WORD) + l.text
  }

  function Page(lines: seq<Line>, step: nat): string
    requires lines != []
  {
    if |lines| == 1 then LineText(lines[0], step) else LineText(lines[0], step) + "\n" + Page(lines[1..], step)
  }

  /** Without line breaks and indentation. */
  function Run(lines: seq<Line>): string {
    if lines == [] then "" else lines[0].text + Run(lines[1..])
  }

  /** The text in a style: a page, or all on one line. */
  function Joined(lines: seq<Line>, style: Style): string
    requires lines != []
  {
    if style.pretty then Page(lines, style.step) else Run(lines)
  }

  lemma {:induction false} JoinedConcat(a: seq<Line>, b: seq<Line>, style: Style)
    requires a != [] && b != []
    ensures Joined(a + b, style) == Joined(a, style) + Newline(style) + Joined(b, style)
    decreases |a|
  {
    hide LineText;
    if |a| == 1 {
      assert (a + b)[1..] == b;
      assert a[1..] == [] && Run([]) == "";
      if style.pretty {
        assert Page(a + b, style.step) == LineText(a[0], style.step) + "\n" + Page(b, style.step);
      } else {
        assert Run(a + b) == a[0].text + Run(b) && Run(a) == a[0].text + "" == a[0].text;
        assert Run(a) + "" + Run(b) == Run(a) + Run(b);
      }
    } else {
      assert (a + b)[1..] == a[1..] + b;
      JoinedConcat(a[1..], b, style);
      if style.pretty {
        var x, y, z := LineText(a[0], style.step) + "\n", Page(a[1..], style.step), Page(b, style.step);
        assert x + (y + "\n" + z) == x + y + "\n" + z;
      } else {
        var x, y, z := a[0].text, Run(a[1..]), Run(b);
        assert x + (y + "" + z) == x + y + "" + z;
      }
    }
  }

  /** The indentation a style gives at a depth. */
  function Margin(style: Style, depth: nat): nat {
    if style.pretty then depth * style.step % WORD else 0
  }

  function ColonOf(style: Style): string { if style.pretty then ": " else ":" }

  lemma MarginSteps(style: Style, depth: nat)
    ensures Deeper(style, Margin(style, depth)) == Margin(style, depth + 1)
    ensures Shallower(style, Margin(style, depth + 1)) == Margin(style, depth)
  {
    var a, s := depth * style.step, style.step;
    assert (depth + 1) * s == a + s;
    Wraps(a, s);
    Wraps(a + s, -s);
  }

  lemma Wraps(a: int, s: int)
    ensures (a % WORD + s) % WORD == (a + s) % WORD
  {
    var q := a / WORD;
    assert a % WORD + s == (a + s) + (-q) * WORD;
    AddMultiple(a + s, -q);
  }

  lemma {:induction false} AddMultiple(x: int, k: int)
    ensures (x + k * WORD) % WORD == x % WORD
    decreases if k < 0 then -k else k
  {
    if k > 0 {
      AddMultiple(x, k - 1);
      assert x + k * WORD == x + (k - 1) * WORD + WORD;
    } else if k < 0 {
      AddMultiple(x, k + 1);
      assert x + k * WORD == x + (k + 1) * WORD - WORD;
    }
  }

  lemma OneLine(depth: nat, text: string, style: Style)
    ensures Joined([Line(depth, text)], style) == Spaces(Margin(style, depth)) + text
  {
    var ls := [Line(depth, text)];
    assert ls[1..] == [];
    if style.pretty {
      assert Page(ls, style.step) == LineText(ls[0], style.step);
    } else {
      assert Run(ls) == text + Run([]) && text + "" == text && Spaces(0) + text == text;
    }
  }

  /** What dump writes at a depth, after the indentation and a key, and before a comma. */
  lemma {:induction false} DumpIsLines(v: Value, before: string, depth: nat, comma: string, style: Style)
    requires FloatFree(v)
    ensures Joined(Lines(v, before, depth, comma, ColonOf(style)), style)
         == Spaces(Margin(style, depth)) + before + Dump(v, style, Margin(style, depth)) + comma
    decreases v, 0
  {
    hide Joined, Spaces, Margin, ItemLines, MemberLines, DumpItems, DumpMembers, Decimal, Quote;
    var m := Spaces(Margin(style, depth));
    match v {
      case Array(items) => if items != [] { ArrayLines(v, items, before, depth, comma, style); }
      case Object(ms) => if ms != [] { ObjectLines(v, ms, before, depth, comma, style); }
      case _ =>
    }
    if !(v.Array? && v.items != []) && !(v.Object? && v.members != []) {
      var text := Dump(v, style, Margin(style, depth));
      assert Lines(v, before, depth, comma, ColonOf(style)) == [Line(depth, before + text + comma)];
      OneLine(depth, before + text + comma, style);
      assert m + (before + text + comma) == m + before + text + comma;
    }
  }

  /** Brackets around lines. */
  lemma Bracketed(first: string, inside: seq<Line>, last: string, depth: nat, style: Style)
    requires inside != []
    ensures Joined([Line(depth, first)] + inside + [Line(depth, last)], style)
         == Spaces(Margin(style, depth))
            + (first + (Newline(style) + Joined(inside, style) + Newline(style) + Spaces(Margin(style, depth))) + last)
  {
    hide Joined, Spaces, Margin, Newline;
    var m, n, x := Spaces(Margin(style, depth)), Newline(style), Joined(inside, style);
    OneLine(depth, first, style);
    OneLine(depth, last, style);
    JoinedConcat([Line(depth, first)], inside, style);
    JoinedConcat([Line(depth, first)] + inside, [Line(depth, last)], style);
    assert m + first + n + x + n + (m + last) == m + (first + (n + x + n + m) + last);
  }

  lemma ArrayLines(v: Value, items: seq<Value>, before: string, depth: nat, comma: string, style: Style)
    requires v == Array(items) && FloatFree(v) && items != []
    ensures Joined(Lines(v, before, depth, comma, ColonOf(style)), style)
         == Spaces(Margin(style, depth)) + before + Dump(v, style, Margin(style, depth)) + comma
    decreases items, 2
  {
    hide Joined, Spaces, Margin, ItemLines, DumpItems, Newline, Deeper, Shallower;
    Bracketed(before + "[", ItemLines(items, depth + 1, ColonOf(style)), "]" + comma, depth, style);
    ItemsAreLines(items, depth + 1, style);
    MarginSteps(style, depth);
    var m, n, x := Spaces(Margin(style, depth)), Newline(style), DumpItems(items, style, Margin(style, depth + 1));
    assert m + (before + "[" + (n + x + n + m) + ("]" + comma)) == m + before + ("[" + n + x + n + m + "]") + comma;
  }

  lemma ObjectLines(v: Value, ms: seq<Member>, before: string, depth: nat, comma: string, style: Style)
    requires v == Object(ms) && FloatFree(v) && ms != []
    ensures Joined(Lines(v, before, depth, comma, ColonOf(style)), style)
         == Spaces(Margin(style, depth)) + before + Dump(v, style, Margin(style, depth)) + comma
    decreases ms, 2
  {
    hide Joined, Spaces, Margin, MemberLines, DumpMembers, Newline, Deeper, Shallower;
    Bracketed(before + "{", MemberLines(ms, depth + 1, ColonOf(style)), "}" + comma, depth, style);
    MembersAreLines(ms, depth + 1, style);
    MarginSteps(style, depth);
    var m, n, x := Spaces(Margin(style, depth)), Newline(style), DumpMembers(ms, style, Margin(style, depth + 1));
    assert m + (before + "{" + (n + x + n + m) + ("}" + comma)) == m + before + ("{" + n + x + n + m + "}") + comma;
  }

  lemma {:induction false} ItemsAreLines(items: seq<Value>, depth: nat, style: Style)
    requires items != [] && forall x :: x in items ==> FloatFree(x)
    ensures Joined(ItemLines(items, depth, ColonOf(style)), style) == DumpItems(items, style, Margin(style, depth))
    decreases items, 1
  {
    hide Joined, Spaces, Margin, Lines, Dump, Newline, ColonOf;
    var m, x := Spaces(Margin(style, depth)), Dump(items[0], style, Margin(style, depth));
    if |items| == 1 {
      DumpIsLines(items[0], "", depth, "", style);
      assert m + "" + x + "" == m + x;
    } else {
      DumpIsLines(items[0], "", depth, ",", style);
      ItemsAreLines(items[1..], depth, style);
      var colon := ColonOf(style);
      JoinedConcat(Lines(items[0], "", depth, ",", colon), ItemLines(items[1..], depth, colon), style);
      var rest := DumpItems(items[1..], style, Margin(style, depth));
      CommaIs(style);
      assert m + "" + x + "," + Newline(style) + rest == m + x + ("," + Newline(style) + rest);
    }
  }

  lemma CommaIs(style: Style)
    ensures Comma(style) == "," + Newline(style) && Colon(style) == ColonOf(style)
  {
  }

  lemma {:induction false} MembersAreLines(ms: seq<Member>, depth: nat, style: Style)
    requires ms != [] && forall m :: m in ms ==> FloatFree(m.value)
    ensures Joined(MemberLines(ms, depth, ColonOf(style)), style) == DumpMembers(ms, style, Margin(style, depth))
    decreases ms, 1
  {
    hide Joined, Spaces, Margin, Lines, Dump, Newline, ColonOf, Escape, Colon, Comma;
    var m, key := Spaces(Margin(style, depth)), Quote(ms[0].key) + ColonOf(style);
    var x := Dump(ms[0].value, style, Margin(style, depth));
    CommaIs(style);
    HeadIs(ms[0].key, style, Margin(style, depth));
    if |ms| == 1 {
      DumpIsLines(ms[0].value, key, depth, "", style);
      assert m + key + x + "" == m + key + x;
    } else {
      DumpIsLines(ms[0].value, key, depth, ",", style);
      MembersAreLines(ms[1..], depth, style);
      var colon := ColonOf(style);
      JoinedConcat(Lines(ms[0].value, key, depth, ",", colon), MemberLines(ms[1..], depth, colon), style);
      var rest := DumpMembers(ms[1..], style, Margin(style, depth));
      assert m + key + x + "," + Newline(style) + rest == m + key + x + ("," + Newline(style) + rest);
    }
  }

  lemma HeadIs(key: string, style: Style, indent: nat)
    ensures MemberHead(key, style, indent) == Spaces(indent) + (Quote(key) + Colon(style))
  {
    hide Escape, Spaces, Colon;
  }

  /** dump with an indentation writes the lines of the value, each element and member beginning its own line;
    without one it writes them one behind the other. */
  lemma DumpLayout(v: Value, indent: int)
    requires FloatFree(v)
    ensures indent >= 0 ==> DumpTop(v, indent) == Page(Lines(v, "", 0, "", ": "), indent)
    ensures indent < 0 ==> DumpTop(v, indent) == Run(Lines(v, "", 0, "", ":"))
  {
    hide Lines, Dump, Page, Run;
    var style := if indent >= 0 then Style(true, indent) else Style(false, 0);
    DumpIsLines(v, "", 0, "", style);
    assert Spaces(0) + "" + Dump(v, style, 0) + "" == Dump(v, style, 0);
  }
}
