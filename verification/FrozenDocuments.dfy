/** What the tokenizer of FrozenTokens accepts: exactly the documents described here, each token at the place
  where it was written. */
module FrozenDocuments {
  import opened Common
  import opened FrozenTokens
  import opened Numerals
  import Utf8

  // ---- documents -----------------------------------------------------------

  /** A character of one to four bytes, a backslash with a letter, or \u with four digits. */
  datatype Piece = Char(bytes: string) | Letter(c: char) | Hex(digits: string)

  /** A key between quotes, or a name without them. */
  datatype Key = Quoted(pieces: seq<Piece>) | Bare(name: string)

  /** fraction and exponent: with their point and letter, or empty.  blank: the white space after a bracket. */
  datatype Doc =
    | Text(pieces: seq<Piece>)
    | Digits(minus: bool, whole: string, fraction: string, exponent: string)
    | Word(kind: Kind)
    | List(blank: string, items: Row)
    | Record(blank: string, fields: Row)

  /** Elements, or members with their keys and the white space around the colon. after: the white space after the
    value; comma: whether there is one; gap: the white space after it. */
  datatype Row = End
    | Item(key: Key, colon1: string, colon2: string, value: Doc, after: string, comma: bool, gap: string, rest: Row)

  function SpellPiece(x: Piece): string {
    match x
    case Char(bytes) => bytes
    case Letter(c) => ['\\', c]
    case Hex(digits) => ['\\', 'u'] + digits
  }

  function Spell(pieces: seq<Piece>): string {
    if pieces == [] then "" else SpellPiece(pieces[0]) + Spell(pieces[1..])
  }

  function Quote(pieces: seq<Piece>): string {
    "\"" + (Spell(pieces) + "\"")
  }

  function WordText(kind: Kind): string {
    if kind.True? then "true" else if kind.False? then "false" else "null"
  }

  function Write(d: Doc): string
    decreases d
  {
    match d
    case Text(pieces) => Quote(pieces)
    case Digits(minus, whole, fraction, exponent) => (if minus then "-" else "") + (whole + (fraction + exponent))
    case Word(kind) => WordText(kind)
    case List(blank, items) => "[" + (blank + WriteRow(items, false))
    case Record(blank, fields) => "{" + (blank + WriteRow(fields, true))
  }

  function KeyText(key: Key): string {
    match key
    case Quoted(pieces) => Quote(pieces)
    case Bare(name) => name
  }

  function WriteKey(r: Row, keyed: bool): string
    requires r.Item?
  {
    if keyed then KeyText(r.key) + (r.colon1 + (":" + r.colon2)) else ""
  }

  /** With the closing bracket. */
  function WriteRow(r: Row, keyed: bool): (t: string)
    ensures t != ""
    decreases r
  {
    if r.End? then if keyed then "}" else "]"
    else WriteKey(r, keyed) + (Write(r.value) + (r.after + (Comma(r) + (r.gap + WriteRow(r.rest, keyed)))))
  }

  function Comma(r: Row): string
    requires r.Item?
  {
    if r.comma then "," else ""
  }

  // ---- which of them are accepted ------------------------------------------

  predicate Blank(w: string) {
    forall i :: 0 <= i < |w| ==> w[i] == ' ' || w[i] == '\t' || w[i] == '\r' || w[i] == '\n'
  }

  /** The number of bytes the first one announces; a byte that can begin no character counts for two. */
  function Announced(c: char): nat {
    if c < '\U{80}' then 1 else if c < '\U{E0}' then 2 else if c < '\U{F0}' then 3 else 4
  }

  predicate GoodPiece(x: Piece) {
    match x
    case Char(bytes) =>
      && bytes != "" && ' ' <= bytes[0] < '\U{100}' && bytes[0] != '"' && bytes[0] != '\\'
      && |bytes| == Announced(bytes[0])
    case Letter(c) => c in "\"\\/bfnrt"
    case Hex(digits) => |digits| == 4 && forall i :: 0 <= i < 4 ==> IsHexDigit(digits[i])
  }

  predicate GoodPieces(pieces: seq<Piece>) {
    forall i :: 0 <= i < |pieces| ==> GoodPiece(pieces[i])
  }

  predicate OfLetters(c: char) { 'a' <= c <= 'z' || 'A' <= c <= 'Z' }

  predicate GoodKey(key: Key) {
    match key
    case Quoted(pieces) => GoodPieces(pieces)
    case Bare(name) =>
      && name != "" && OfLetters(name[0])
      && forall i :: 0 < i < |name| ==> OfLetters(name[i]) || '0' <= name[i] <= '9' || name[i] == '_'
  }

  predicate SomeDigitsOf(s: string) {
    s != "" && forall i :: 0 <= i < |s| ==> '0' <= s[i] <= '9'
  }

  predicate IsFraction(s: string) {
    s == "" || (s[0] == '.' && SomeDigitsOf(s[1..]))
  }

  predicate IsExponent(s: string) {
    s == "" || ((s[0] == 'e' || s[0] == 'E')
                && (SomeDigitsOf(s[1..]) || (|s| > 1 && (s[1] == '+' || s[1] == '-') && SomeDigitsOf(s[2..]))))
  }

  predicate Good(d: Doc)
    decreases d
  {
    match d
    case Text(pieces) => GoodPieces(pieces)
    case Digits(_, whole, fraction, exponent) => SomeDigitsOf(whole) && IsFraction(fraction) && IsExponent(exponent)
    case Word(kind) => kind.True? || kind.False? || kind.Null?
    case List(blank, items) => Blank(blank) && GoodRow(items, false)
    case Record(blank, fields) => Blank(blank) && GoodRow(fields, true)
  }

  /** Commas may be left out, and one may stand before the closing bracket. */
  predicate GoodRow(r: Row, keyed: bool)
    decreases r
  {
    r.End? || (&& (keyed ==> GoodKey(r.key) && Blank(r.colon1) && Blank(r.colon2))
               && Good(r.value) && Blank(r.after) && Blank(r.gap) && (!r.comma ==> r.gap == "")
               && Apart(r.value, Follow(r, keyed)) && GoodRow(r.rest, keyed))
  }

  /** What comes after a value. */
  function Follow(r: Row, keyed: bool): (t: string)
    requires r.Item?
    ensures t != ""
  {
    r.after + (Comma(r) + (r.gap + WriteRow(r.rest, keyed)))
  }

  /** A number must not go on in what follows it. */
  predicate Apart(d: Doc, follow: string) {
    d.Digits? && follow != "" ==>
      && !('0' <= follow[0] <= '9')
      && (d.exponent == "" ==> follow[0] != 'e' && follow[0] != 'E')
      && (d.exponent == "" && d.fraction == "" ==> follow[0] != '.')
  }

  // ---- their trees ---------------------------------------------------------

  /** The tree of a document written at a position. */
  function Tree(d: Doc, at: nat): (f: Forest)
    ensures f.Cons? && f.rest.Nil?
    decreases d
  {
    match d
    case Text(pieces) => Cons(Str, at + 1, at + 1 + |Spell(pieces)|, Nil, Nil)
    case Digits(_, _, _, _) => Cons(Number, at, at + |Write(d)|, Nil, Nil)
    case Word(kind) => Cons(kind, at, at + |WordText(kind)|, Nil, Nil)
    case List(blank, items) => Cons(Array, at, at + |Write(d)|, Trees(items, at + 1 + |blank|, false), Nil)
    case Record(blank, fields) => Cons(Object, at, at + |Write(d)|, Trees(fields, at + 1 + |blank|, true), Nil)
  }

  function KeyTree(key: Key, at: nat): Forest {
    match key
    case Quoted(pieces) => Cons(Str, at + 1, at + 1 + |Spell(pieces)|, Nil, Nil)
    case Bare(name) => Cons(Str, at, at + |name|, Nil, Nil)
  }

  /** Where the rest of a row begins. */
  function NextOf(at: nat, r: Row, keyed: bool): nat
    requires r.Item?
  {
    at + |WriteKey(r, keyed)| + |Write(r.value)| + |r.after| + |Comma(r)| + |r.gap|
  }

  function Trees(r: Row, at: nat, keyed: bool): Forest
    decreases r
  {
    if r.End? then Nil else Join(First(r, at, keyed), Trees(r.rest, NextOf(at, r, keyed), keyed))
  }

  /** The trees of the first element or member. */
  function First(r: Row, at: nat, keyed: bool): Forest
    requires r.Item?
    decreases r, 0
  {
    var value := Tree(r.value, at + |WriteKey(r, keyed)|);
    if keyed then Join(KeyTree(r.key, at), value) else value
  }

  // ---- white space ---------------------------------------------------------

  lemma {:induction false} BlankSkipped(s: string, i: nat, w: string)
    requires Reads(s, i, w) && Blank(w)
    ensures Skip(s, i) == Skip(s, i + |w|)
    decreases |w|
  {
    if w != "" {
      assert w == [w[0]] + w[1..];
      ReadsSplit(s, i, [w[0]], w[1..]);
      ReadsAt(s, i, w, 0);
      BlankSkipped(s, i + 1, w[1..]);
    }
  }

  lemma {:induction false} SkippedIsBlank(s: string, i: nat)
    requires i <= |s|
    ensures var p := Skip(s, i);
            Blank(s[i..p]) && Reads(s, i, s[i..p]) && (p < |s| ==> !IsSpace(s[p])) && Skip(s, p) == p
    decreases |s| - i
  {
    var p := Skip(s, i);
    if p > i {
      SkippedIsBlank(s, i + 1);
      assert s[i..p] == [s[i]] + s[i + 1..p];
    }
  }

  /** Values, keys and rows are read from the first character that is not white space. */
  lemma SameFrom(s: string, i: nat, j: nat, kind: Kind)
    requires i <= |s| && j <= |s| && Skip(s, i) == Skip(s, j)
    ensures ValueAt(s, i) == ValueAt(s, j) && ElementsAt(s, i, kind) == ElementsAt(s, j, kind)
  {
    hide StringEnd, NumberEnd, LiteralEnd, ElementAt;
  }

  // ---- strings -------------------------------------------------------------

  /** The lead bytes of UTF-8 (section 3 of RFC 3629) announce the length the tokenizer takes. */
  lemma LengthIsUtf8(s: string)
    requires Utf8.First(s).Some?
    ensures CharLen(s[0]) == Utf8.First(s).value.1
  {
  }

  lemma LengthIsAnnounced(c: char)
    requires c < '\U{100}'
    ensures CharLen(c) == Announced(c)
  {
  }

  lemma PieceScanned(s: string, i: nat, x: Piece)
    requires GoodPiece(x) && Reads(s, i, SpellPiece(x)) && i + |SpellPiece(x)| < |s|
    ensures StringEnd(s, i) == StringEnd(s, i + |SpellPiece(x)|)
  {
    assert Announced('\\') == 1;
    hide IsHexDigit, CharLen, Announced;
    var t := SpellPiece(x);
    ReadsAt(s, i, t, 0);
    LengthIsAnnounced(s[i]);
    match x {
      case Char(_) =>
      case Letter(c) => ReadsAt(s, i, t, 1);
      case Hex(digits) =>
        ReadsAt(s, i, t, 1);
        ReadsAt(s, i, t, 2);
        ReadsAt(s, i, t, 3);
        ReadsAt(s, i, t, 4);
        ReadsAt(s, i, t, 5);
    }
  }

  lemma {:induction false} PiecesScanned(s: string, i: nat, pieces: seq<Piece>)
    requires GoodPieces(pieces) && Reads(s, i, Spell(pieces) + "\"") && i + |Spell(pieces)| + 1 < |s|
    ensures StringEnd(s, i) == At(i + |Spell(pieces)|)
    decreases |pieces|
  {
    hide SpellPiece, Reads, StringEnd, GoodPiece;
    if pieces == [] {
      assert Spell(pieces) + "\"" == "\"";
      ReadsAt(s, i, "\"", 0);
      QuoteEnds(s, i);
    } else {
      var x, rest := pieces[0], pieces[1..];
      assert Spell(pieces) + "\"" == SpellPiece(x) + (Spell(rest) + "\"");
      ReadsSplit(s, i, SpellPiece(x), Spell(rest) + "\"");
      PieceScanned(s, i, x);
      PiecesScanned(s, i + |SpellPiece(x)|, rest);
    }
  }

  lemma QuoteEnds(s: string, i: nat)
    requires i + 1 < |s| && s[i] == '"'
    ensures StringEnd(s, i) == At(i)
  {
  }

  lemma TextParses(s: string, i: nat, pieces: seq<Piece>)
    requires Reads(s, i, Quote(pieces)) && GoodPieces(pieces) && i + |Quote(pieces)| < |s|
    ensures s[i] == '"' && StringEnd(s, i + 1) == At(i + 1 + |Spell(pieces)|)
  {
    hide Spell, StringEnd, GoodPieces;
    ReadsSplit(s, i, "\"", Spell(pieces) + "\"");
    ReadsAt(s, i, "\"", 0);
    PiecesScanned(s, i + 1, pieces);
  }

  /** The first piece of an accepted string body. */
  lemma FirstPiece(s: string, i: nat) returns (x: Piece)
    requires i < |s| && s[i] < '\U{100}' && StringEnd(s, i).At? && s[i] != '"'
    ensures GoodPiece(x) && Reads(s, i, SpellPiece(x)) && SpellPiece(x) != ""
    ensures i + |SpellPiece(x)| <= |s| && StringEnd(s, i + |SpellPiece(x)|) == StringEnd(s, i)
  {
    hide *;
    StringCases(s, i);
    if s[i] == '\\' {
      x := FirstEscape(s, i);
    } else {
      x := FirstCharacter(s, i);
    }
  }

  lemma FirstEscape(s: string, i: nat) returns (x: Piece)
    requires i + 1 < |s| && s[i] == '\\' && EscapeLen(s, i + 1) > 0
    ensures GoodPiece(x) && Reads(s, i, SpellPiece(x)) && |SpellPiece(x)| == 1 + EscapeLen(s, i + 1)
  {
    hide IsHexDigit;
    if s[i + 1] == 'u' {
      x := Hex(s[i + 2..i + 6]);
      assert s[i..i + 6] == SpellPiece(x);
    } else {
      x := Letter(s[i + 1]);
      assert s[i..i + 2] == SpellPiece(x);
    }
  }

  lemma FirstCharacter(s: string, i: nat) returns (x: Piece)
    requires i < |s| && ' ' <= s[i] < '\U{100}' && s[i] != '"' && s[i] != '\\' && CharLen(s[i]) < |s| - i
    ensures GoodPiece(x) && Reads(s, i, SpellPiece(x)) && |SpellPiece(x)| == CharLen(s[i])
  {
    hide CharLen, Announced;
    LengthIsAnnounced(s[i]);
    x := Char(s[i..i + CharLen(s[i])]);
  }

  predicate Bytes(s: string) {
    forall i :: 0 <= i < |s| ==> s[i] < '\U{100}'
  }

  lemma {:induction false} BodyIsSpelled(s: string, i: nat) returns (pieces: seq<Piece>)
    requires i <= |s| && Bytes(s) && StringEnd(s, i).At?
    ensures GoodPieces(pieces) && Reads(s, i, Spell(pieces)) && i + |Spell(pieces)| == StringEnd(s, i).end
    decreases |s| - i
  {
    hide StringEnd, GoodPiece, SpellPiece;
    StringStarts(s, i);
    if s[i] == '"' {
      pieces := [];
    } else {
      var x := FirstPiece(s, i);
      var rest := BodyIsSpelled(s, i + |SpellPiece(x)|);
      pieces := [x] + rest;
      assert pieces[1..] == rest;
      ReadsJoin(s, i, SpellPiece(x), Spell(rest));
    }
  }

  lemma StringStarts(s: string, i: nat)
    requires i <= |s| && StringEnd(s, i).At?
    ensures i < |s| && (s[i] == '"' ==> StringEnd(s, i) == At(i)) && StringEnd(s, i).end + 1 < |s|
  {
    StringEndsInside(s, i);
  }

  /** The closing quote is never the last character of the text. */
  lemma {:induction false} StringEndsInside(s: string, i: nat)
    requires i <= |s| && StringEnd(s, i).At?
    ensures StringEnd(s, i).end + 1 < |s|
    decreases |s| - i
  {
    hide EscapeLen, CharLen;
    if s[i] == '\\' {
      StringEndsInside(s, i + 1 + EscapeLen(s, i + 1));
    } else if s[i] != '"' {
      StringEndsInside(s, i + CharLen(s[i]));
    }
  }

  lemma TextIsQuoted(s: string, i: nat) returns (pieces: seq<Piece>)
    requires i < |s| && Bytes(s) && s[i] == '"' && StringEnd(s, i + 1).At?
    ensures GoodPieces(pieces) && Reads(s, i, Quote(pieces)) && i + |Quote(pieces)| == StringEnd(s, i + 1).end + 1 < |s|
  {
    hide StringEnd, GoodPieces, Spell;
    StringStarts(s, i + 1);
    pieces := BodyIsSpelled(s, i + 1);
    var e := StringEnd(s, i + 1).end;
    assert s[i..i + 1] == "\"" && s[e..e + 1] == "\"";
    ReadsJoin(s, i + 1, Spell(pieces), "\"");
    ReadsJoin(s, i, "\"", Spell(pieces) + "\"");
  }

  // ---- numbers and words ---------------------------------------------------

  predicate DigitFreeAt(s: string, j: nat) {
    j < |s| ==> !('0' <= s[j] <= '9')
  }

  lemma {:induction false} DigitsScanned(s: string, i: nat, digits: string)
    requires Reads(s, i, digits) && (forall k :: 0 <= k < |digits| ==> '0' <= digits[k] <= '9')
    requires DigitFreeAt(s, i + |digits|)
    ensures DigitsEnd(s, i) == i + |digits|
    decreases |digits|
  {
    if digits != "" {
      ReadsAt(s, i, digits, 0);
      assert digits == [digits[0]] + digits[1..];
      ReadsSplit(s, i, [digits[0]], digits[1..]);
      DigitsScanned(s, i + 1, digits[1..]);
    }
  }

  lemma {:induction false} DigitsTaken(s: string, i: nat)
    requires i <= |s|
    ensures var p := DigitsEnd(s, i); DigitFreeAt(s, p) && forall k :: i <= k < p ==> '0' <= s[k] <= '9'
    decreases |s| - i
  {
    if i < |s| && IsDigit(s[i]) { DigitsTaken(s, i + 1); }
  }

  lemma RunScanned(s: string, i: nat, digits: string)
    requires SomeDigitsOf(digits) && Reads(s, i, digits) && DigitFreeAt(s, i + |digits|)
    ensures SomeDigits(s, i) == At(i + |digits|) && '0' <= s[i] <= '9'
  {
    hide DigitsEnd;
    ReadsAt(s, i, digits, 0);
    assert digits == [digits[0]] + digits[1..];
    ReadsSplit(s, i, [digits[0]], digits[1..]);
    DigitsScanned(s, i + 1, digits[1..]);
  }

  lemma RunTaken(s: string, i: nat)
    requires i <= |s| && SomeDigits(s, i).At?
    ensures var e := SomeDigits(s, i).end; SomeDigitsOf(s[i..e]) && DigitFreeAt(s, e)
  {
    hide DigitsEnd;
    DigitsTaken(s, i + 1);
  }

  lemma FractionScanned(s: string, i: nat, fraction: string)
    requires IsFraction(fraction) && Reads(s, i, fraction) && DigitFreeAt(s, i + |fraction|)
    requires fraction == "" ==> !IsAt(s, i, '.')
    ensures FractionEnd(s, i) == At(i + |fraction|)
  {
    hide SomeDigits;
    if fraction != "" {
      ReadsAt(s, i, fraction, 0);
      assert fraction == [fraction[0]] + fraction[1..];
      ReadsSplit(s, i, [fraction[0]], fraction[1..]);
      RunScanned(s, i + 1, fraction[1..]);
    }
  }

  lemma FractionTaken(s: string, i: nat)
    requires i <= |s| && FractionEnd(s, i).At? && DigitFreeAt(s, i)
    ensures var e := FractionEnd(s, i).end;
            IsFraction(s[i..e]) && DigitFreeAt(s, e) && (e == i ==> !IsAt(s, i, '.'))
  {
    hide SomeDigits;
    if IsAt(s, i, '.') {
      RunTaken(s, i + 1);
      var e := FractionEnd(s, i).end;
      assert s[i..e][1..] == s[i + 1..e];
    }
  }

  lemma ExponentScanned(s: string, i: nat, exponent: string)
    requires IsExponent(exponent) && Reads(s, i, exponent) && DigitFreeAt(s, i + |exponent|)
    requires exponent == "" ==> !IsAt(s, i, 'e') && !IsAt(s, i, 'E')
    ensures ExponentEnd(s, i) == At(i + |exponent|)
  {
    hide SomeDigits;
    if exponent != "" {
      ReadsAt(s, i, exponent, 0);
      if SomeDigitsOf(exponent[1..]) {
        assert exponent == [exponent[0]] + exponent[1..];
        ReadsSplit(s, i, [exponent[0]], exponent[1..]);
        RunScanned(s, i + 1, exponent[1..]);
      } else {
        ReadsAt(s, i, exponent, 1);
        assert exponent == exponent[..2] + exponent[2..];
        ReadsSplit(s, i, exponent[..2], exponent[2..]);
        RunScanned(s, i + 2, exponent[2..]);
      }
    }
  }

  lemma ExponentTaken(s: string, i: nat)
    requires i <= |s| && ExponentEnd(s, i).At? && DigitFreeAt(s, i)
    ensures var e := ExponentEnd(s, i).end;
            IsExponent(s[i..e]) && DigitFreeAt(s, e) && (e == i ==> !IsAt(s, i, 'e') && !IsAt(s, i, 'E'))
  {
    hide SomeDigits;
    if IsAt(s, i, 'e') || IsAt(s, i, 'E') {
      var j := if IsAt(s, i + 1, '+') || IsAt(s, i + 1, '-') then i + 2 else i + 1;
      RunTaken(s, j);
      var e := ExponentEnd(s, i).end;
      assert s[i..e][j - i..] == s[j..e];
    }
  }

  lemma PartsRead(s: string, i: nat, sign: string, whole: string, fraction: string, exponent: string)
    requires Reads(s, i, sign + (whole + (fraction + exponent)))
    ensures Reads(s, i, sign) && Reads(s, i + |sign|, whole)
    ensures var q := i + |sign| + |whole|; Reads(s, q, fraction) && Reads(s, q + |fraction|, exponent)
  {
    hide Reads;
    ReadsSplit(s, i, sign, whole + (fraction + exponent));
    ReadsSplit(s, i + |sign|, whole, fraction + exponent);
    ReadsSplit(s, i + |sign| + |whole|, fraction, exponent);
  }

  /** The character after a part. */
  lemma PartStarts(s: string, i: nat, part: string)
    requires Reads(s, i, part)
    ensures i <= |s| && (part != "" ==> i < |s| && s[i] == part[0])
  {
    if part != "" { ReadsAt(s, i, part, 0); }
  }

  lemma NumberParses(s: string, i: nat, d: Doc)
    requires d.Digits? && Good(d) && Reads(s, i, Write(d)) && Apart(d, s[i + |Write(d)|..])
    ensures i < |s| && (s[i] == '-' || IsDigit(s[i])) && NumberEnd(s, i) == At(i + |Write(d)|)
  {
    hide SomeDigits, FractionEnd, ExponentEnd, Reads, IsExponent, IsFraction, Apart, DigitFreeAt, SomeDigitsOf;
    var sign := if d.minus then "-" else "";
    var q := i + |sign| + |d.whole|;
    var r := q + |d.fraction|;
    PartsRead(s, i, sign, d.whole, d.fraction, d.exponent);
    PartsFollow(s, q, d);
    RunScanned(s, i + |sign|, d.whole);
    FractionScanned(s, q, d.fraction);
    ExponentScanned(s, r, d.exponent);
    PartStarts(s, i, sign);
  }

  /** What stands behind the whole part, the fraction and the exponent. */
  lemma PartsFollow(s: string, q: nat, d: Doc)
    requires d.Digits? && IsFraction(d.fraction) && IsExponent(d.exponent)
    requires Reads(s, q, d.fraction) && Reads(s, q + |d.fraction|, d.exponent)
    requires Apart(d, s[q + |d.fraction| + |d.exponent|..])
    ensures var r := q + |d.fraction|;
            && DigitFreeAt(s, q) && DigitFreeAt(s, r) && DigitFreeAt(s, r + |d.exponent|)
            && (d.fraction == "" ==> !IsAt(s, q, '.')) && (d.exponent == "" ==> !IsAt(s, r, 'e') && !IsAt(s, r, 'E'))
  {
    hide SomeDigitsOf, Reads;
    var r := q + |d.fraction|;
    var e := r + |d.exponent|;
    PartStarts(s, q, d.fraction);
    PartStarts(s, r, d.exponent);
    ReadsEnds(s, r, d.exponent);
    if e < |s| { assert s[e..][0] == s[e]; }
  }

  lemma NumberWritten(s: string, i: nat) returns (d: Doc)
    requires i < |s| && NumberEnd(s, i).At?
    ensures d.Digits? && Good(d) && Reads(s, i, Write(d)) && i + |Write(d)| == NumberEnd(s, i).end
    ensures Apart(d, s[i + |Write(d)|..])
  {
    hide *;
    NumberCases(s, i);
    var j := if s[i] == '-' then i + 1 else i;
    var q := SomeDigits(s, j).end;
    RunTaken(s, j);
    FractionTaken(s, q);
    var r := FractionEnd(s, q).end;
    ExponentTaken(s, r);
    var e := ExponentEnd(s, r).end;
    d := Digits(s[i] == '-', s[j..q], s[q..r], s[r..e]);
    PartsJoined(s, i, d, q, r, e);
  }

  lemma NumberCases(s: string, i: nat)
    requires i < |s| && NumberEnd(s, i).At?
    ensures var whole := SomeDigits(s, if s[i] == '-' then i + 1 else i);
            && whole.At? && FractionEnd(s, whole.end).At?
            && ExponentEnd(s, FractionEnd(s, whole.end).end) == NumberEnd(s, i)
  {
    hide SomeDigits, FractionEnd, ExponentEnd;
  }

  lemma PartsJoined(s: string, i: nat, d: Doc, q: nat, r: nat, e: nat)
    requires i < |s| && (if s[i] == '-' then i + 1 else i) <= q <= r <= e <= |s|
    requires d == Digits(s[i] == '-', s[if s[i] == '-' then i + 1 else i..q], s[q..r], s[r..e])
    requires SomeDigitsOf(d.whole) && IsFraction(d.fraction) && IsExponent(d.exponent) && DigitFreeAt(s, e)
    requires (r == q ==> !IsAt(s, q, '.')) && (e == r ==> !IsAt(s, r, 'e') && !IsAt(s, r, 'E'))
    ensures Good(d) && Reads(s, i, Write(d)) && i + |Write(d)| == e && Apart(d, s[e..])
  {
    hide SomeDigitsOf, IsFraction, IsExponent, Apart;
    var j := if s[i] == '-' then i + 1 else i;
    Slices(s, i, j, q, r, e);
    assert s[i..j] == if s[i] == '-' then "-" else "";
    NumberApart(s, d, q, r, e);
  }

  lemma Slices(s: string, i: nat, j: nat, q: nat, r: nat, e: nat)
    requires i <= j <= q <= r <= e <= |s|
    ensures s[i..e] == s[i..j] + (s[j..q] + (s[q..r] + s[r..e]))
  {
  }

  lemma NumberApart(s: string, d: Doc, q: nat, r: nat, e: nat)
    requires d.Digits? && q <= r <= e <= |s| && d.fraction == s[q..r] && d.exponent == s[r..e] && DigitFreeAt(s, e)
    requires (r == q ==> !IsAt(s, q, '.')) && (e == r ==> !IsAt(s, r, 'e') && !IsAt(s, r, 'E'))
    ensures Apart(d, s[e..])
  {
    if e < |s| { assert s[e..][0] == s[e]; }
  }

  lemma WordParses(s: string, i: nat, kind: Kind)
    requires Reads(s, i, WordText(kind)) && (kind.True? || kind.False? || kind.Null?)
    ensures s[i] == WordText(kind)[0] && LiteralEnd(s, i, WordText(kind)) == At(i + |WordText(kind)|)
  {
    var w := WordText(kind);
    ReadsAt(s, i, w, 0);
    assert s[i..][..|w|] == w;
  }

  lemma WordWritten(s: string, i: nat, w: string)
    requires i <= |s| && LiteralEnd(s, i, w).At?
    ensures Reads(s, i, w) && LiteralEnd(s, i, w) == At(i + |w|)
  {
    assert s[i..i + |w|] == s[i..][..|w|];
  }

  // ---- keys ----------------------------------------------------------------

  lemma {:induction false} NameScanned(s: string, i: nat, name: string)
    requires Reads(s, i, name) && forall k :: 0 <= k < |name| ==> IsName(name[k])
    requires i + |name| < |s| ==> !IsName(s[i + |name|])
    ensures NameEnd(s, i) == i + |name|
    decreases |name|
  {
    if name != "" {
      ReadsAt(s, i, name, 0);
      assert name == [name[0]] + name[1..];
      ReadsSplit(s, i, [name[0]], name[1..]);
      NameScanned(s, i + 1, name[1..]);
    }
  }

  lemma {:induction false} NameTaken(s: string, i: nat)
    requires i <= |s|
    ensures forall k :: i <= k < NameEnd(s, i) ==> IsName(s[k])
    decreases |s| - i
  {
    if i < |s| && IsName(s[i]) { NameTaken(s, i + 1); }
  }

  /** At a quote, keys and values are the string up to the closing quote. */
  lemma QuoteAt(s: string, i: nat, e: nat)
    requires i < |s| && s[i] == '"' && StringEnd(s, i + 1) == At(e) && Skip(s, i) == i
    ensures KeyAt(s, i) == ValueAt(s, i) == Done(Cons(Str, i + 1, e, Nil, Nil), e + 1)
  {
    hide StringEnd, NameEnd, Skip, ElementsAt, NumberEnd, LiteralEnd;
  }

  lemma QuotedAt(s: string, i: nat, pieces: seq<Piece>)
    requires GoodPieces(pieces) && Reads(s, i, Quote(pieces)) && i + |Quote(pieces)| < |s|
    ensures s[i] == '"'
    ensures KeyAt(s, i) == ValueAt(s, i)
         == Done(Cons(Str, i + 1, i + 1 + |Spell(pieces)|, Nil, Nil), i + |Quote(pieces)|)
  {
    hide StringEnd, GoodPieces, Spell, KeyAt, ValueAt, Skip;
    TextParses(s, i, pieces);
    SkipNothing(s, i);
    QuoteAt(s, i, i + 1 + |Spell(pieces)|);
  }

  lemma BareAt(s: string, i: nat, name: string)
    requires GoodKey(Bare(name)) && Reads(s, i, name) && i + |name| < |s| && !IsName(s[i + |name|])
    ensures IsAlpha(s[i]) && KeyAt(s, i) == Done(Cons(Str, i, i + |name|, Nil, Nil), i + |name|)
  {
    hide StringEnd, NameEnd, Skip;
    ReadsAt(s, i, name, 0);
    SkipNothing(s, i);
    assert name == [name[0]] + name[1..];
    ReadsSplit(s, i, [name[0]], name[1..]);
    NameScanned(s, i + 1, name[1..]);
  }

  /** A key, when something comes after it that is no part of a name. */
  lemma KeyParses(s: string, i: nat, key: Key)
    requires GoodKey(key) && Reads(s, i, KeyText(key))
    requires i + |KeyText(key)| < |s| && !IsName(s[i + |KeyText(key)|])
    ensures i < |s| && (s[i] == '"' || IsAlpha(s[i]))
    ensures KeyAt(s, i) == Done(KeyTree(key, i), i + |KeyText(key)|)
  {
    hide KeyAt, GoodPieces, Quote, Spell, IsName, IsAlpha;
    match key {
      case Quoted(pieces) => QuotedAt(s, i, pieces);
      case Bare(name) => BareAt(s, i, name);
    }
  }

  lemma KeyWritten(s: string, i: nat) returns (key: Key)
    requires i <= |s| && Skip(s, i) == i && Bytes(s) && KeyAt(s, i).Done?
    ensures GoodKey(key) && Reads(s, i, KeyText(key)) && i + |KeyText(key)| == KeyAt(s, i).next
  {
    hide StringEnd, NameEnd, GoodPieces, Spell;
    if IsAlpha(s[i]) {
      NameTaken(s, i + 1);
      key := Bare(s[i..NameEnd(s, i + 1)]);
    } else {
      var pieces := TextIsQuoted(s, i);
      key := Quoted(pieces);
    }
  }

  // ---- every document is tokenized as its tree -----------------------------

  lemma DocStarts(s: string, i: nat, d: Doc)
    requires Good(d) && Reads(s, i, Write(d))
    ensures i < |s| && !IsSpace(s[i]) && s[i] != ',' && s[i] != ']' && s[i] != '}'
  {
    hide Reads, WriteRow, Spell, IsFraction, IsExponent;
    match d {
      case Digits(minus, whole, fraction, exponent) =>
        PartsRead(s, i, if minus then "-" else "", whole, fraction, exponent);
        PartStarts(s, i, if minus then "-" else "");
        PartStarts(s, i + (if minus then 1 else 0), whole);
      case _ => ReadsAt(s, i, Write(d), 0);
    }
  }

  /** A document is tokenized where it stands, whatever comes before and after it. */
  lemma {:induction false} DocParses(s: string, i: nat, d: Doc)
    requires Good(d) && Reads(s, i, Write(d))
    requires Apart(d, s[i + |Write(d)|..]) && (d.Text? ==> i + |Write(d)| < |s|)
    ensures ValueAt(s, i) == Done(Tree(d, i), i + |Write(d)|)
    decreases d, 1
  {
    hide *;
    DocStarts(s, i, d);
    SkipNothing(s, i);
    match d {
      case Text(pieces) => QuoteParses(s, i, d);
      case Digits(_, _, _, _) => DigitsParse(s, i, d);
      case Word(kind) => WordDocParses(s, i, d);
      case List(blank, items) =>
        RowOf(s, i, d);
        BracketsParse(s, i, d, blank, items, Array);
      case Record(blank, fields) =>
        RowOf(s, i, d);
        BracketsParse(s, i, d, blank, fields, Object);
    }
  }

  lemma QuoteParses(s: string, i: nat, d: Doc)
    requires d.Text? && Good(d) && Reads(s, i, Write(d)) && i + |Write(d)| < |s|
    ensures ValueAt(s, i) == Done(Tree(d, i), i + |Write(d)|)
  {
    hide ValueAt, KeyAt, Quote, Spell, GoodPieces;
    QuotedAt(s, i, d.pieces);
  }

  lemma DigitsParse(s: string, i: nat, d: Doc)
    requires d.Digits? && Good(d) && Reads(s, i, Write(d)) && Apart(d, s[i + |Write(d)|..]) && Skip(s, i) == i
    ensures ValueAt(s, i) == Done(Tree(d, i), i + |Write(d)|)
  {
    hide StringEnd, ElementsAt, NumberEnd, LiteralEnd, Write, Skip, Good, Reads, Apart;
    NumberParses(s, i, d);
  }

  lemma WordDocParses(s: string, i: nat, d: Doc)
    requires d.Word? && Good(d) && Reads(s, i, Write(d)) && Skip(s, i) == i
    ensures ValueAt(s, i) == Done(Tree(d, i), i + |Write(d)|)
  {
    hide StringEnd, ElementsAt, NumberEnd, LiteralEnd, Skip, Reads;
    WordParses(s, i, d.kind);
    ReadsEnds(s, i, WordText(d.kind));
  }

  /** What brackets hold. */
  lemma RowOf(s: string, i: nat, d: Doc)
    requires Good(d) && Reads(s, i, Write(d)) && (d.List? || d.Record?)
    ensures var bra, row := if d.List? then "[" else "{", if d.List? then d.items else d.fields;
            && Blank(d.blank) && GoodRow(row, d.Record?) && |Write(d)| == 1 + |d.blank| + |WriteRow(row, d.Record?)|
            && Reads(s, i, bra) && Reads(s, i + 1, d.blank) && Reads(s, i + 1 + |d.blank|, WriteRow(row, d.Record?))
  {
    hide WriteRow, GoodRow, Blank, Reads;
    var bra, row := if d.List? then "[" else "{", if d.List? then d.items else d.fields;
    ReadsSplit(s, i, bra, d.blank + WriteRow(row, d.Record?));
    ReadsSplit(s, i + 1, d.blank, WriteRow(row, d.Record?));
  }

  lemma BracketsParse(s: string, i: nat, d: Doc, blank: string, row: Row, kind: Kind)
    requires (d == List(blank, row) && kind.Array?) || (d == Record(blank, row) && kind.Object?)
    requires i <= |s| && Skip(s, i) == i && GoodRow(row, kind.Object?) && Blank(blank)
    requires |Write(d)| == 1 + |blank| + |WriteRow(row, kind.Object?)|
    requires Reads(s, i, if d.List? then "[" else "{") && Reads(s, i + 1, blank)
    requires Reads(s, i + 1 + |blank|, WriteRow(row, kind.Object?))
    ensures ValueAt(s, i) == Done(Tree(d, i), i + |Write(d)|)
    decreases row, 2
  {
    hide *;
    var q := i + 1 + |blank|;
    ReadsEnds(s, q, WriteRow(row, kind.Object?));
    BlankSkipped(s, i + 1, blank);
    SameFrom(s, i + 1, q, kind);
    RowParses(s, q, row, kind);
    ContainerIs(s, i, d, blank, row, kind);
  }

  lemma ContainerIs(s: string, i: nat, d: Doc, blank: string, row: Row, kind: Kind)
    requires (d == List(blank, row) && kind.Array?) || (d == Record(blank, row) && kind.Object?)
    requires i + 1 <= |s| && Skip(s, i) == i && Reads(s, i, if d.List? then "[" else "{")
    requires ElementsAt(s, i + 1, kind) == Done(Trees(row, i + 1 + |blank|, kind.Object?), i + |Write(d)|)
    ensures ValueAt(s, i) == Done(Tree(d, i), i + |Write(d)|)
  {
    hide Reads, Skip, ElementsAt, Trees, Write, StringEnd, NumberEnd, LiteralEnd;
    ReadsAt(s, i, if d.List? then "[" else "{", 0);
  }

  /** The parts of an item, each where it stands. */
  predicate Stands(s: string, i: nat, r: Row, keyed: bool)
    requires r.Item?
  {
    var v := i + |WriteKey(r, keyed)|;
    var end := v + |Write(r.value)|;
    var c := end + |r.after|;
    && Reads(s, i, WriteKey(r, keyed)) && Reads(s, v, Write(r.value)) && Reads(s, end, r.after)
    && Reads(s, c, Comma(r)) && Reads(s, c + |Comma(r)|, r.gap)
    && Reads(s, c + |Comma(r)| + |r.gap|, WriteRow(r.rest, keyed))
  }

  lemma ItemStands(s: string, i: nat, r: Row, keyed: bool)
    requires r.Item? && Reads(s, i, WriteRow(r, keyed))
    ensures Stands(s, i, r, keyed) && Reads(s, i + |WriteKey(r, keyed)| + |Write(r.value)|, Follow(r, keyed))
    ensures |WriteRow(r, keyed)|
         == |WriteKey(r, keyed)| + |Write(r.value)| + |r.after| + |Comma(r)| + |r.gap| + |WriteRow(r.rest, keyed)|
  {
    hide Reads, WriteKey, Write, Comma, WriteRow;
    WriteRowItem(r, keyed);
    var k, w, a, c, g, m := WriteKey(r, keyed), Write(r.value), r.after, Comma(r), r.gap, WriteRow(r.rest, keyed);
    ReadsSplit(s, i, k, w + (a + (c + (g + m))));
    ReadsSplit(s, i + |k|, w, a + (c + (g + m)));
    ReadsSplit(s, i + |k| + |w|, a, c + (g + m));
    ReadsSplit(s, i + |k| + |w| + |a|, c, g + m);
    ReadsSplit(s, i + |k| + |w| + |a| + |c|, g, m);
  }

  lemma WriteRowItem(r: Row, keyed: bool)
    requires r.Item?
    ensures WriteRow(r, keyed) == WriteKey(r, keyed) + (Write(r.value) + Follow(r, keyed))
  {
    hide WriteKey, Write, Comma;
  }

  lemma StandsAsRow(s: string, i: nat, r: Row, keyed: bool)
    requires r.Item? && Stands(s, i, r, keyed)
    ensures Reads(s, i, WriteRow(r, keyed)) && Reads(s, i + |WriteKey(r, keyed)| + |Write(r.value)|, Follow(r, keyed))
    ensures |WriteRow(r, keyed)|
         == |WriteKey(r, keyed)| + |Write(r.value)| + |r.after| + |Comma(r)| + |r.gap| + |WriteRow(r.rest, keyed)|
  {
    hide Reads, WriteKey, Write, Comma, WriteRow;
    WriteRowItem(r, keyed);
    var k, w, a, c, g, m := WriteKey(r, keyed), Write(r.value), r.after, Comma(r), r.gap, WriteRow(r.rest, keyed);
    ReadsJoin(s, i + |k| + |w| + |a| + |c|, g, m);
    ReadsJoin(s, i + |k| + |w| + |a|, c, g + m);
    ReadsJoin(s, i + |k| + |w|, a, c + (g + m));
    ReadsJoin(s, i + |k|, w, a + (c + (g + m)));
    ReadsJoin(s, i, k, w + (a + (c + (g + m))));
  }

  lemma ApartSame(d: Doc, a: string, b: string)
    requires a != "" && b != "" && a[0] == b[0]
    ensures Apart(d, a) <==> Apart(d, b)
  {
  }

  lemma FollowStarts(s: string, j: nat, f: string)
    requires Reads(s, j, f) && f != ""
    ensures j < |s| && s[j..] != "" && s[j..][0] == f[0]
  {
    ReadsAt(s, j, f, 0);
  }

  lemma GoodItem(r: Row, keyed: bool)
    requires r.Item?
    ensures GoodRow(r, keyed)
       <==> (&& (keyed ==> GoodKey(r.key) && Blank(r.colon1) && Blank(r.colon2))
             && Good(r.value) && Blank(r.after) && Blank(r.gap) && (!r.comma ==> r.gap == "")
             && Apart(r.value, Follow(r, keyed)) && GoodRow(r.rest, keyed))
  {
    hide GoodKey, Blank, Good, Apart, Follow;
  }

  lemma RowIsTrees(r: Row, at: nat, keyed: bool)
    requires r.Item?
    ensures Trees(r, at, keyed)
         == Join(First(r, at, keyed),
                 Trees(r.rest, NextOf(at, r, keyed), keyed))
  {
    hide First, Write, WriteKey, Join, Comma;
  }

  lemma {:induction false} RowParses(s: string, i: nat, r: Row, kind: Kind)
    requires (kind.Array? || kind.Object?) && GoodRow(r, kind.Object?) && Reads(s, i, WriteRow(r, kind.Object?))
    ensures ElementsAt(s, i, kind) == Done(Trees(r, i, kind.Object?), i + |WriteRow(r, kind.Object?)|)
    decreases r, 1
  {
    hide *;
    if r.End? {
      RowEnds(s, i, r, kind);
    } else {
      var next := NextOf(i, r, kind.Object?);
      ItemStands(s, i, r, kind.Object?);
      GoodItem(r, kind.Object?);
      FirstParses(s, i, r, kind);
      NextStands(s, i, r, kind);
      RestStands(s, i, r, kind.Object?);
      RowParses(s, next, r.rest, kind);
      RowMade(s, i, r, kind);
    }
  }

  lemma RestStands(s: string, i: nat, r: Row, keyed: bool)
    requires r.Item? && Stands(s, i, r, keyed)
    ensures Reads(s, NextOf(i, r, keyed), WriteRow(r.rest, keyed))
  {
    hide Write, WriteKey, WriteRow, Comma, Reads;
  }

  lemma RowMade(s: string, i: nat, r: Row, kind: Kind)
    requires (kind.Array? || kind.Object?) && r.Item? && Reads(s, i, WriteRow(r, kind.Object?))
    requires i < |s| && !IsSpace(s[i]) && s[i] != Close(kind)
    requires var end := i + |WriteKey(r, kind.Object?)| + |Write(r.value)|;
             var next := NextOf(i, r, kind.Object?);
             && end <= |s| && next <= |s| && Skip(s, AfterComma(s, end)) == Skip(s, next)
             && ElementAt(s, i, kind) == Done(First(r, i, kind.Object?), end)
             && ElementsAt(s, next, kind)
                == Done(Trees(r.rest, next, kind.Object?), next + |WriteRow(r.rest, kind.Object?)|)
    ensures ElementsAt(s, i, kind) == Done(Trees(r, i, kind.Object?), i + |WriteRow(r, kind.Object?)|)
  {
    hide *;
    var keyed := kind.Object?;
    var end, next := i + |WriteKey(r, keyed)| + |Write(r.value)|, NextOf(i, r, keyed);
    SameFrom(s, AfterComma(s, end), next, kind);
    RowStarts(s, i, kind, First(r, i, keyed), end);
    RowIsTrees(r, i, keyed);
    ItemStands(s, i, r, keyed);
    NextIs(i, r, keyed);
    Prepended(First(r, i, keyed), Trees(r.rest, next, keyed), i + |WriteRow(r, keyed)|);
  }

  lemma NextIs(i: nat, r: Row, keyed: bool)
    requires r.Item?
    ensures NextOf(i, r, keyed)
         == i + |WriteKey(r, keyed)| + |Write(r.value)| + |r.after| + |Comma(r)| + |r.gap|
  {
  }

  lemma Prepended(f: Forest, g: Forest, next: nat)
    ensures Prepend(f, Done(g, next)) == Done(Join(f, g), next)
  {
  }

  lemma RowEnds(s: string, i: nat, r: Row, kind: Kind)
    requires (kind.Array? || kind.Object?) && r.End? && Reads(s, i, WriteRow(r, kind.Object?))
    ensures ElementsAt(s, i, kind) == Done(Trees(r, i, kind.Object?), i + |WriteRow(r, kind.Object?)|)
  {
    hide Skip;
    ReadsAt(s, i, WriteRow(r, kind.Object?), 0);
    SkipNothing(s, i);
  }

  lemma RowStarts(s: string, i: nat, kind: Kind, first: Forest, end: nat)
    requires i < |s| && !IsSpace(s[i]) && s[i] != Close(kind) && ElementAt(s, i, kind) == Done(first, end)
    ensures end <= |s| && ElementsAt(s, i, kind) == Prepend(first, ElementsAt(s, AfterComma(s, end), kind))
  {
    hide ElementAt;
    SkipNothing(s, i);
  }

  /** A row starts with neither white space nor a comma. */
  lemma RowFirst(s: string, i: nat, r: Row, keyed: bool)
    requires GoodRow(r, keyed) && Reads(s, i, WriteRow(r, keyed))
    ensures i < |s| && !IsSpace(s[i]) && s[i] != ','
    ensures r.Item? ==> s[i] != if keyed then '}' else ']'
  {
    if r.End? {
      ReadsAt(s, i, WriteRow(r, keyed), 0);
    } else {
      hide WriteRow, GoodRow, Good, Write, Blank;
      GoodItem(r, keyed);
      ItemStands(s, i, r, keyed);
      if keyed {
        KeyStarts(s, i, r);
      } else {
        DocStarts(s, i, r.value);
      }
    }
  }

  lemma KeyStarts(s: string, i: nat, r: Row)
    requires r.Item? && GoodKey(r.key) && Reads(s, i, WriteKey(r, true))
    ensures i < |s| && (s[i] == '"' || IsAlpha(s[i]))
  {
    hide Spell, GoodPieces;
    ReadsSplit(s, i, KeyText(r.key), r.colon1 + (":" + r.colon2));
    ReadsAt(s, i, KeyText(r.key), 0);
  }

  /** Where the rest of a row is read from: behind the comma, if there is one. */
  lemma NextStands(s: string, i: nat, r: Row, kind: Kind)
    requires (kind.Array? || kind.Object?) && r.Item? && GoodRow(r, kind.Object?) && Stands(s, i, r, kind.Object?)
    ensures var end := i + |WriteKey(r, kind.Object?)| + |Write(r.value)|;
            var next := NextOf(i, r, kind.Object?);
            end <= |s| && next <= |s| && Skip(s, AfterComma(s, end)) == Skip(s, next)
  {
    hide GoodRow, WriteRow, Write, WriteKey, Reads, Blank, Good, Skip, AfterComma, Apart, Follow, GoodKey;
    GoodItem(r, kind.Object?);
    var end := i + |WriteKey(r, kind.Object?)| + |Write(r.value)|;
    RowFirst(s, NextOf(i, r, kind.Object?), r.rest, kind.Object?);
    CommaSkipped(s, end, r);
  }

  lemma CommaSkipped(s: string, end: nat, r: Row)
    requires r.Item? && Blank(r.after) && Blank(r.gap) && (!r.comma ==> r.gap == "")
    requires Reads(s, end, r.after) && Reads(s, end + |r.after|, Comma(r))
    requires Reads(s, end + |r.after| + |Comma(r)|, r.gap)
    requires var next := end + |r.after| + |Comma(r)| + |r.gap|; next < |s| && !IsSpace(s[next]) && s[next] != ','
    ensures Skip(s, AfterComma(s, end)) == Skip(s, end + |r.after| + |Comma(r)| + |r.gap|)
  {
    hide Reads, Blank;
    var c := end + |r.after|;
    var next := c + |Comma(r)| + |r.gap|;
    BlankSkipped(s, end, r.after);
    BlankSkipped(s, c + |Comma(r)|, r.gap);
    SkipNothing(s, next);
    if r.comma {
      ReadsAt(s, c, ",", 0);
      SkipNothing(s, c);
    }
  }

  lemma ValueApart(s: string, end: nat, r: Row, keyed: bool)
    requires r.Item? && Reads(s, end, Follow(r, keyed))
    ensures end < |s| && (Apart(r.value, Follow(r, keyed)) <==> Apart(r.value, s[end..]))
  {
    hide Reads, Follow, Apart;
    FollowStarts(s, end, Follow(r, keyed));
    ApartSame(r.value, Follow(r, keyed), s[end..]);
  }

  /** The first element or member of a row. */
  lemma FirstParses(s: string, i: nat, r: Row, kind: Kind)
    requires (kind.Array? || kind.Object?) && r.Item? && GoodRow(r, kind.Object?)
    requires Reads(s, i, WriteRow(r, kind.Object?))
    ensures var end := i + |WriteKey(r, kind.Object?)| + |Write(r.value)|;
            end <= |s| && ElementAt(s, i, kind) == Done(First(r, i, kind.Object?), end)
    ensures i < |s| && !IsSpace(s[i]) && s[i] != Close(kind)
    decreases r, 0
  {
    hide *;
    var keyed := kind.Object?;
    GoodItem(r, keyed);
    ItemStands(s, i, r, keyed);
    ItemParts(s, i, r, keyed);
    var v := i + |WriteKey(r, keyed)|;
    var end := v + |Write(r.value)|;
    RowFirst(s, i, r, keyed);
    ClosedBy(kind);
    ValueApart(s, end, r, keyed);
    DocParses(s, v, r.value);
    ElementIs(s, i, r, kind);
    if keyed { PairParses(s, i, r, Tree(r.value, v), end); }
  }

  lemma ClosedBy(kind: Kind)
    requires kind.Array? || kind.Object?
    ensures Close(kind) == if kind.Object? then '}' else ']'
  {
  }

  lemma ItemParts(s: string, i: nat, r: Row, keyed: bool)
    requires r.Item? && Stands(s, i, r, keyed)
    ensures Reads(s, i, WriteKey(r, keyed)) && Reads(s, i + |WriteKey(r, keyed)|, Write(r.value))
    ensures i + |WriteKey(r, keyed)| <= |s|
  {
    hide Write, WriteKey, WriteRow;
  }

  lemma ElementIs(s: string, i: nat, r: Row, kind: Kind)
    requires (kind.Array? || kind.Object?) && r.Item? && i <= |s|
    ensures kind.Object? ==> ElementAt(s, i, kind) == PairAt(s, i)
    ensures kind.Object? ==> First(r, i, true) == Join(KeyTree(r.key, i), Tree(r.value, i + |WriteKey(r, true)|))
    ensures kind.Array? ==> ElementAt(s, i, kind) == ValueAt(s, i) && WriteKey(r, false) == ""
    ensures kind.Array? ==> First(r, i, false) == Tree(r.value, i)
  {
    hide ValueAt, PairAt, Join, Tree, KeyTree;
  }

  lemma PairParses(s: string, i: nat, r: Row, value: Forest, end: nat)
    requires r.Item? && GoodKey(r.key) && Blank(r.colon1) && Blank(r.colon2) && Reads(s, i, WriteKey(r, true))
    requires i + |WriteKey(r, true)| <= |s| && ValueAt(s, i + |WriteKey(r, true)|) == Done(value, end)
    ensures PairAt(s, i) == Done(Join(KeyTree(r.key, i), value), end)
  {
    hide ValueAt, Join, KeyAt, GoodKey, KeyText, Blank, Reads, KeyTree, Skip, PairAt;
    var k := i + |KeyText(r.key)|;
    var c := k + |r.colon1|;
    ReadsSplit(s, i, KeyText(r.key), r.colon1 + (":" + r.colon2));
    ReadsSplit(s, k, r.colon1, ":" + r.colon2);
    ReadsSplit(s, c, ":", r.colon2);
    ReadsAt(s, c, ":", 0);
    AfterKey(s, k, r.colon1);
    KeyParses(s, i, r.key);
    BlankSkipped(s, k, r.colon1);
    SkipNothing(s, c);
    BlankSkipped(s, c + 1, r.colon2);
    SameFrom(s, c + 1, c + 1 + |r.colon2|, Array);
    PairIs(s, i, KeyTree(r.key, i), k, c);
  }

  lemma PairIs(s: string, i: nat, key: Forest, k: nat, c: nat)
    requires i <= |s| && k <= c < |s| && s[c] == ':' && KeyAt(s, i) == Done(key, k) && Skip(s, k) == c
    ensures PairAt(s, i) == Prepend(key, ValueAt(s, c + 1))
  {
    hide KeyAt, ValueAt, Skip, Prepend;
  }

  lemma AfterKey(s: string, k: nat, colon1: string)
    requires Reads(s, k, colon1) && Blank(colon1) && k + |colon1| < |s| && s[k + |colon1|] == ':'
    ensures k < |s| && !IsName(s[k])
  {
    PartStarts(s, k, colon1);
  }

  // ---- every accepted text is such a document ------------------------------

  /** Every value accepted at a place is a document written there. */
  lemma {:induction false} ValueWritten(s: string, i: nat) returns (d: Doc)
    requires Bytes(s) && i <= |s| && Skip(s, i) == i && ValueAt(s, i).Done?
    ensures Good(d) && Reads(s, i, Write(d)) && i + |Write(d)| == ValueAt(s, i).next
    ensures Apart(d, s[i + |Write(d)|..]) && (d.Text? ==> i + |Write(d)| < |s|)
    decreases |s| - i, 1
  {
    hide *;
    ValueCases(s, i);
    if s[i] == '"' {
      d := TextWritten(s, i);
    } else if s[i] == '{' || s[i] == '[' {
      d := BracketsWritten(s, i, if s[i] == '{' then Object else Array);
    } else if s[i] == 'n' || s[i] == 't' || s[i] == 'f' {
      d := WordDocWritten(s, i);
    } else {
      d := DigitsWritten(s, i);
    }
  }

  lemma ValueCases(s: string, i: nat)
    requires i <= |s| && Skip(s, i) == i && ValueAt(s, i).Done?
    ensures i < |s|
    ensures s[i] == '"' || s[i] == '{' || s[i] == '[' || s[i] == 'n' || s[i] == 't' || s[i] == 'f' || s[i] == '-'
            || IsDigit(s[i])
  {
    hide Skip, StringEnd, NumberEnd, LiteralEnd, ElementsAt;
  }

  lemma TextWritten(s: string, i: nat) returns (d: Doc)
    requires Bytes(s) && i < |s| && s[i] == '"' && Skip(s, i) == i && ValueAt(s, i).Done?
    ensures Good(d) && Reads(s, i, Write(d)) && i + |Write(d)| == ValueAt(s, i).next && i + |Write(d)| < |s|
    ensures Apart(d, s[i + |Write(d)|..])
  {
    hide Skip, StringEnd, NumberEnd, LiteralEnd, ElementsAt, Spell, GoodPieces;
    var pieces := TextIsQuoted(s, i);
    d := Text(pieces);
  }

  lemma DigitsWritten(s: string, i: nat) returns (d: Doc)
    requires i < |s| && (s[i] == '-' || IsDigit(s[i])) && Skip(s, i) == i && ValueAt(s, i).Done?
    ensures Good(d) && Reads(s, i, Write(d)) && i + |Write(d)| == ValueAt(s, i).next
    ensures Apart(d, s[i + |Write(d)|..]) && !d.Text?
  {
    hide Skip, StringEnd, NumberEnd, LiteralEnd, ElementsAt, Reads, Good, Write, Apart;
    d := NumberWritten(s, i);
  }

  lemma WordDocWritten(s: string, i: nat) returns (d: Doc)
    requires i < |s| && (s[i] == 'n' || s[i] == 't' || s[i] == 'f') && Skip(s, i) == i && ValueAt(s, i).Done?
    ensures Good(d) && Reads(s, i, Write(d)) && i + |Write(d)| == ValueAt(s, i).next
    ensures Apart(d, s[i + |Write(d)|..]) && !d.Text?
  {
    hide Skip, StringEnd, NumberEnd, LiteralEnd, ElementsAt, Reads;
    d := Word(if s[i] == 't' then True else if s[i] == 'f' then False else Null);
    WordWritten(s, i, WordText(d.kind));
  }

  lemma BracketsWritten(s: string, i: nat, kind: Kind) returns (d: Doc)
    requires Bytes(s) && i < |s| && Skip(s, i) == i && ValueAt(s, i).Done?
    requires (kind.Array? && s[i] == '[') || (kind.Object? && s[i] == '{')
    ensures Good(d) && Reads(s, i, Write(d)) && i + |Write(d)| == ValueAt(s, i).next
    ensures Apart(d, s[i + |Write(d)|..]) && (d.List? <==> kind.Array?) && (d.Record? <==> kind.Object?)
    decreases |s| - i, 0
  {
    hide *;
    ContainerCases(s, i, kind);
    var q := Skip(s, i + 1);
    SkippedIsBlank(s, i + 1);
    SameFrom(s, i + 1, q, kind);
    var blank := s[i + 1..q];
    var row := RowWritten(s, q, kind);
    d := if kind.Array? then List(blank, row) else Record(blank, row);
    BracketsStand(s, i, d, blank, row, kind);
  }

  lemma ContainerCases(s: string, i: nat, kind: Kind)
    requires i < |s| && Skip(s, i) == i && ValueAt(s, i).Done?
    requires (kind.Array? && s[i] == '[') || (kind.Object? && s[i] == '{')
    ensures ElementsAt(s, i + 1, kind).Done? && ValueAt(s, i).next == ElementsAt(s, i + 1, kind).next
  {
    hide Skip, StringEnd, NumberEnd, LiteralEnd, ElementsAt;
  }

  lemma BracketsStand(s: string, i: nat, d: Doc, blank: string, row: Row, kind: Kind)
    requires (d == List(blank, row) && kind.Array?) || (d == Record(blank, row) && kind.Object?)
    requires i < |s| && s[i] == (if kind.Array? then '[' else '{') && Reads(s, i + 1, blank) && Blank(blank)
    requires Reads(s, i + 1 + |blank|, WriteRow(row, kind.Object?)) && GoodRow(row, kind.Object?)
    ensures Good(d) && Reads(s, i, Write(d)) && |Write(d)| == 1 + |blank| + |WriteRow(row, kind.Object?)|
    ensures i + |Write(d)| <= |s| && Apart(d, s[i + |Write(d)|..])
  {
    hide WriteRow, GoodRow, Blank;
    assert s[i..i + 1] == if kind.Array? then "[" else "{";
    ReadsJoin(s, i + 1, blank, WriteRow(row, kind.Object?));
    ReadsJoin(s, i, if kind.Array? then "[" else "{", blank + WriteRow(row, kind.Object?));
  }

  lemma {:induction false} RowWritten(s: string, i: nat, kind: Kind) returns (r: Row)
    requires (kind.Array? || kind.Object?) && Bytes(s) && i <= |s| && Skip(s, i) == i && ElementsAt(s, i, kind).Done?
    ensures GoodRow(r, kind.Object?) && Reads(s, i, WriteRow(r, kind.Object?))
    ensures i + |WriteRow(r, kind.Object?)| == ElementsAt(s, i, kind).next
    decreases |s| - i, 3
  {
    hide *;
    ElementsCases(s, i, kind);
    if IsAt(s, i, Close(kind)) {
      r := End;
      CloseWritten(s, i, kind);
    } else {
      var head := HeadWritten(s, i, kind);
      var end := ElementAt(s, i, kind).next;
      var p := Skip(s, end);
      var n := AfterComma(s, end);
      var g := Skip(s, n);
      SkippedIsBlank(s, end);
      SkippedIsBlank(s, n);
      CommaCases(s, end);
      SameFrom(s, n, g, kind);
      var rest := RowWritten(s, g, kind);
      r := head.(after := s[end..p], comma := IsAt(s, p, ','), gap := s[n..g], rest := rest);
      RowJoined(s, i, head, r, kind);
    }
  }

  lemma ElementsCases(s: string, i: nat, kind: Kind)
    requires i <= |s| && Skip(s, i) == i && ElementsAt(s, i, kind).Done?
    ensures IsAt(s, i, Close(kind)) ==> ElementsAt(s, i, kind).next == i + 1
    ensures !IsAt(s, i, Close(kind)) ==>
              && ElementAt(s, i, kind).Done? && i < ElementAt(s, i, kind).next <= |s|
              && var rest := ElementsAt(s, AfterComma(s, ElementAt(s, i, kind).next), kind);
                 rest.Done? && ElementsAt(s, i, kind).next == rest.next
  {
    hide ElementAt, Skip, AfterComma, IsAt;
  }

  lemma CloseWritten(s: string, i: nat, kind: Kind)
    requires (kind.Array? || kind.Object?) && IsAt(s, i, Close(kind))
    ensures GoodRow(End, kind.Object?) && Reads(s, i, WriteRow(End, kind.Object?))
    ensures |WriteRow(End, kind.Object?)| == 1
  {
    assert s[i..i + 1] == [s[i]];
  }

  lemma CommaCases(s: string, end: nat)
    requires end <= |s|
    ensures var p := Skip(s, end);
            end <= p && AfterComma(s, end) == (if IsAt(s, p, ',') then p + 1 else p)
            && (IsAt(s, p, ',') ==> Reads(s, p, ",")) && (!IsAt(s, p, ',') ==> Reads(s, p, ""))
  {
    hide Skip;
    var p := Skip(s, end);
    if IsAt(s, p, ',') { assert s[p..p + 1] == [s[p]]; }
  }

  /** The key and value of the first item, with nothing behind them yet. */
  lemma HeadWritten(s: string, i: nat, kind: Kind) returns (r: Row)
    requires (kind.Array? || kind.Object?) && Bytes(s) && i <= |s| && Skip(s, i) == i && ElementAt(s, i, kind).Done?
    ensures r.Item? && Good(r.value) && Reads(s, i, WriteKey(r, kind.Object?))
    ensures Reads(s, i + |WriteKey(r, kind.Object?)|, Write(r.value))
    ensures i + |WriteKey(r, kind.Object?)| + |Write(r.value)| == ElementAt(s, i, kind).next <= |s|
    ensures Apart(r.value, s[ElementAt(s, i, kind).next..])
    ensures kind.Object? ==> GoodKey(r.key) && Blank(r.colon1) && Blank(r.colon2)
    decreases |s| - i, 2
  {
    hide *;
    HeadIs(s, i, kind);
    if kind.Array? {
      var d := ValueWritten(s, i);
      r := Item(Bare(""), "", "", d, "", false, "", End);
      NoKey(s, i, r);
    } else {
      PairCases(s, i);
      var key := KeyWritten(s, i);
      var k := KeyAt(s, i).next;
      var c := Skip(s, k);
      var v := Skip(s, c + 1);
      SkippedIsBlank(s, k);
      SkippedIsBlank(s, c + 1);
      SameFrom(s, c + 1, v, kind);
      var d := ValueWritten(s, v);
      r := Item(key, s[k..c], s[c + 1..v], d, "", false, "", End);
      KeyJoined(s, i, r, c);
    }
  }

  lemma HeadIs(s: string, i: nat, kind: Kind)
    requires (kind.Array? || kind.Object?) && i <= |s|
    ensures ElementAt(s, i, kind) == if kind.Array? then ValueAt(s, i) else PairAt(s, i)
    ensures ElementAt(s, i, kind).Done? ==> ElementAt(s, i, kind).next <= |s|
  {
    hide ValueAt, PairAt;
  }

  lemma NoKey(s: string, i: nat, r: Row)
    requires r.Item? && i <= |s|
    ensures WriteKey(r, false) == "" && Reads(s, i, "")
  {
  }

  lemma PairCases(s: string, i: nat)
    requires i <= |s| && PairAt(s, i).Done?
    ensures KeyAt(s, i).Done? && i < KeyAt(s, i).next <= |s|
    ensures var c := Skip(s, KeyAt(s, i).next);
            c < |s| && s[c] == ':' && ValueAt(s, c + 1).Done? && PairAt(s, i).next == ValueAt(s, c + 1).next
  {
    hide KeyAt, ValueAt, Skip;
  }

  lemma KeyJoined(s: string, i: nat, r: Row, c: nat)
    requires r.Item? && Reads(s, i, KeyText(r.key)) && Reads(s, i + |KeyText(r.key)|, r.colon1)
    requires c == i + |KeyText(r.key)| + |r.colon1| < |s| && s[c] == ':' && Reads(s, c + 1, r.colon2)
    ensures Reads(s, i, WriteKey(r, true)) && i + |WriteKey(r, true)| == c + 1 + |r.colon2|
  {
    hide KeyText;
    assert s[c..c + 1] == ":";
    ReadsJoin(s, c, ":", r.colon2);
    ReadsJoin(s, i + |KeyText(r.key)|, r.colon1, ":" + r.colon2);
    ReadsJoin(s, i, KeyText(r.key), r.colon1 + (":" + r.colon2));
  }

  /** Head, comma, white space and the rest make a row. */
  lemma RowJoined(s: string, i: nat, head: Row, r: Row, kind: Kind)
    requires (kind.Array? || kind.Object?) && head.Item? && r.Item?
    requires r == head.(after := r.after, comma := r.comma, gap := r.gap, rest := r.rest)
    requires Good(head.value) && (kind.Object? ==> GoodKey(head.key) && Blank(head.colon1) && Blank(head.colon2))
    requires Blank(r.after) && Blank(r.gap) && (!r.comma ==> r.gap == "") && GoodRow(r.rest, kind.Object?)
    requires Reads(s, i, WriteKey(head, kind.Object?))
    requires Reads(s, i + |WriteKey(head, kind.Object?)|, Write(head.value))
    requires var end := i + |WriteKey(head, kind.Object?)| + |Write(head.value)|;
             var c := end + |r.after|;
             var n := if r.comma then c + 1 else c;
             && end <= |s| && Apart(head.value, s[end..]) && Reads(s, end, r.after)
             && Reads(s, c, if r.comma then "," else "") && Reads(s, n, r.gap)
             && Reads(s, n + |r.gap|, WriteRow(r.rest, kind.Object?))
    ensures GoodRow(r, kind.Object?) && Reads(s, i, WriteRow(r, kind.Object?))
    ensures i + |WriteRow(r, kind.Object?)|
         == i + |WriteKey(head, kind.Object?)| + |Write(head.value)| + |r.after| + (if r.comma then 1 else 0) + |r.gap|
            + |WriteRow(r.rest, kind.Object?)|
  {
    hide *;
    SameKey(head, r, kind.Object?);
    StandsIs(s, i, r, kind.Object?);
    StandsAsRow(s, i, r, kind.Object?);
    ValueApart(s, i + |WriteKey(r, kind.Object?)| + |Write(r.value)|, r, kind.Object?);
    GoodItem(r, kind.Object?);
  }

  lemma SameKey(head: Row, r: Row, keyed: bool)
    requires head.Item? && r.Item? && r == head.(after := r.after, comma := r.comma, gap := r.gap, rest := r.rest)
    ensures WriteKey(r, keyed) == WriteKey(head, keyed) && r.value == head.value
    ensures Comma(r) == if r.comma then "," else ""
  {
    hide KeyText;
  }

  lemma StandsIs(s: string, i: nat, r: Row, keyed: bool)
    requires r.Item?
    requires var v := i + |WriteKey(r, keyed)|;
             var end := v + |Write(r.value)|;
             var c := end + |r.after|;
             && Reads(s, i, WriteKey(r, keyed)) && Reads(s, v, Write(r.value)) && Reads(s, end, r.after)
             && Reads(s, c, Comma(r)) && Reads(s, c + |Comma(r)|, r.gap)
             && Reads(s, c + |Comma(r)| + |r.gap|, WriteRow(r.rest, keyed))
    ensures Stands(s, i, r, keyed)
  {
    hide WriteKey, Write, Comma, WriteRow, Reads;
  }

  // ---- the tokenizer decides the grammar -----------------------------------

  /** White space and an object, whatever comes after it. */
  ghost predicate Holds(s: string, lead: string, d: Doc) {
    d.Record? && Good(d) && Blank(lead) && Reads(s, 0, lead + Write(d))
  }

  /** Every such object is accepted, whatever comes after it, and its tree is the one it denotes. */
  lemma RecordAccepted(s: string, lead: string, d: Doc)
    requires Holds(s, lead, d)
    ensures ObjectAt(s, 0) == Done(Tree(d, |lead|), |lead + Write(d)|)
  {
    hide ValueAt, Tree, Reads, Good, Write, Blank, Skip;
    ReadsSplit(s, 0, lead, Write(d));
    NotApart(s, |lead|, d);
    DocParses(s, |lead|, d);
    BlankSkipped(s, 0, lead);
    DocStarts(s, |lead|, d);
    SkipNothing(s, |lead|);
    ObjectIsValue(s, |lead|, d);
  }

  lemma NotApart(s: string, i: nat, d: Doc)
    requires d.Record? && Reads(s, i, Write(d))
    ensures i + |Write(d)| <= |s| && Apart(d, s[i + |Write(d)|..])
  {
    hide Write;
  }

  lemma ObjectIsValue(s: string, i: nat, d: Doc)
    requires d.Record? && Reads(s, i, Write(d)) && Skip(s, 0) == i == Skip(s, i)
    ensures ObjectAt(s, 0) == ValueAt(s, i) && i < |s| && s[i] == '{'
  {
    hide ElementsAt, WriteRow, Skip;
    ReadsAt(s, i, Write(d), 0);
  }

  /** A text of bytes is accepted with that tree and end exactly when such an object is written there. */
  lemma AcceptsExactly(s: string, f: Forest, next: nat)
    requires Bytes(s)
    ensures ObjectAt(s, 0) == Done(f, next)
       <==> exists lead, d :: Holds(s, lead, d) && f == Tree(d, |lead|) && next == |lead + Write(d)|
  {
    hide ObjectAt, Holds, Write, Tree;
    if ObjectAt(s, 0) == Done(f, next) {
      var lead, d := AcceptedIsObject(s);
      RecordAccepted(s, lead, d);
    }
    forall lead, d | Holds(s, lead, d)
      ensures ObjectAt(s, 0) == Done(Tree(d, |lead|), |lead + Write(d)|)
    {
      RecordAccepted(s, lead, d);
    }
  }

  lemma AcceptedIsObject(s: string) returns (lead: string, d: Doc)
    requires Bytes(s) && ObjectAt(s, 0).Done?
    ensures Holds(s, lead, d)
  {
    hide *;
    var p := Skip(s, 0);
    SkippedIsBlank(s, 0);
    ObjectCases(s);
    lead := s[0..p];
    d := BracketsWritten(s, p, Object);
    ReadsJoin(s, 0, lead, Write(d));
    HoldsIs(s, lead, d);
  }

  lemma ObjectCases(s: string)
    requires ObjectAt(s, 0).Done? && Skip(s, Skip(s, 0)) == Skip(s, 0)
    ensures var p := Skip(s, 0); p < |s| && s[p] == '{' && ValueAt(s, p).Done?
  {
    hide ElementsAt, Skip;
  }

  lemma HoldsIs(s: string, lead: string, d: Doc)
    requires d.Record? && Good(d) && Blank(lead) && Reads(s, 0, lead + Write(d))
    ensures Holds(s, lead, d)
  {
  }
}
