/** The texts the parser of dev/svr/3rd/json.hpp accepts are those of the grammar of RFC 7159, written
  down as documents with all their freedom: white space, escapes, number forms. */
module JsonGrammar {
  import opened Common
  import opened JsonLexer
  import opened JsonNumber
  import opened JsonParser
  import opened JsonRoundTrip
  import opened JsonText
  import opened Numerals
  import opened Utf8

  // ---- documents -----------------------------------------------------------

  /** A character as it is, a backslash with a letter, \u with four digits, or two of these for a surrogate pair.
    Torn: the rest of a string that has an escaped backslash right behind a pair. The decoder, which passes over
    the first backslash, takes the second one for the start of an escape that the scanner does not see. */
  datatype Piece = Raw(c: char) | Letter(c: char) | Hex(digits: string) | Pair16(high: string, low: string)
    | Torn(rest: string)

  /** Elements, or members with the white space around their colons; after: the white space after the
    value; gap: that after the comma which follows unless the row ends. */
  datatype Row = End
    | Item(key: seq<Piece>, colon1: string, colon2: string, value: Doc, after: string, gap: string, rest: Row)

  /** blank: the white space after the opening bracket. */
  datatype Doc = Word(word: string) | Number(literal: string) | Text(pieces: seq<Piece>)
    | List(blank: string, items: Row) | Record(blank: string, fields: Row)

  predicate Blank(w: string) {
    forall i :: 0 <= i < |w| ==> w[i] == ' ' || w[i] == '\t' || w[i] == '\n' || w[i] == '\r'
  }

  function SpellPiece(x: Piece): (t: string)
    ensures t != ""
  {
    match x
    case Raw(c) => [c]
    case Letter(c) => ['\\', c]
    case Hex(digits) => ['\\', 'u'] + digits
    case Pair16(high, low) => (['\\', 'u'] + high) + (['\\', 'u'] + low)
    case Torn(rest) => "\\" + rest
  }

  function Spell(pieces: seq<Piece>): string {
    if pieces == [] then "" else SpellPiece(pieces[0]) + Spell(pieces[1..])
  }

  function Quoted(pieces: seq<Piece>): string {
    "\"" + (Spell(pieces) + "\"")
  }

  function Write(d: Doc): string
    decreases d
  {
    match d
    case Word(word) => word
    case Number(literal) => literal
    case Text(pieces) => Quoted(pieces)
    case List(blank, items) => "[" + (blank + (WriteRow(items, false) + "]"))
    case Record(blank, fields) => "{" + (blank + (WriteRow(fields, true) + "}"))
  }

  function WriteKey(r: Row): string
    requires r.Item?
  {
    Quoted(r.key) + (r.colon1 + (":" + r.colon2))
  }

  function WriteRow(r: Row, keyed: bool): string
    decreases r
  {
    if r.End? then ""
    else
      (if keyed then WriteKey(r) else "")
      + (Write(r.value) + (r.after + (if r.rest.End? then "" else "," + (r.gap + WriteRow(r.rest, keyed)))))
  }

  // ---- which of them are texts of the grammar, and what they mean ----------

  predicate FourDigitsOf(s: string) {
    |s| == 4 && forall i :: 0 <= i < 4 ==> IsHexDigit(s[i])
  }

  /** cut: the piece stands right behind a surrogate pair, where the decoder passes over one character.
    Raw characters from 0x10 on are taken, which is more than section 7 allows. A high surrogate needs a low
    one, unless its backslash is cut off. A torn rest is good when scanner and decoder both take it. */
  predicate GoodPiece(x: Piece, cut: bool) {
    match x
    case Raw(c) => c >= '\U{10}' && c != '\"' && c != '\\'
    case Letter(c) => c in "\"\\/bfnrt" && (cut ==> c != '\\')
    case Hex(digits) => FourDigitsOf(digits) && (cut || !IsHigh(HexNumber(digits)))
    case Pair16(high, low) =>
      !cut && FourDigitsOf(high) && FourDigitsOf(low) && IsHigh(HexNumber(high)) && IsLow(HexNumber(low))
    case Torn(rest) =>
      && cut && rest != "" && rest[0] == '\\'
      && StringEnd("\\" + rest + "\"", 0) == |rest| + 2 && Unescape(rest + "\"", 0, |rest|).Decoded?
  }

  function HexNumber(digits: string): (n: nat)
    requires |digits| == 4
    ensures n < 0x1_0000
  {
    ((HexDigitValue(digits[0]) * 16 + HexDigitValue(digits[1])) * 16 + HexDigitValue(digits[2])) * 16
    + HexDigitValue(digits[3])
  }

  /** The bytes a piece stands for. */
  function Bytes(x: Piece, cut: bool): string
    requires GoodPiece(x, cut)
  {
    match x
    case Raw(c) => if cut then "" else [c]
    case Letter(c) => if cut then [c] else [EscapedChar(c)]
    case Hex(digits) => if cut then "u" + digits else ToUnicode(HexNumber(digits))
    case Pair16(high, low) => ToUnicode(Astral(HexNumber(high), HexNumber(low)))
    case Torn(rest) => Unescape(rest + "\"", 0, |rest|).s
  }

  predicate GoodPieces(pieces: seq<Piece>) { GoodFrom(pieces, false) }

  predicate GoodFrom(pieces: seq<Piece>, cut: bool) {
    || pieces == []
    || (GoodPiece(pieces[0], cut) && (pieces[0].Torn? ==> |pieces| == 1) && GoodFrom(pieces[1..], pieces[0].Pair16?))
  }

  function AllBytes(pieces: seq<Piece>): string
    requires GoodPieces(pieces)
  {
    BytesFrom(pieces, false)
  }

  function BytesFrom(pieces: seq<Piece>, cut: bool): string
    requires GoodFrom(pieces, cut)
  {
    if pieces == [] then "" else Bytes(pieces[0], cut) + BytesFrom(pieces[1..], pieces[0].Pair16?)
  }

  ghost predicate Good(d: Doc)
    decreases d
  {
    match d
    case Word(word) => word == "null" || word == "true" || word == "false"
    case Number(literal) => IsNumber(literal)
    case Text(pieces) => GoodPieces(pieces)
    case List(blank, items) => Blank(blank) && GoodRow(items)
    case Record(blank, fields) => Blank(blank) && GoodRow(fields)
  }

  ghost predicate GoodRow(r: Row)
    decreases r
  {
    r.End? || (&& GoodPieces(r.key) && Blank(r.colon1) && Blank(r.colon2) && Blank(r.after) && Blank(r.gap)
               && Good(r.value) && GoodRow(r.rest))
  }

  /** An integer if it is written as one of 64 bits, else the literal itself. */
  function NumberMeaning(literal: string): Value {
    if IsWhole(literal) && IsInt64(WholeValue(literal)) then Integer(WholeValue(literal)) else Float(literal)
  }

  /** Objects are read member by member: the last one of a key wins, and the keys are kept in order. */
  ghost function Meaning(d: Doc): Value
    requires Good(d)
    decreases d
  {
    match d
    case Word(word) => if word == "null" then Null else Boolean(word == "true")
    case Number(literal) => NumberMeaning(literal)
    case Text(pieces) => String(AllBytes(pieces))
    case List(_, items) => Array(Elements(items))
    case Record(_, fields) => Object(Members(fields, []))
  }

  ghost function Elements(r: Row): seq<Value>
    requires GoodRow(r)
    decreases r
  {
    if r.End? then [] else [Meaning(r.value)] + Elements(r.rest)
  }

  ghost function Members(r: Row, acc: seq<Member>): seq<Member>
    requires GoodRow(r)
    decreases r
  {
    if r.End? then acc else Members(r.rest, Insert(acc, AllBytes(r.key), Meaning(r.value)))
  }

  // ---- white space ---------------------------------------------------------

  lemma BlankIsSpace(w: string)
    requires Blank(w)
    ensures forall i :: 0 <= i < |w| ==> IsSpace(w[i])
  {
  }

  lemma BlankSkipped(t: string, p: nat, w: string)
    requires Reads(t, p, w) && Blank(w)
    ensures NextToken(t, p) == NextToken(t, p + |w|)
  {
    BlankIsSpace(w);
    hide NextToken;
    SkipSpaceText(t, p, w);
  }

  /** The next token stands after the white space, and this is blank. */
  lemma {:induction false} TokenAfterBlank(t: string, p: nat) returns (q: nat)
    requires p <= |t|
    ensures p <= q <= |t| && Blank(t[p..q]) && !IsSpace(At(t, q)) && NextToken(t, p) == Classify(t, q)
    decreases |t| - p
  {
    hide Classify;
    if IsSpace(At(t, p)) {
      q := TokenAfterBlank(t, p + 1);
      assert t[p..q] == [t[p]] + t[p + 1..q];
    } else {
      q := p;
    }
  }

  // ---- strings -------------------------------------------------------------

  lemma LettersEscape(c: char)
    ensures c in "\"\\/bfnrt" <==> SimpleEscape(c)
  {
  }

  function Skip(cut: bool): nat { if cut then 1 else 0 }

  lemma HexReads(t: string, p: nat, digits: string)
    requires FourDigitsOf(digits) && Reads(t, p, ['\\', 'u'] + digits)
    ensures At(t, p) == '\\' && At(t, p + 1) == 'u' && FourHex(t, p + 2) && CodePoint(t, p + 2) == HexNumber(digits)
    ensures p + 6 <= |t| && t[p + 1..p + 6] == "u" + digits && StringEnd(t, p) == StringEnd(t, p + 6)
  {
    hide CodePoint, HexDigitValue, IsHexDigit;
    var s := ['\\', 'u'] + digits;
    ReadsAt(t, p, s, 0);
    ReadsAt(t, p, s, 1);
    ReadsAt(t, p, s, 2);
    ReadsAt(t, p, s, 3);
    ReadsAt(t, p, s, 4);
    ReadsAt(t, p, s, 5);
    FourDigits(t, p + 2);
    assert t[p + 1..p + 6] == s[1..];
  }

  /** Characters without a backslash are copied. */
  lemma {:induction false} Copied(t: string, p: nat, q: nat, e: nat)
    requires p <= q <= |t| && q <= e && '\\' !in t[p..q]
    ensures Unescape(t, p, e) == Prepend(t[p..q], Unescape(t, q, e))
    decreases q - p
  {
    if p == q {
      assert t[p..q] == "";
      NothingPrepended(Unescape(t, p, e));
    } else {
      assert t[p..q] == [t[p]] + t[p + 1..q];
      Copied(t, p + 1, q, e);
      PrependTwice([t[p]], t[p + 1..q], Unescape(t, q, e));
    }
  }

  lemma NothingPrepended(d: Decoded)
    ensures Prepend("", d) == d
  {
    if d.Decoded? { assert "" + d.s == d.s; }
  }

  /** One piece, followed by anything: the scanner passes over it, and it decodes to its bytes. */
  lemma PieceReads(t: string, p: nat, x: Piece, cut: bool, e: nat)
    requires !x.Torn? && GoodPiece(x, cut) && Reads(t, p, SpellPiece(x)) && p + |SpellPiece(x)| <= e
    ensures StringEnd(t, p) == StringEnd(t, p + |SpellPiece(x)|)
    ensures Unescape(t, p + Skip(cut), e)
         == Prepend(Bytes(x, cut), Unescape(t, p + |SpellPiece(x)| + Skip(x.Pair16?), e))
  {
    hide HexDigitValue, IsHexDigit, EscapedChar, ToUnicode, CodePoint;
    var s := SpellPiece(x);
    ReadsAt(t, p, s, 0);
    match x {
      case Raw(c) => NothingPrepended(Unescape(t, p + 1, e));
      case Letter(c) =>
        ReadsAt(t, p, s, 1);
        LettersEscape(c);
      case Hex(digits) => HexPieceReads(t, p, digits, cut, e);
      case Pair16(high, low) => PairReads(t, p, high, low, e);
    }
  }

  lemma HexPieceReads(t: string, p: nat, digits: string, cut: bool, e: nat)
    requires GoodPiece(Hex(digits), cut) && Reads(t, p, ['\\', 'u'] + digits) && p + 6 <= e
    ensures StringEnd(t, p) == StringEnd(t, p + 6)
    ensures Unescape(t, p + Skip(cut), e) == Prepend(Bytes(Hex(digits), cut), Unescape(t, p + 6, e))
  {
    hide HexDigitValue, EscapedChar, ToUnicode, CodePoint, StringEnd;
    HexReads(t, p, digits);
    if cut {
      assert '\\' !in "u" + digits;
      Copied(t, p + 1, p + 6, e);
    }
  }

  lemma PairReads(t: string, p: nat, high: string, low: string, e: nat)
    requires GoodPiece(Pair16(high, low), false) && p + 12 <= e
    requires Reads(t, p, (['\\', 'u'] + high) + (['\\', 'u'] + low))
    ensures StringEnd(t, p) == StringEnd(t, p + 12)
    ensures Unescape(t, p, e) == Prepend(Bytes(Pair16(high, low), false), Unescape(t, p + 13, e))
  {
    hide HexDigitValue, EscapedChar, ToUnicode, CodePoint, StringEnd, HexNumber, Reads;
    ReadsSplit(t, p, ['\\', 'u'] + high, ['\\', 'u'] + low);
    HexReads(t, p, high);
    HexReads(t, p + 6, low);
    PairCase(t, p, e);
  }

  // ---- what the decoder reads ends at the quote ----------------------------

  /** Up to the first quote. */
  function Front(s: string): string {
    if s == "" || s[0] == '\"' then "" else [s[0]] + Front(s[1..])
  }

  lemma {:induction false} RunOfFront(s: string, acc: nat)
    ensures HexRun(s, acc) == HexRun(Front(s), acc)
    decreases |s|
  {
    if s != "" && s[0] != '\"' && IsHexDigit(s[0]) { RunOfFront(s[1..], 16 * acc + HexDigitValue(s[0])); }
  }

  lemma {:induction false} FrontIsPrefix(s: string)
    ensures |Front(s)| <= |s| && Front(s) == s[..|Front(s)|] && (|Front(s)| < |s| ==> s[|Front(s)|] == '\"')
    decreases |s|
  {
    if s != "" && s[0] != '\"' {
      FrontIsPrefix(s[1..]);
      assert s[..|Front(s)|] == [s[0]] + s[1..][..|Front(s[1..])|];
    }
  }

  lemma {:induction false} FrontDrops(s: string, k: nat)
    requires k <= |Front(s)| && k <= |s|
    ensures Front(s)[k..] == Front(s[k..])
    decreases k
  {
    if k == 0 {
      assert s[0..] == s;
    } else {
      FrontDrops(s[1..], k - 1);
      assert s[k..] == s[1..][k - 1..] && Front(s)[k..] == Front(s[1..])[k - 1..];
    }
  }

  lemma UnsignedOfFront(s: string)
    ensures Unsigned(s) == Unsigned(Front(s))
  {
    hide HexDigitValue, HexRun, Front;
    var f := Front(s);
    FrontIsPrefix(s);
    RunOfFront(s, 0);
    if |f| > 2 {
      assert f[0] == s[0] && f[1] == s[1] && f[2] == s[2];
      RunOfFront(s[2..], 0);
      FrontDrops(s, 2);
    } else if |s| > 2 {
      assert s[|f|] == '\"';
    }
  }

  /** strtoul stops at a quote. */
  lemma {:induction false} StrToULOfFront(s: string)
    ensures StrToUL(s) == StrToUL(Front(s))
    decreases |s|
  {
    hide Unsigned;
    UnsignedOfFront(s);
    if s != "" {
      UnsignedOfFront(s[1..]);
      if s[0] == ' ' { StrToULOfFront(s[1..]); }
      if s[0] != '\"' { assert Front(s)[1..] == Front(s[1..]); }
    }
  }

  /** Fewer than four digits are no surrogate. */
  lemma ShortIsNotHigh(s: string)
    requires |s| < 4
    ensures !IsHigh(StrToUL(s)) && !IsLow(StrToUL(s))
    decreases |s|
  {
    hide HexDigitValue;
    if s != "" && s[0] == ' ' {
      ShortIsNotHigh(s[1..]);
    } else if s != "" && (s[0] == '+' || s[0] == '-') {
      ShortRun(s[1..]);
    } else {
      ShortRun(s);
    }
  }

  lemma ShortRun(s: string)
    requires |s| < 4
    ensures Unsigned(s) < 0x1000
  {
    RunBound(s, 0);
    if |s| > 2 { RunBound(s[2..], 0); }
  }

  lemma {:induction false} RunBound(s: string, acc: nat)
    ensures |s| == 0 ==> HexRun(s, acc) <= acc
    ensures |s| == 1 ==> HexRun(s, acc) <= 16 * acc + 15
    ensures |s| == 2 ==> HexRun(s, acc) <= 256 * acc + 255
    ensures |s| == 3 ==> HexRun(s, acc) <= 4096 * acc + 4095
    decreases |s|
  {
    if s != "" && IsHexDigit(s[0]) { RunBound(s[1..], 16 * acc + HexDigitValue(s[0])); }
  }

  lemma {:induction false} FrontSame(s: string, w: string, d: nat)
    requires d < |s| && d < |w| && s[d] == '\"' && s[..d + 1] == w[..d + 1]
    ensures Front(s) == Front(w) && |Front(s)| <= d
    decreases d
  {
    assert s[0] == s[..d + 1][0] && w[0] == w[..d + 1][0] && w[d] == w[..d + 1][d] && s[d] == s[..d + 1][d];
    if d > 0 && s[0] != '\"' {
      assert s[1..][..d] == s[..d + 1][1..] && w[1..][..d] == w[..d + 1][1..];
      FrontSame(s[1..], w[1..], d - 1);
    }
  }

  /** Two texts that are the same up to a quote, which stands at p in the one and at q in the other. */
  predicate SameUpTo(t: string, p: nat, u: string, q: nat) {
    q <= p < |t| && q < |u| && t[p - q..p + 1] == u[..q + 1] && u[q] == '\"'
  }

  lemma SameInside(t: string, p: nat, u: string, q: nat)
    requires SameUpTo(t, p, u, q)
    ensures q <= p < |t| && q < |u|
  {
  }

  lemma SameAt(t: string, p: nat, u: string, q: nat, k: nat)
    requires SameUpTo(t, p, u, q) && k <= q
    ensures At(t, p - q + k) == At(u, k) && At(u, q) == '\"'
  {
    assert t[p - q..p + 1][k] == u[..q + 1][k];
  }

  lemma SameCode(t: string, p: nat, u: string, q: nat, k: nat)
    requires SameUpTo(t, p, u, q) && k <= q
    ensures CodePoint(t, p - q + k) == CodePoint(u, k)
    ensures k + 4 > q ==> !IsHigh(CodePoint(u, k)) && !IsLow(CodePoint(u, k))
  {
    hide SameUpTo, StrToUL;
    SameInside(t, p, u, q);
    var a, d := p - q + k, q - k;
    var s := [At(t, a), At(t, a + 1), At(t, a + 2), At(t, a + 3)];
    var w := [At(u, k), At(u, k + 1), At(u, k + 2), At(u, k + 3)];
    forall i | 0 <= i < 4 && i <= d
      ensures s[i] == w[i]
    {
      SameAt(t, p, u, q, k + i);
    }
    SameAt(t, p, u, q, q);
    if d >= 4 {
      assert s == w;
    } else {
      assert w[d] == '\"' && s[..d + 1] == w[..d + 1];
      FrontSame(s, w, d);
      StrToULOfFront(s);
      StrToULOfFront(w);
      ShortIsNotHigh(Front(w));
    }
  }

  /** The decoder reads the same in both. */
  lemma {:induction false} SameDecode(t: string, p: nat, u: string, q: nat, k: nat)
    requires SameUpTo(t, p, u, q)
    ensures Unescape(t, p - q + k, p) == Unescape(u, k, q)
    decreases q - k
  {
    hide SameUpTo, CodePoint, ToUnicode, EscapedChar;
    SameInside(t, p, u, q);
    var a := p - q + k;
    UnescapeCases(t, a, p);
    UnescapeCases(u, k, q);
    if k < q {
      SameAt(t, p, u, q, k);
      SameAt(t, p, u, q, k + 1);
      if At(u, k) != '\\' {
        SameDecode(t, p, u, q, k + 1);
      } else if SimpleEscape(At(u, k + 1)) || At(u, k + 1) != 'u' {
        SameDecode(t, p, u, q, k + 2);
      } else {
        SameCode(t, p, u, q, k + 2);
        if IsHigh(CodePoint(u, k + 2)) {
          SamePair(t, p, u, q, k);
        } else {
          SameDecode(t, p, u, q, k + 6);
        }
      }
    }
  }

  lemma SamePair(t: string, p: nat, u: string, q: nat, k: nat)
    requires SameUpTo(t, p, u, q) && k < q
    requires At(u, k) == '\\' && At(u, k + 1) == 'u' && IsHigh(CodePoint(u, k + 2))
    requires At(t, p - q + k) == '\\' && At(t, p - q + k + 1) == 'u'
    requires CodePoint(t, p - q + k + 2) == CodePoint(u, k + 2)
    ensures Unescape(t, p - q + k, p) == Unescape(u, k, q)
    decreases q - k, 0
  {
    hide SameUpTo, CodePoint, ToUnicode, Unescape;
    SameInside(t, p, u, q);
    SameAt(t, p, u, q, q);
    var a := p - q + k;
    PairCase(t, a, p);
    PairCase(u, k, q);
    SameCode(t, p, u, q, k + 2);
    SameAt(t, p, u, q, k + 6);
    if At(u, k + 6) == '\\' {
      SameAt(t, p, u, q, k + 7);
      if At(u, k + 7) == 'u' {
        SameCode(t, p, u, q, k + 8);
        SameDecode(t, p, u, q, k + 13);
      }
    }
  }

  /** And the scanner ends at that quote in both or in neither. */
  lemma {:induction false} SameEnd(t: string, p: nat, u: string, q: nat, k: nat)
    requires SameUpTo(t, p, u, q) && |u| == q + 1 && k <= q
    ensures StringEnd(u, k) == q + 1 <==> StringEnd(t, p - q + k) == p + 1
    decreases q - k
  {
    hide SameUpTo, IsHexDigit;
    var a := p - q + k;
    SameInside(t, p, u, q);
    SameAt(t, p, u, q, k);
    SameAt(t, p, u, q, q);
    if At(u, k) == '\\' {
      SameAt(t, p, u, q, k + 1);
      if SimpleEscape(At(u, k + 1)) {
        if k + 2 <= q { SameEnd(t, p, u, q, k + 2); } else { EndIsAfter(t, a + 2); }
      } else {
        SameHex(t, p, u, q, k + 2);
        if FourHex(u, k + 2) { SameEnd(t, p, u, q, k + 6); }
      }
    } else if At(u, k) != '\"' && k < q {
      SameEnd(t, p, u, q, k + 1);
    }
  }

  lemma SameHex(t: string, p: nat, u: string, q: nat, k: nat)
    requires SameUpTo(t, p, u, q) && k <= q
    ensures FourHex(t, p - q + k) == FourHex(u, k) && (FourHex(u, k) ==> k + 4 <= q)
  {
    hide SameUpTo;
    SameAt(t, p, u, q, q);
    SameAt(t, p, u, q, k);
    if k + 1 <= q { SameAt(t, p, u, q, k + 1); }
    if k + 2 <= q { SameAt(t, p, u, q, k + 2); }
    if k + 3 <= q { SameAt(t, p, u, q, k + 3); }
  }

  lemma TornIs(rest: string)
    requires GoodPiece(Torn(rest), true)
    ensures StringEnd("\\" + rest + "\"", 0) == |rest| + 2
    ensures Unescape(rest + "\"", 0, |rest|) == Decoded(Bytes(Torn(rest), true))
  {
    hide StringEnd, Unescape;
  }

  /** A torn rest and the quote behind it. */
  lemma TornReads(t: string, p: nat, rest: string)
    requires GoodPiece(Torn(rest), true) && Reads(t, p, "\\" + rest + "\"")
    ensures StringEnd(t, p) == p + |rest| + 2
    ensures Unescape(t, p + 1, p + 1 + |rest|) == Decoded(Bytes(Torn(rest), true))
  {
    hide StringEnd, Unescape, GoodPiece, Bytes, Reads, SameUpTo;
    TornIs(rest);
    TornStands(t, p, rest);
    SameEnd(t, p + 1 + |rest|, "\\" + rest + "\"", |rest| + 1, 0);
    SameDecode(t, p + 1 + |rest|, rest + "\"", |rest|, 0);
  }

  lemma TornStands(t: string, p: nat, rest: string)
    requires Reads(t, p, "\\" + rest + "\"")
    ensures SameUpTo(t, p + 1 + |rest|, "\\" + rest + "\"", |rest| + 1)
    ensures SameUpTo(t, p + 1 + |rest|, rest + "\"", |rest|)
  {
    var u, v := "\\" + rest + "\"", rest + "\"";
    assert u == "\\" + v && u[..|rest| + 2] == u && v[..|rest| + 1] == v;
    ReadsSplit(t, p, "\\", v);
  }

  lemma TornWritten(t: string, p: nat, e: nat) returns (x: Piece)
    requires p + 1 < e < |t| && TornAt(t, p) && StringEnd(t, p) == e + 1 && Unescape(t, p + 1, e).Decoded?
    requires t[e] == '\"'
    ensures x == Torn(t[p + 1..e]) && GoodPiece(x, true) && Reads(t, p, SpellPiece(x))
  {
    hide StringEnd, Unescape;
    var rest := t[p + 1..e];
    x := Torn(rest);
    assert t[p..e + 1] == "\\" + rest + "\"" && t[p..e] == "\\" + rest;
    TornStands(t, p, rest);
    SameEnd(t, e, "\\" + rest + "\"", |rest| + 1, 0);
    SameDecode(t, e, rest + "\"", |rest|, 0);
  }

  /** Whether an escaped backslash begins at p. */
  predicate TornAt(t: string, p: nat) { At(t, p) == '\\' && At(t, p + 1) == '\\' }

  /** A spelled body and the closing quote: where it ends, and what it decodes to. */
  lemma {:induction false} BodyReads(t: string, p: nat, pieces: seq<Piece>, cut: bool)
    requires GoodFrom(pieces, cut) && Reads(t, p, Spell(pieces) + "\"")
    ensures StringEnd(t, p) == p + |Spell(pieces)| + 1
    ensures Unescape(t, p + Skip(cut), p + |Spell(pieces)|) == Decoded(BytesFrom(pieces, cut))
    decreases |pieces|
  {
    hide SpellPiece, StringEnd, Unescape, Reads, GoodPiece, Bytes;
    if pieces == [] {
      assert Spell(pieces) + "\"" == "\"";
      EmptyBody(t, p);
      UnescapeCases(t, p + Skip(cut), p);
    } else {
      var x, rest := pieces[0], pieces[1..];
      assert Spell(pieces) + "\"" == SpellPiece(x) + (Spell(rest) + "\"");
      if x.Torn? {
        assert rest == [] && Spell(rest) + "\"" == "\"" && BytesFrom(rest, false) == "";
        TornBody(t, p, x, cut);
        assert Bytes(x, cut) + "" == Bytes(x, cut) && SpellPiece(x) + "" == SpellPiece(x);
      } else {
        ReadsSplit(t, p, SpellPiece(x), Spell(rest) + "\"");
        PieceReads(t, p, x, cut, p + |Spell(pieces)|);
        BodyReads(t, p + |SpellPiece(x)|, rest, x.Pair16?);
      }
    }
  }

  lemma TornBody(t: string, p: nat, x: Piece, cut: bool)
    requires x.Torn? && GoodPiece(x, cut) && Reads(t, p, SpellPiece(x) + "\"")
    ensures StringEnd(t, p) == p + |SpellPiece(x)| + 1
    ensures Unescape(t, p + Skip(cut), p + |SpellPiece(x)|) == Decoded(Bytes(x, cut))
  {
    hide StringEnd, Unescape, Reads;
    TornReads(t, p, x.rest);
  }

  lemma TextReads(t: string, p: nat, pieces: seq<Piece>)
    requires GoodPieces(pieces) && Reads(t, p, Quoted(pieces))
    ensures NextToken(t, p) == Token(ValueString, p, p + |Quoted(pieces)|)
    ensures Unescape(t, p + 1, p + |Quoted(pieces)| - 1) == Decoded(AllBytes(pieces))
  {
    hide Spell, StringEnd, Unescape, GoodFrom, BytesFrom;
    ReadsSplit(t, p, "\"", Spell(pieces) + "\"");
    ReadsAt(t, p, Quoted(pieces), 0);
    BodyReads(t, p + 1, pieces, false);
    TokenHere(t, p);
  }

  lemma DigitsInside(t: string, p: nat) returns (digits: string)
    requires At(t, p) == '\\' && At(t, p + 1) == 'u' && FourHex(t, p + 2)
    ensures FourDigitsOf(digits) && Reads(t, p, ['\\', 'u'] + digits) && CodePoint(t, p + 2) == HexNumber(digits)
  {
    hide HexDigitValue, IsHexDigit, CodePoint;
    FourDigits(t, p + 2);
    digits := FourHexInside(t, p + 2);
    assert t[p..p + 6] == ['\\', 'u'] + digits;
  }

  /** The first piece of an accepted body. */
  lemma FirstPiece(t: string, p: nat, e: nat, cut: bool) returns (x: Piece)
    requires p < e < |t| && StringEnd(t, p) == e + 1 && Unescape(t, p + Skip(cut), e).Decoded?
    requires cut ==> !TornAt(t, p)
    ensures !x.Torn? && GoodPiece(x, cut) && Reads(t, p, SpellPiece(x)) && p + |SpellPiece(x)| <= e
    ensures StringEnd(t, p + |SpellPiece(x)|) == e + 1
  {
    hide *;
    if t[p] != '\\' {
      x := RawFirst(t, p, e, cut);
    } else if SimpleEscape(At(t, p + 1)) {
      x := LetterFirst(t, p, e, cut);
    } else {
      x := CodeFirst(t, p, e, cut);
    }
  }

  lemma RawFirst(t: string, p: nat, e: nat, cut: bool) returns (x: Piece)
    requires p < e < |t| && StringEnd(t, p) == e + 1 && t[p] != '\\'
    ensures GoodPiece(x, cut) && Reads(t, p, SpellPiece(x)) && p + |SpellPiece(x)| <= e
    ensures StringEnd(t, p + |SpellPiece(x)|) == e + 1 && !x.Torn?
  {
    x := Raw(t[p]);
    assert t[p..p + 1] == [t[p]];
  }

  lemma LetterFirst(t: string, p: nat, e: nat, cut: bool) returns (x: Piece)
    requires p < e < |t| && StringEnd(t, p) == e + 1 && t[p] == '\\' && SimpleEscape(At(t, p + 1))
    requires cut ==> !TornAt(t, p)
    ensures GoodPiece(x, cut) && Reads(t, p, SpellPiece(x)) && p + |SpellPiece(x)| <= e
    ensures StringEnd(t, p + |SpellPiece(x)|) == e + 1 && !x.Torn?
  {
    var c := At(t, p + 1);
    LettersEscape(c);
    x := Letter(c);
    assert t[p..p + 2] == ['\\', c];
    EndIsAfter(t, p + 2);
  }

  lemma CodeFirst(t: string, p: nat, e: nat, cut: bool) returns (x: Piece)
    requires p < e < |t| && StringEnd(t, p) == e + 1 && Unescape(t, p + Skip(cut), e).Decoded?
    requires t[p] == '\\' && !SimpleEscape(At(t, p + 1))
    ensures !x.Torn? && GoodPiece(x, cut) && Reads(t, p, SpellPiece(x)) && p + |SpellPiece(x)| <= e
    ensures StringEnd(t, p + |SpellPiece(x)|) == e + 1
  {
    hide HexDigitValue, IsHexDigit, EscapedChar, ToUnicode, CodePoint, FourHex, HexNumber, Unescape, Reads;
    var digits := DigitsInside(t, p);
    EndIsAfter(t, p + 6);
    if cut || !IsHigh(HexNumber(digits)) {
      x := Hex(digits);
    } else {
      PairCase(t, p, e);
      LowFollows(t, p, e);
      var low := DigitsInside(t, p + 6);
      x := Pair16(digits, low);
      ReadsJoin(t, p, ['\\', 'u'] + digits, ['\\', 'u'] + low);
    }
  }

  lemma LowFollows(t: string, p: nat, e: nat)
    requires p < e < |t| && UnescapePairAt(t, p, e) && StringEnd(t, p + 6) == e + 1
    requires At(t, p) == '\\' && At(t, p + 1) == 'u' && FourHex(t, p + 2)
    ensures At(t, p + 6) == '\\' && At(t, p + 7) == 'u' && FourHex(t, p + 8) && IsLow(CodePoint(t, p + 8))
    ensures StringEnd(t, p + 12) == e + 1 && p + 12 <= e
  {
    hide CodePoint, FourHex, Unescape, ToUnicode;
    assert FourHex(t, p + 8);
    EndIsAfter(t, p + 12);
  }

  /** What the decoder finds at a high surrogate. */
  predicate UnescapePairAt(t: string, p: nat, e: nat) {
    p < e && IsHigh(CodePoint(t, p + 2)) && UnescapePair(t, p, e, CodePoint(t, p + 2)).Decoded?
  }

  lemma FourHexInside(t: string, p: nat) returns (digits: string)
    requires FourHex(t, p)
    ensures p + 4 <= |t| && digits == t[p..p + 4] && forall i :: 0 <= i < 4 ==> IsHexDigit(digits[i])
  {
    HexIsInside(t, p + 3);
    assert At(t, p) == t[p] && At(t, p + 1) == t[p + 1] && At(t, p + 2) == t[p + 2] && At(t, p + 3) == t[p + 3];
    digits := t[p..p + 4];
  }

  /** Every accepted body is spelled by pieces. */
  lemma {:induction false} BodyIsSpelled(t: string, p: nat, e: nat, cut: bool) returns (pieces: seq<Piece>)
    requires p <= e < |t| && StringEnd(t, p) == e + 1 && Unescape(t, p + Skip(cut), e).Decoded?
    requires t[e] == '\"'
    ensures GoodFrom(pieces, cut) && Reads(t, p, Spell(pieces)) && p + |Spell(pieces)| == e
    decreases e - p
  {
    hide StringEnd, Unescape, SpellPiece, GoodPiece, TornAt, Skip, Reads;
    if p == e {
      pieces := [];
      NothingRead(t, p);
    } else if cut && TornAt(t, p) {
      pieces := TornBodyIs(t, p, e);
    } else {
      var x := FirstPiece(t, p, e, cut);
      EndIsAfter(t, p + |SpellPiece(x)|);
      PieceReads(t, p, x, cut, e);
      var rest := BodyIsSpelled(t, p + |SpellPiece(x)|, e, x.Pair16?);
      pieces := [x] + rest;
      assert pieces[1..] == rest;
      ReadsJoin(t, p, SpellPiece(x), Spell(rest));
    }
  }

  lemma NothingRead(t: string, p: nat)
    requires p <= |t|
    ensures Reads(t, p, Spell([])) && |Spell([])| == 0
  {
  }

  lemma TornBodyIs(t: string, p: nat, e: nat) returns (pieces: seq<Piece>)
    requires p < e < |t| && TornAt(t, p) && StringEnd(t, p) == e + 1 && Unescape(t, p + Skip(true), e).Decoded?
    requires t[e] == '\"'
    ensures GoodFrom(pieces, true) && Reads(t, p, Spell(pieces)) && p + |Spell(pieces)| == e
  {
    hide Unescape, Reads, GoodPiece;
    EndIsAfter(t, p + 2);
    var x := TornWritten(t, p, e);
    pieces := [x];
    assert pieces[1..] == [] && SpellPiece(x) + "" == SpellPiece(x);
    assert Spell(pieces) == SpellPiece(x) + Spell([]);
  }

  lemma EndIsAfter(t: string, p: nat)
    requires p <= |t|
    ensures StringEnd(t, p) != -1 ==> StringEnd(t, p) > p
  {
  }

  lemma QuotedReads(t: string, p: nat, body: string)
    requires p + |body| + 1 < |t| && t[p] == '\"' && t[p + |body| + 1] == '\"' && Reads(t, p + 1, body)
    ensures Reads(t, p + 1, body + "\"") && Reads(t, p, "\"" + (body + "\""))
  {
    assert t[p..p + 1] == "\"" && t[p + |body| + 1..p + |body| + 2] == "\"";
    ReadsJoin(t, p + 1, body, "\"");
    ReadsJoin(t, p, "\"", body + "\"");
  }

  lemma TextIsSpelled(t: string, p: nat) returns (pieces: seq<Piece>)
    requires p < |t| && t[p] == '\"' && StringEnd(t, p + 1) != -1
    requires Unescape(t, p + 1, StringEnd(t, p + 1) - 1).Decoded?
    ensures GoodPieces(pieces) && Reads(t, p, Quoted(pieces)) && p + |Quoted(pieces)| == StringEnd(t, p + 1)
    ensures Unescape(t, p + 1, StringEnd(t, p + 1) - 1) == Decoded(AllBytes(pieces))
  {
    hide *;
    var e := StringEnd(t, p + 1) - 1;
    EndsAtQuote(t, p + 1);
    StartsUncut(t, p + 1, e);
    pieces := BodyIsSpelled(t, p + 1, e, false);
    QuotedReads(t, p, Spell(pieces));
    BodyReads(t, p + 1, pieces, false);
    StartsUncut(t, p + 1, e);
    PiecesAre(pieces);
    QuotedIs(pieces);
  }

  lemma StartsUncut(t: string, p: nat, e: nat)
    ensures Unescape(t, p + Skip(false), e) == Unescape(t, p, e)
  {
  }

  lemma PiecesAre(pieces: seq<Piece>)
    requires GoodFrom(pieces, false)
    ensures GoodPieces(pieces) && AllBytes(pieces) == BytesFrom(pieces, false)
  {
    hide GoodFrom, BytesFrom;
  }

  lemma QuotedIs(pieces: seq<Piece>)
    ensures Quoted(pieces) == "\"" + (Spell(pieces) + "\"") && |Quoted(pieces)| == |Spell(pieces)| + 2
  {
    hide Spell;
  }

  lemma {:induction false} EndsAtQuote(t: string, p: nat)
    requires p <= |t| && StringEnd(t, p) != -1
    ensures p <= StringEnd(t, p) - 1 < |t| && t[StringEnd(t, p) - 1] == '\"'
    decreases |t| - p
  {
    var c := At(t, p);
    if c == '\"' {
    } else if c == '\\' {
      if SimpleEscape(At(t, p + 1)) { EndsAtQuote(t, p + 2); } else { EndsAtQuote(t, p + 6); }
    } else {
      EndsAtQuote(t, p + 1);
    }
  }

  // ---- numbers -------------------------------------------------------------

  /** What ends a number for the scanner and for the conversion alike. */
  predicate Stops(t: string, q: nat) {
    q == |t| || (q < |t| && (t[q] == ',' || t[q] == ']' || t[q] == '}' || t[q] == '\0' || IsSpace(t[q])))
  }

  lemma NumberStarts(s: string)
    requires IsNumber(s)
    ensures s != "" && StartsNumber(s[0])
  {
    var a: nat, b: nat, c: nat :| Splits(s, a, b, c);
    if a == 0 { assert s[a..b][0] == s[0]; } else { assert s[..a][0] == s[0]; }
  }

  lemma StopsAutomaton(q: State, c: char)
    requires Accepting(q) && (c == ',' || c == ']' || c == '}' || c == '\0' || IsSpace(c))
    ensures Delta(q, c) == Dead
  {
  }

  /** A number that ends at white space or punctuation is one token. */
  lemma NumberIsToken(t: string, p: nat, literal: string)
    requires IsNumber(literal) && Reads(t, p, literal) && Stops(t, p + |literal|)
    ensures NextToken(t, p) == Token(ValueNumber, p, p + |literal|)
  {
    hide Run, Delta, IsNumber, Classify;
    var q := p + |literal|;
    NumberStarts(literal);
    ReadsAt(t, p, literal, 0);
    AcceptsExactlyNumbers(literal);
    assert t[p..q] == literal;
    if q < |t| { StopsAutomaton(Run(Start, literal), t[q]); }
    NumberToken(t, p, q, q);
    assert !IsSpace(t[p]);
    TokenHere(t, p);
  }

  lemma SignFirst(sign: string, whole: string, rest: string)
    requires IsMinus(sign) && IsInt(whole)
    ensures var s := sign + (whole + rest); s[0] == '-' <==> sign == "-"
  {
  }

  lemma NumberParts(literal: string) returns (sign: string, whole: string, frac: string, exp: string)
    requires IsNumber(literal)
    ensures IsMinus(sign) && IsInt(whole) && IsFrac(frac) && IsExp(exp)
    ensures literal == sign + (whole + (frac + exp))
  {
    hide IsMinus, IsInt, IsFrac, IsExp;
    var a: nat, b: nat, c: nat :| Splits(literal, a, b, c);
    sign, whole, frac, exp := literal[..a], literal[a..b], literal[b..c], literal[c..];
    InFour(literal, a, b, c);
  }

  lemma InFour(s: string, a: nat, b: nat, c: nat)
    requires a <= b <= c <= |s|
    ensures s == s[..a] + (s[a..b] + (s[b..c] + s[c..]))
  {
    assert s[b..c] + s[c..] == s[b..];
    assert s[a..b] + s[b..] == s[a..];
    assert s[..a] + s[a..] == s;
  }

  /** And it is converted as a whole. */
  lemma NumberIsConverted(t: string, p: nat, literal: string)
    requires IsNumber(literal) && Reads(t, p, literal) && Stops(t, p + |literal|)
    ensures ConvertsExactly(t, p, p + |literal|)
  {
    hide *;
    NumberStarts(literal);
    ReadsAt(t, p, literal, 0);
    var sign, whole, frac, exp := NumberParts(literal);
    SignFirst(sign, whole, frac + exp);
    PartsRead(t, p, sign, whole, frac, exp);
    UnsignedEnds(t, p + |sign|, whole, frac, exp);
    SignedConverts(t, p, sign, p + |literal|);
  }

  lemma SignedConverts(t: string, p: nat, sign: string, end: nat)
    requires IsMinus(sign) && p < |t| && (t[p] == '-' <==> sign == "-")
    requires DecimalEnd(t, p + |sign|) == end && !StartsHexFloat(t, p + |sign|)
    ensures ConvertsExactly(t, p, end)
  {
    hide DecimalEnd, StartsHexFloat;
  }

  lemma PartsRead(t: string, p: nat, sign: string, whole: string, frac: string, exp: string)
    requires Reads(t, p, sign + (whole + (frac + exp)))
    ensures var q := p + |sign|;
            Reads(t, q, whole) && Reads(t, q + |whole|, frac) && Reads(t, q + |whole| + |frac|, exp)
  {
    hide Reads;
    ReadsSplit(t, p, sign, whole + (frac + exp));
    ReadsSplit(t, p + |sign|, whole, frac + exp);
    ReadsSplit(t, p + |sign| + |whole|, frac, exp);
  }

  lemma UnsignedEnds(t: string, p: nat, whole: string, frac: string, exp: string)
    requires IsInt(whole) && IsFrac(frac) && IsExp(exp)
    requires Reads(t, p, whole) && Reads(t, p + |whole|, frac) && Reads(t, p + |whole| + |frac|, exp)
    requires Stops(t, p + |whole| + |frac| + |exp|)
    ensures DecimalEnd(t, p) == p + |whole| + |frac| + |exp| && !StartsHexFloat(t, p)
  {
    hide DigitsEnd;
    var q := p + |whole|;
    var f := q + |frac|;
    IntEnds(t, p, whole, frac, exp);
    FracEnds(t, q, frac, exp);
    ExpEnds(t, f, exp);
    ReadsAt(t, p, whole, 0);
  }

  /** The character after a part is the first of the next part that is not empty, or what stops the number. */
  lemma AfterPart(t: string, q: nat, part: string)
    requires Reads(t, q, part)
    ensures part != "" ==> At(t, q) == part[0]
  {
    if part != "" { ReadsAt(t, q, part, 0); }
  }

  lemma IntEnds(t: string, p: nat, whole: string, frac: string, exp: string)
    requires IsInt(whole) && IsFrac(frac) && IsExp(exp)
    requires Reads(t, p, whole) && Reads(t, p + |whole|, frac) && Reads(t, p + |whole| + |frac|, exp)
    requires Stops(t, p + |whole| + |frac| + |exp|)
    ensures DigitsEnd(t, p) == p + |whole| && (At(t, p + |whole|) == '.' <==> frac != "")
    ensures At(t, p + |whole|) != 'x' && At(t, p + |whole|) != 'X'
  {
    hide DigitsEnd;
    AfterPart(t, p + |whole|, frac);
    AfterPart(t, p + |whole| + |frac|, exp);
    DigitsRun(t, p, whole);
  }

  lemma FracEnds(t: string, q: nat, frac: string, exp: string)
    requires IsFrac(frac) && IsExp(exp) && Reads(t, q, frac) && Reads(t, q + |frac|, exp)
    requires Stops(t, q + |frac| + |exp|)
    ensures frac != "" ==> DigitsEnd(t, q + 1) == q + |frac|
  {
    hide DigitsEnd;
    if frac != "" {
      assert frac == [frac[0]] + frac[1..];
      ReadsSplit(t, q, [frac[0]], frac[1..]);
      AfterPart(t, q + |frac|, exp);
      DigitsRun(t, q + 1, frac[1..]);
    }
  }

  lemma ExpEnds(t: string, f: nat, exp: string)
    requires IsExp(exp) && Reads(t, f, exp) && Stops(t, f + |exp|)
    ensures (At(t, f) == 'e' || At(t, f) == 'E') <==> exp != ""
    ensures exp != "" ==>
              var d := if At(t, f + 1) == '+' || At(t, f + 1) == '-' then f + 2 else f + 1;
              IsDigit(At(t, d)) && DigitsEnd(t, d) == f + |exp|
  {
    hide DigitsEnd;
    AfterPart(t, f, exp);
    if exp != "" {
      assert exp == [exp[0]] + exp[1..];
      ReadsSplit(t, f, [exp[0]], exp[1..]);
      BodyEnds(t, f + 1, exp[1..]);
    }
  }

  /** The digits of an exponent, and the sign before them. */
  lemma BodyEnds(t: string, f: nat, body: string)
    requires IsExpBody(body) && Reads(t, f, body) && Stops(t, f + |body|)
    ensures var d := if At(t, f) == '+' || At(t, f) == '-' then f + 1 else f;
            IsDigit(At(t, d)) && DigitsEnd(t, d) == f + |body|
  {
    hide DigitsEnd;
    ReadsAt(t, f, body, 0);
    if AllDigits(body) {
      DigitsRun(t, f, body);
    } else {
      assert body == [body[0]] + body[1..];
      ReadsSplit(t, f, [body[0]], body[1..]);
      ReadsAt(t, f + 1, body[1..], 0);
      DigitsRun(t, f + 1, body[1..]);
    }
  }

  lemma NumberReads(t: string, p: nat, literal: string)
    requires IsNumber(literal) && Reads(t, p, literal) && Stops(t, p + |literal|)
    ensures ParseValue(t, NextToken(t, p)) == Parsed(NumberMeaning(literal), NextToken(t, p + |literal|))
  {
    hide NextToken, ConvertsExactly, IsNumber;
    NumberIsToken(t, p, literal);
    NumberIsConverted(t, p, literal);
    assert t[p..p + |literal|] == literal;
  }

  // ---- every document is accepted as what it means -------------------------

  /** What follows the white space after a value, up to and including the closing bracket. */
  function Tail(r: Row, keyed: bool, ket: string): string
    requires r.Item?
  {
    if r.rest.End? then ket else "," + (r.gap + (WriteRow(r.rest, keyed) + ket))
  }

  lemma RowText(r: Row, keyed: bool, ket: string)
    requires r.Item?
    ensures WriteRow(r, keyed) + ket
         == (if keyed then WriteKey(r) else "") + (Write(r.value) + (r.after + Tail(r, keyed, ket)))
  {
    hide Write, WriteKey;
    var key, value := if keyed then WriteKey(r) else "", Write(r.value);
    var more := if r.rest.End? then "" else "," + (r.gap + WriteRow(r.rest, keyed));
    Associates(key, value + (r.after + more), ket);
    Associates(value, r.after + more, ket);
    Associates(r.after, more, ket);
    if r.rest.Item? {
      Associates(",", r.gap + WriteRow(r.rest, keyed), ket);
      Associates(r.gap, WriteRow(r.rest, keyed), ket);
    } else {
      assert "" + ket == ket;
    }
  }

  lemma TailStarts(r: Row, keyed: bool, ket: string)
    requires r.Item? && |ket| == 1
    ensures Tail(r, keyed, ket) != "" && Tail(r, keyed, ket)[0] == if r.rest.End? then ket[0] else ','
    ensures r.rest.End? ==> |Tail(r, keyed, ket)| == 1
  {
    hide WriteRow;
  }

  lemma StopsHere(t: string, q: nat, after: string, more: string)
    requires Reads(t, q, after + more) && Blank(after)
    requires more != "" && (more[0] == ',' || more[0] == ']' || more[0] == '}')
    ensures Stops(t, q)
  {
    ReadsAt(t, q, after + more, 0);
    assert (after + more)[0] == if after == "" then more[0] else after[0];
  }

  /** A document is accepted where it stands, as what it means, and the next token is the one after it. */
  lemma {:induction false} DocReads(t: string, p: nat, d: Doc)
    requires Good(d) && Reads(t, p, Write(d)) && (d.Number? ==> Stops(t, p + |Write(d)|))
    ensures ParseValue(t, NextToken(t, p)) == Parsed(Meaning(d), NextToken(t, p + |Write(d)|))
    decreases d, 0
  {
    hide *;
    match d {
      case Word(_) => WordReads(t, p, d);
      case Number(_) => NumberDocReads(t, p, d);
      case Text(_) => TextDocReads(t, p, d);
      case List(blank, items) => ListReads(t, p, d, blank, items);
      case Record(blank, fields) => RecordReads(t, p, d, blank, fields);
    }
  }

  lemma WordReads(t: string, p: nat, d: Doc)
    requires d.Word? && Good(d) && Reads(t, p, Write(d))
    ensures ParseValue(t, NextToken(t, p)) == Parsed(Meaning(d), NextToken(t, p + |Write(d)|))
  {
    hide NextToken, Reads;
    var word := d.word;
    var kind := if word == "null" then LiteralNull else if word == "true" then LiteralTrue else LiteralFalse;
    WordRoundTrip(t, p, word, kind);
  }

  lemma NumberDocReads(t: string, p: nat, d: Doc)
    requires d.Number? && Good(d) && Reads(t, p, Write(d)) && Stops(t, p + |Write(d)|)
    ensures ParseValue(t, NextToken(t, p)) == Parsed(Meaning(d), NextToken(t, p + |Write(d)|))
  {
    hide NextToken, Reads, ParseValue, NumberMeaning;
    NumberReads(t, p, d.literal);
  }

  lemma TextDocReads(t: string, p: nat, d: Doc)
    requires d.Text? && Good(d) && Reads(t, p, Write(d))
    ensures ParseValue(t, NextToken(t, p)) == Parsed(Meaning(d), NextToken(t, p + |Write(d)|))
  {
    hide NextToken, Reads, Quoted, Unescape, GoodPieces, AllBytes;
    TextReads(t, p, d.pieces);
  }

  /** After an opening bracket: the bracket that closes it, or the first element. */
  lemma OpenReads(t: string, p: nat, bra: string, open: Kind, blank: string, more: string)
    requires |bra| == 1 && SingleCharacter(bra[0]) == open && (open == BeginArray || open == BeginObject)
    requires Reads(t, p, bra + (blank + more)) && Blank(blank)
    ensures NextToken(t, p) == Token(open, p, p + 1) && p + 1 <= |t|
    ensures NextToken(t, p + 1) == NextToken(t, p + 1 + |blank|) && Reads(t, p + 1 + |blank|, more)
  {
    hide NextToken, Reads, Blank;
    ReadsSplit(t, p, bra, blank + more);
    OpeningToken(t, p, bra, open);
    ReadsSplit(t, p + 1, blank, more);
    BlankSkipped(t, p + 1, blank);
    ReadsEnds(t, p + 1, blank + more);
  }

  lemma ListReads(t: string, p: nat, d: Doc, blank: string, items: Row)
    requires d == List(blank, items) && Good(d) && Reads(t, p, Write(d))
    ensures ParseValue(t, NextToken(t, p)) == Parsed(Meaning(d), NextToken(t, p + |Write(d)|))
    decreases items, 2
  {
    hide NextToken, Reads, WriteRow, ParseItems, Elements, GoodRow, Blank, GoodToken;
    OpenReads(t, p, "[", BeginArray, blank, WriteRow(items, false) + "]");
    var q := p + 1 + |blank|;
    if items.End? {
      NoElements(false);
      assert WriteRow(items, false) + "]" == "]";
      OpeningToken(t, q, "]", EndArray);
      EmptyMeaning(items);
    } else {
      ItemsRead(t, q, items, []);
      BracketsDelegate(t, NextToken(t, p));
      assert [] + Elements(items) == Elements(items);
    }
  }

  lemma NoElements(keyed: bool)
    ensures WriteRow(End, keyed) == ""
  {
  }

  lemma EmptyMeaning(r: Row)
    requires r.End? && GoodRow(r)
    ensures Elements(r) == [] && forall acc :: Members(r, acc) == acc
  {
  }

  lemma {:induction false} ItemsRead(t: string, p: nat, r: Row, acc: seq<Value>)
    requires r.Item? && GoodRow(r) && Reads(t, p, WriteRow(r, false) + "]")
    ensures ParseItems(t, NextToken(t, p), acc)
         == Parsed(Array(acc + Elements(r)), NextToken(t, p + |WriteRow(r, false)| + 1))
    decreases r, 1
  {
    hide NextToken, Reads, Write, WriteRow, Tail, ParseValue, Blank, Good, Meaning, GoodToken, Stops;
    RowText(r, false, "]");
    var w, more := Write(r.value), Tail(r, false, "]");
    assert "" + (w + (r.after + more)) == w + (r.after + more);
    ReadsSplit(t, p, w, r.after + more);
    var q := p + |w|;
    TailStarts(r, false, "]");
    StopsHere(t, q, r.after, more);
    DocReads(t, p, r.value);
    ReadsSplit(t, q, r.after, more);
    BlankSkipped(t, q, r.after);
    ItemEnds(t, q + |r.after|, r, acc + [Meaning(r.value)]);
    assert acc + [Meaning(r.value)] + Elements(r.rest) == acc + Elements(r);
    assert |WriteRow(r, false) + "]"| == |w| + |r.after| + |more|;
    if r.rest.End? {
      EmptyMeaning(r.rest);
      assert acc + [Meaning(r.value)] == acc + Elements(r);
    }
  }

  /** From the comma or the bracket on. */
  lemma ItemEnds(t: string, p: nat, r: Row, acc: seq<Value>)
    requires r.Item? && GoodRow(r) && Reads(t, p, Tail(r, false, "]"))
    ensures r.rest.End? ==> NextToken(t, p) == Token(EndArray, p, p + 1)
    ensures r.rest.Item? ==>
              && NextToken(t, p) == Token(ValueSeparator, p, p + 1) && p + 1 <= |t|
              && ParseItems(t, NextToken(t, p + 1), acc)
                 == Parsed(Array(acc + Elements(r.rest)), NextToken(t, p + |Tail(r, false, "]")|))
    ensures p + |Tail(r, false, "]")| <= |t|
    decreases r, 0
  {
    hide NextToken, Reads, WriteRow, ParseItems, Blank, Elements;
    ReadsEnds(t, p, Tail(r, false, "]"));
    if r.rest.End? {
      OpeningToken(t, p, "]", EndArray);
    } else {
      var more := WriteRow(r.rest, false) + "]";
      ReadsSplit(t, p, ",", r.gap + more);
      OpeningToken(t, p, ",", ValueSeparator);
      ReadsSplit(t, p + 1, r.gap, more);
      BlankSkipped(t, p + 1, r.gap);
      ItemsRead(t, p + 1 + |r.gap|, r.rest, acc);
    }
  }

  lemma RecordReads(t: string, p: nat, d: Doc, blank: string, fields: Row)
    requires d == Record(blank, fields) && Good(d) && Reads(t, p, Write(d))
    ensures ParseValue(t, NextToken(t, p)) == Parsed(Meaning(d), NextToken(t, p + |Write(d)|))
    decreases fields, 2
  {
    hide NextToken, Reads, WriteRow, ParseMembers, Members, GoodRow, Blank, GoodToken;
    OpenReads(t, p, "{", BeginObject, blank, WriteRow(fields, true) + "}");
    var q := p + 1 + |blank|;
    if fields.End? {
      NoElements(true);
      assert WriteRow(fields, true) + "}" == "}";
      OpeningToken(t, q, "}", EndObject);
      EmptyMeaning(fields);
    } else {
      MembersRead(t, q, fields, []);
      BracketsDelegate(t, NextToken(t, p));
    }
  }

  /** A key with its colon: the value after it is what the pair holds. */
  lemma KeyReads(t: string, p: nat, r: Row, v: Outcome)
    requires r.Item? && GoodPieces(r.key) && Blank(r.colon1) && Blank(r.colon2) && Reads(t, p, WriteKey(r))
    requires v.Parsed? && ParseValue(t, NextToken(t, p + |WriteKey(r)|)) == v
    ensures ParsePair(t, NextToken(t, p)) == Pair(AllBytes(r.key), v.value, v.next)
  {
    hide NextToken, Reads, Quoted, ParseValue, Blank, GoodPieces, AllBytes, Unescape, GoodToken;
    ReadsSplit(t, p, Quoted(r.key), r.colon1 + (":" + r.colon2));
    TextReads(t, p, r.key);
    var q := p + |Quoted(r.key)|;
    ReadsSplit(t, q, r.colon1, ":" + r.colon2);
    BlankSkipped(t, q, r.colon1);
    ReadsSplit(t, q + |r.colon1|, ":", r.colon2);
    ColonRead(t, q + |r.colon1|);
    BlankSkipped(t, q + |r.colon1| + 1, r.colon2);
  }

  lemma ColonRead(t: string, p: nat)
    requires Reads(t, p, ":")
    ensures NextToken(t, p) == Token(NameSeparator, p, p + 1)
  {
    ReadsAt(t, p, ":", 0);
    PunctuationToken(t, p, NameSeparator);
  }

  lemma RowParts(r: Row)
    requires r.Item? && GoodRow(r)
    ensures GoodPieces(r.key) && Blank(r.colon1) && Blank(r.colon2) && Blank(r.after) && Blank(r.gap)
    ensures Good(r.value) && GoodRow(r.rest)
  {
    hide GoodPieces, Good, Blank;
  }

  lemma MembersStep(t: string, k: Token, acc: seq<Member>)
    requires GoodToken(t, k)
    ensures var m := ParsePair(t, k);
            m.Pair? ==>
              var ms := Insert(acc, m.key, m.value);
              && (m.next.kind == ValueSeparator ==>
                    m.next.end <= |t| && ParseMembers(t, k, acc) == ParseMembers(t, NextToken(t, m.next.end), ms))
              && (m.next.kind == EndObject ==>
                    m.next.end <= |t| && ParseMembers(t, k, acc) == Parsed(Object(ms), NextToken(t, m.next.end)))
  {
    hide ParsePair, NextToken, Insert;
  }

  lemma MembersOne(r: Row, acc: seq<Member>)
    requires r.Item? && GoodRow(r)
    ensures Good(r.value) && GoodRow(r.rest) && GoodPieces(r.key)
    ensures Members(r, acc) == Members(r.rest, Insert(acc, AllBytes(r.key), Meaning(r.value)))
  {
    hide GoodPieces, AllBytes, Meaning, Insert;
  }

  lemma {:induction false} MembersRead(t: string, p: nat, r: Row, acc: seq<Member>)
    requires r.Item? && GoodRow(r) && Reads(t, p, WriteRow(r, true) + "}")
    ensures ParseMembers(t, NextToken(t, p), acc)
         == Parsed(Object(Members(r, acc)), NextToken(t, p + |WriteRow(r, true)| + 1))
    decreases r, 1
  {
    hide *;
    RowParts(r);
    ReadsEnds(t, p, WriteRow(r, true) + "}");
    MembersStep(t, NextToken(t, p), acc);
    MembersOne(r, acc);
    RowText(r, true, "}");
    var key, w, more := WriteKey(r), Write(r.value), Tail(r, true, "}");
    ReadsSplit(t, p, key, w + (r.after + more));
    ReadsSplit(t, p + |key|, w, r.after + more);
    var q := p + |key| + |w|;
    TailStarts(r, true, "}");
    StopsHere(t, q, r.after, more);
    DocReads(t, p + |key|, r.value);
    KeyReads(t, p, r, ParseValue(t, NextToken(t, p + |key|)));
    ReadsSplit(t, q, r.after, more);
    ReadsEnds(t, q, r.after + more);
    BlankSkipped(t, q, r.after);
    MemberEnds(t, q + |r.after|, r, Insert(acc, AllBytes(r.key), Meaning(r.value)));
    assert |WriteRow(r, true) + "}"| == |key| + |w| + |r.after| + |more|;
    if r.rest.End? { EmptyMeaning(r.rest); }
  }

  lemma MemberEnds(t: string, p: nat, r: Row, acc: seq<Member>)
    requires r.Item? && GoodRow(r) && Reads(t, p, Tail(r, true, "}"))
    ensures r.rest.End? ==> NextToken(t, p) == Token(EndObject, p, p + 1)
    ensures r.rest.Item? ==>
              && NextToken(t, p) == Token(ValueSeparator, p, p + 1) && p + 1 <= |t|
              && ParseMembers(t, NextToken(t, p + 1), acc)
                 == Parsed(Object(Members(r.rest, acc)), NextToken(t, p + |Tail(r, true, "}")|))
    ensures p + |Tail(r, true, "}")| <= |t|
    decreases r, 0
  {
    hide NextToken, Reads, WriteRow, ParseMembers, Blank, Members;
    ReadsEnds(t, p, Tail(r, true, "}"));
    if r.rest.End? {
      OpeningToken(t, p, "}", EndObject);
    } else {
      var more := WriteRow(r.rest, true) + "}";
      ReadsSplit(t, p, ",", r.gap + more);
      OpeningToken(t, p, ",", ValueSeparator);
      ReadsSplit(t, p + 1, r.gap, more);
      BlankSkipped(t, p + 1, r.gap);
      MembersRead(t, p + 1 + |r.gap|, r.rest, acc);
    }
  }

  // ---- every accepted text is such a document ------------------------------

  /** Where the next token stands, with the white space before it. */
  lemma NextStands(t: string, p: nat) returns (q: nat)
    requires p <= |t|
    ensures p <= q <= |t| && Blank(t[p..q]) && Reads(t, p, t[p..q]) && !IsSpace(At(t, q))
    ensures NextToken(t, p) == NextToken(t, q) && NextToken(t, q).start == q
  {
    q := TokenAfterBlank(t, p);
    hide NumberEnd, StringEnd, Blank;
    TokenHere(t, q);
  }

  lemma SignText(t: string, p: nat)
    requires p <= |t|
    ensures var k := Classify(t, p);
            && (k.kind == BeginArray ==> Reads(t, p, "[") && k.end == p + 1)
            && (k.kind == EndArray ==> Reads(t, p, "]") && k.end == p + 1)
            && (k.kind == BeginObject ==> Reads(t, p, "{") && k.end == p + 1)
            && (k.kind == EndObject ==> Reads(t, p, "}") && k.end == p + 1)
            && (k.kind == ValueSeparator ==> Reads(t, p, ",") && k.end == p + 1)
            && (k.kind == NameSeparator ==> Reads(t, p, ":") && k.end == p + 1)
  {
    hide NumberEnd, StringEnd, IsNumber, Literal;
    LiteralKinds(t, p);
    if p < |t| { assert t[p..p + 1] == [t[p]]; }
  }

  lemma LiteralKinds(t: string, p: nat)
    ensures forall word, kind :: Literal(t, p, word, kind).kind == kind || Literal(t, p, word, kind).kind == ParseError
  {
  }

  lemma WordText(t: string, p: nat)
    requires p <= |t|
    ensures var k := Classify(t, p);
            && (k.kind == LiteralNull ==> Reads(t, p, "null") && k.end == p + 4)
            && (k.kind == LiteralTrue ==> Reads(t, p, "true") && k.end == p + 4)
            && (k.kind == LiteralFalse ==> Reads(t, p, "false") && k.end == p + 5)
            && (k.kind == EndOfInput ==> At(t, p) == '\0' && k.end == p + 1)
            && (k.kind == ValueString ==> p < |t| && t[p] == '\"' && k.end == StringEnd(t, p + 1) != -1)
            && (k.kind == ValueNumber ==> p < k.end <= |t| && IsNumber(t[p..k.end]))
            && k.start == p
  {
    hide NumberEnd, StringEnd, IsNumber, Reads;
  }

  /** What the text holds at a token, by its kind. */
  lemma TokenText(t: string, p: nat)
    requires p <= |t| && !IsSpace(At(t, p))
    ensures var k := NextToken(t, p);
            && (k.kind == LiteralNull ==> Reads(t, p, "null") && k.end == p + 4)
            && (k.kind == LiteralTrue ==> Reads(t, p, "true") && k.end == p + 4)
            && (k.kind == LiteralFalse ==> Reads(t, p, "false") && k.end == p + 5)
            && (k.kind == BeginArray ==> Reads(t, p, "[") && k.end == p + 1)
            && (k.kind == EndArray ==> Reads(t, p, "]") && k.end == p + 1)
            && (k.kind == BeginObject ==> Reads(t, p, "{") && k.end == p + 1)
            && (k.kind == EndObject ==> Reads(t, p, "}") && k.end == p + 1)
            && (k.kind == ValueSeparator ==> Reads(t, p, ",") && k.end == p + 1)
            && (k.kind == NameSeparator ==> Reads(t, p, ":") && k.end == p + 1)
            && (k.kind == EndOfInput ==> At(t, p) == '\0' && k.end == p + 1)
            && (k.kind == ValueString ==> p < |t| && t[p] == '\"' && k.end == StringEnd(t, p + 1) != -1)
            && (k.kind == ValueNumber ==> p < k.end <= |t| && IsNumber(t[p..k.end]))
            && k.start == p
  {
    hide Classify, Reads, IsNumber, StringEnd;
    TokenHere(t, p);
    SignText(t, p);
    WordText(t, p);
  }

  /** Every value accepted at a token is a document written there. */
  lemma {:induction false} ParsedIsWritten(t: string, p: nat) returns (d: Doc)
    requires p <= |t| && !IsSpace(At(t, p)) && ParseValue(t, NextToken(t, p)).Parsed?
    ensures Good(d) && Reads(t, p, Write(d)) && Write(d) != ""
    ensures ParseValue(t, NextToken(t, p)) == Parsed(Meaning(d), NextToken(t, p + |Write(d)|))
    decreases |t| - p, 1
  {
    hide *;
    TokenText(t, p);
    var k := NextToken(t, p);
    if k.kind == LiteralNull || k.kind == LiteralTrue || k.kind == LiteralFalse {
      d := WordWritten(t, p);
    } else if k.kind == ValueString {
      d := TextWritten(t, p);
    } else if k.kind == ValueNumber {
      d := NumberWritten(t, p);
    } else if k.kind == BeginArray {
      d := ListWritten(t, p);
    } else {
      OtherKinds(t, k);
      d := RecordWritten(t, p);
    }
  }

  lemma OtherKinds(t: string, k: Token)
    requires GoodToken(t, k) && ParseValue(t, k).Parsed?
    ensures k.kind == LiteralNull || k.kind == LiteralTrue || k.kind == LiteralFalse || k.kind == ValueString
            || k.kind == ValueNumber || k.kind == BeginArray || k.kind == BeginObject
  {
    hide NextToken;
  }

  lemma WordWritten(t: string, p: nat) returns (d: Doc)
    requires p <= |t| && !IsSpace(At(t, p))
    requires var k := NextToken(t, p).kind; k == LiteralNull || k == LiteralTrue || k == LiteralFalse
    ensures Good(d) && Reads(t, p, Write(d)) && Write(d) != ""
    ensures ParseValue(t, NextToken(t, p)) == Parsed(Meaning(d), NextToken(t, p + |Write(d)|))
  {
    hide NextToken, Reads;
    TokenText(t, p);
    var k := NextToken(t, p).kind;
    d := Word(if k == LiteralNull then "null" else if k == LiteralTrue then "true" else "false");
    WordReads(t, p, d);
  }

  lemma TextWritten(t: string, p: nat) returns (d: Doc)
    requires p <= |t| && !IsSpace(At(t, p))
    requires NextToken(t, p).kind == ValueString && ParseValue(t, NextToken(t, p)).Parsed?
    ensures Good(d) && Reads(t, p, Write(d)) && Write(d) != ""
    ensures ParseValue(t, NextToken(t, p)) == Parsed(Meaning(d), NextToken(t, p + |Write(d)|))
  {
    hide NextToken, Reads, StringEnd, Unescape, GoodPieces, Spell, AllBytes;
    TokenText(t, p);
    var pieces := TextIsSpelled(t, p);
    d := Text(pieces);
    TextDocReads(t, p, d);
  }

  lemma NumberValue(t: string, p: nat, k: Token, d: Doc)
    requires GoodToken(t, k) && k.kind == ValueNumber && k.start == p && p < k.end <= |t|
    requires d == Number(t[p..k.end]) && IsNumber(t[p..k.end]) && ParseValue(t, k).Parsed?
    ensures Good(d) && Write(d) == t[p..k.end] && Reads(t, p, Write(d)) && p + |Write(d)| == k.end
    ensures ParseValue(t, k) == Parsed(Meaning(d), NextToken(t, p + |Write(d)|))
  {
    hide NextToken, IsNumber, ConvertsExactly, IsWhole, WholeValue, IsInt64;
  }

  lemma NumberWritten(t: string, p: nat) returns (d: Doc)
    requires p <= |t| && !IsSpace(At(t, p))
    requires NextToken(t, p).kind == ValueNumber && ParseValue(t, NextToken(t, p)).Parsed?
    ensures Good(d) && Reads(t, p, Write(d)) && Write(d) != ""
    ensures ParseValue(t, NextToken(t, p)) == Parsed(Meaning(d), NextToken(t, p + |Write(d)|))
  {
    hide *;
    TokenText(t, p);
    var k := NextToken(t, p);
    d := Number(t[p..k.end]);
    NumberValue(t, p, k, d);
  }

  lemma ListWritten(t: string, p: nat) returns (d: Doc)
    requires p <= |t| && !IsSpace(At(t, p))
    requires NextToken(t, p).kind == BeginArray && ParseValue(t, NextToken(t, p)).Parsed?
    ensures Good(d) && Reads(t, p, Write(d)) && Write(d) != ""
    ensures ParseValue(t, NextToken(t, p)) == Parsed(Meaning(d), NextToken(t, p + |Write(d)|))
    decreases |t| - p, 0
  {
    hide *;
    TokenText(t, p);
    ReadsEnds(t, p, "[");
    OpenCases(t, NextToken(t, p));
    var q := NextStands(t, p + 1);
    TokenText(t, q);
    var blank, items := t[p + 1..q], End;
    if NextToken(t, q).kind == EndArray {
      NoElements(false);
      assert "" + "]" == "]";
      EmptyRow();
    } else {
      items := ItemsAreWritten(t, q, []);
    }
    ReadsJoin(t, p + 1, blank, WriteRow(items, false) + "]");
    ReadsJoin(t, p, "[", blank + (WriteRow(items, false) + "]"));
    d := List(blank, items);
    BracketsText(d);
    ListReads(t, p, d, blank, items);
  }

  lemma OpenCases(t: string, k: Token)
    requires GoodToken(t, k) && ParseValue(t, k).Parsed? && (k.kind == BeginArray || k.kind == BeginObject)
    ensures var k1 := NextToken(t, k.end);
            && (k.kind == BeginArray ==> k1.kind == EndArray || ParseItems(t, k1, []).Parsed?)
            && (k.kind == BeginObject ==> k1.kind == EndObject || ParseMembers(t, k1, []).Parsed?)
  {
    hide NextToken, ParseItems, ParseMembers;
  }

  lemma BracketsText(d: Doc)
    requires d.List? || d.Record?
    ensures d.List? ==> Write(d) == "[" + (d.blank + (WriteRow(d.items, false) + "]")) && Write(d) != ""
    ensures d.Record? ==> Write(d) == "{" + (d.blank + (WriteRow(d.fields, true) + "}")) && Write(d) != ""
    ensures d.List? && Blank(d.blank) && GoodRow(d.items) ==> Good(d)
    ensures d.Record? && Blank(d.blank) && GoodRow(d.fields) ==> Good(d)
  {
    hide WriteRow, GoodRow, Blank;
  }

  lemma EmptyRow()
    ensures GoodRow(End)
  {
  }

  lemma {:induction false} ItemsAreWritten(t: string, p: nat, acc: seq<Value>) returns (r: Row)
    requires p <= |t| && !IsSpace(At(t, p)) && ParseItems(t, NextToken(t, p), acc).Parsed?
    ensures r.Item? && GoodRow(r) && Reads(t, p, WriteRow(r, false) + "]")
    decreases |t| - p, 2
  {
    hide *;
    var k := NextToken(t, p);
    ItemsCases(t, k, acc);
    var d := ParsedIsWritten(t, p);
    var v := ParseValue(t, k);
    var q := p + |Write(d)|;
    ReadsEnds(t, p, Write(d));
    var s := NextStands(t, q);
    TokenText(t, s);
    if v.next.kind == EndArray {
      r := Item([], "", "", d, t[q..s], "", End);
      LastTail(r, false, "]");
    } else {
      ReadsEnds(t, s, ",");
      var n := NextStands(t, s + 1);
      var rest := ItemsAreWritten(t, n, acc + [v.value]);
      r := Item([], "", "", d, t[q..s], t[s + 1..n], rest);
      MoreTail(t, s, r, false, "]");
    }
    ItemIsGood(r);
    ReadsNothing(t, p);
    RowStands(t, p, "", r, false, "]");
  }

  lemma ItemsCases(t: string, k: Token, acc: seq<Value>)
    requires GoodToken(t, k) && ParseItems(t, k, acc).Parsed?
    ensures var v := ParseValue(t, k);
            && v.Parsed? && (v.next.kind == ValueSeparator || v.next.kind == EndArray)
            && (v.next.kind == ValueSeparator ==>
                  v.next.end <= |t| && ParseItems(t, NextToken(t, v.next.end), acc + [v.value]).Parsed?)
  {
    hide NextToken, ParseValue;
  }

  lemma ReadsNothing(t: string, p: nat)
    requires p <= |t|
    ensures Reads(t, p, "")
  {
  }

  lemma ItemIsGood(r: Row)
    requires r.Item? && Blank(r.colon1) && Blank(r.colon2) && Blank(r.after) && Blank(r.gap) && Good(r.value)
    requires GoodPieces(r.key) && GoodRow(r.rest)
    ensures GoodRow(r)
  {
    hide Good, Blank, GoodPieces;
  }

  /** A row whose parts stand one after the other stands there. */
  lemma RowStands(t: string, p: nat, key: string, r: Row, keyed: bool, ket: string)
    requires r.Item? && key == if keyed then WriteKey(r) else ""
    requires Reads(t, p, key) && Reads(t, p + |key|, Write(r.value))
    requires Reads(t, p + |key| + |Write(r.value)|, r.after)
    requires Reads(t, p + |key| + |Write(r.value)| + |r.after|, Tail(r, keyed, ket))
    ensures Reads(t, p, WriteRow(r, keyed) + ket)
  {
    hide Reads, Write, WriteKey, Tail, WriteRow;
    RowText(r, keyed, ket);
    var w, more := Write(r.value), Tail(r, keyed, ket);
    ReadsJoin(t, p + |key| + |w|, r.after, more);
    ReadsJoin(t, p + |key|, w, r.after + more);
    ReadsJoin(t, p, key, w + (r.after + more));
  }

  lemma LastTail(r: Row, keyed: bool, ket: string)
    requires r.Item? && r.rest.End?
    ensures Tail(r, keyed, ket) == ket && GoodRow(r.rest) && Blank("") && GoodPieces([])
  {
  }

  lemma MoreTail(t: string, s: nat, r: Row, keyed: bool, ket: string)
    requires r.Item? && r.rest.Item? && Reads(t, s, ",") && Reads(t, s + 1, r.gap)
    requires Reads(t, s + 1 + |r.gap|, WriteRow(r.rest, keyed) + ket)
    ensures Reads(t, s, Tail(r, keyed, ket)) && Blank("") && GoodPieces([])
  {
    hide Reads, WriteRow;
    ReadsJoin(t, s + 1, r.gap, WriteRow(r.rest, keyed) + ket);
    ReadsJoin(t, s, ",", r.gap + (WriteRow(r.rest, keyed) + ket));
  }

  lemma RecordWritten(t: string, p: nat) returns (d: Doc)
    requires p <= |t| && !IsSpace(At(t, p))
    requires NextToken(t, p).kind == BeginObject && ParseValue(t, NextToken(t, p)).Parsed?
    ensures Good(d) && Reads(t, p, Write(d)) && Write(d) != ""
    ensures ParseValue(t, NextToken(t, p)) == Parsed(Meaning(d), NextToken(t, p + |Write(d)|))
    decreases |t| - p, 0
  {
    hide *;
    TokenText(t, p);
    ReadsEnds(t, p, "{");
    OpenCases(t, NextToken(t, p));
    var q := NextStands(t, p + 1);
    TokenText(t, q);
    var blank, fields := t[p + 1..q], End;
    if NextToken(t, q).kind == EndObject {
      NoElements(true);
      assert "" + "}" == "}";
      EmptyRow();
    } else {
      fields := MembersAreWritten(t, q, []);
    }
    ReadsJoin(t, p + 1, blank, WriteRow(fields, true) + "}");
    ReadsJoin(t, p, "{", blank + (WriteRow(fields, true) + "}"));
    d := Record(blank, fields);
    BracketsText(d);
    RecordReads(t, p, d, blank, fields);
  }

  lemma {:induction false} MembersAreWritten(t: string, p: nat, acc: seq<Member>) returns (r: Row)
    requires p <= |t| && !IsSpace(At(t, p)) && ParseMembers(t, NextToken(t, p), acc).Parsed?
    ensures r.Item? && GoodRow(r) && Reads(t, p, WriteRow(r, true) + "}")
    decreases |t| - p, 2
  {
    hide *;
    var k := NextToken(t, p);
    MembersCases(t, k, acc);
    var m := ParsePair(t, k);
    var n, key, colon1, colon2 := KeyWritten(t, p);
    var d := ParsedIsWritten(t, n);
    var q := n + |Write(d)|;
    ReadsEnds(t, n, Write(d));
    var s := NextStands(t, q);
    TokenText(t, s);
    if m.next.kind == EndObject {
      r := Item(key, colon1, colon2, d, t[q..s], "", End);
      LastTail(r, true, "}");
    } else {
      ReadsEnds(t, s, ",");
      var n2 := NextStands(t, s + 1);
      var rest := MembersAreWritten(t, n2, Insert(acc, m.key, m.value));
      r := Item(key, colon1, colon2, d, t[q..s], t[s + 1..n2], rest);
      MoreTail(t, s, r, true, "}");
    }
    ItemIsGood(r);
    RowStands(t, p, WriteKey(r), r, true, "}");
  }

  lemma MembersCases(t: string, k: Token, acc: seq<Member>)
    requires GoodToken(t, k) && ParseMembers(t, k, acc).Parsed?
    ensures var m := ParsePair(t, k);
            && m.Pair? && (m.next.kind == ValueSeparator || m.next.kind == EndObject)
            && (m.next.kind == ValueSeparator ==>
                  m.next.end <= |t| && ParseMembers(t, NextToken(t, m.next.end), Insert(acc, m.key, m.value)).Parsed?)
  {
    hide NextToken, ParsePair, Insert;
  }

  lemma PairCases(t: string, k: Token)
    requires GoodToken(t, k) && ParsePair(t, k).Pair?
    ensures k.kind == ValueString && Unescape(t, k.start + 1, k.end - 1).Decoded?
    ensures var colon := NextToken(t, k.end);
            && colon.kind == NameSeparator
            && var v := ParseValue(t, NextToken(t, colon.end));
               v.Parsed? && ParsePair(t, k).next == v.next
  {
    hide NextToken, ParseValue, Unescape;
  }

  /** The key, the colon and the white space around it, up to where the value stands. */
  lemma KeyWritten(t: string, p: nat) returns (n: nat, key: seq<Piece>, colon1: string, colon2: string)
    requires p <= |t| && !IsSpace(At(t, p)) && ParsePair(t, NextToken(t, p)).Pair?
    ensures GoodPieces(key) && Blank(colon1) && Blank(colon2) && p < n <= |t| && !IsSpace(At(t, n))
    ensures forall r: Row :: r.Item? && r.key == key && r.colon1 == colon1 && r.colon2 == colon2 ==>
              Reads(t, p, WriteKey(r)) && n == p + |WriteKey(r)|
    ensures var v := ParseValue(t, NextToken(t, n)); v.Parsed? && ParsePair(t, NextToken(t, p)).next == v.next
  {
    hide *;
    PairCases(t, NextToken(t, p));
    TokenText(t, p);
    key := TextIsSpelled(t, p);
    var q := p + |Quoted(key)|;
    ReadsEnds(t, p, Quoted(key));
    var c := NextStands(t, q);
    TokenText(t, c);
    ReadsEnds(t, c, ":");
    n := NextStands(t, c + 1);
    colon1, colon2 := t[q..c], t[c + 1..n];
    KeyText(t, p, key, colon1, colon2);
    QuotedIs(key);
  }

  lemma KeyText(t: string, p: nat, key: seq<Piece>, colon1: string, colon2: string)
    requires Reads(t, p, Quoted(key)) && Reads(t, p + |Quoted(key)|, colon1)
    requires var c := p + |Quoted(key)| + |colon1|; Reads(t, c, ":") && Reads(t, c + 1, colon2)
    ensures forall r: Row :: r.Item? && r.key == key && r.colon1 == colon1 && r.colon2 == colon2 ==>
              Reads(t, p, WriteKey(r)) && |WriteKey(r)| == |Quoted(key)| + |colon1| + 1 + |colon2|
  {
    hide Reads, Quoted;
    var c := p + |Quoted(key)| + |colon1|;
    ReadsJoin(t, c, ":", colon2);
    ReadsJoin(t, p + |Quoted(key)|, colon1, ":" + colon2);
    ReadsJoin(t, p, Quoted(key), colon1 + (":" + colon2));
  }

  // ---- the parser decides the grammar --------------------------------------

  /** The text is the document with white space around it, up to its end or its first null character. */
  ghost predicate IsTextOf(t: string, lead: string, d: Doc, trail: string) {
    && Blank(lead) && Good(d) && Blank(trail)
    && Reads(t, 0, lead + (Write(d) + trail)) && At(t, |lead + (Write(d) + trail)|) == '\0'
  }

  /** The parser accepts a text with a value exactly when it is written by the grammar with that meaning. */
  lemma AcceptsExactly(t: string, v: Value)
    ensures ParseText(t) == Accepted(v)
       <==> exists lead, d, trail :: IsTextOf(t, lead, d, trail) && Meaning(d) == v
  {
    if ParseText(t) == Accepted(v) {
      var lead, d, trail := AcceptedIsText(t);
    }
    forall lead, d, trail | IsTextOf(t, lead, d, trail)
      ensures ParseText(t) == Accepted(Meaning(d))
    {
      TextIsAccepted(t, lead, d, trail);
    }
  }

  /** A text has at most one meaning, however it is read as a document. */
  lemma MeaningIsUnique(t: string, lead: string, d: Doc, trail: string, lead2: string, d2: Doc, trail2: string)
    requires IsTextOf(t, lead, d, trail) && IsTextOf(t, lead2, d2, trail2)
    ensures Meaning(d) == Meaning(d2)
  {
    TextIsAccepted(t, lead, d, trail);
    TextIsAccepted(t, lead2, d2, trail2);
  }

  lemma TextIsAccepted(t: string, lead: string, d: Doc, trail: string)
    requires IsTextOf(t, lead, d, trail)
    ensures ParseText(t) == Accepted(Meaning(d))
  {
    hide NextToken, Reads, Good, Write, Meaning, Blank, GoodToken, ParseValue;
    ReadsSplit(t, 0, lead, Write(d) + trail);
    ReadsSplit(t, |lead|, Write(d), trail);
    BlankSkipped(t, 0, lead);
    var q := |lead| + |Write(d)|;
    StopsAtEnd(t, q, trail);
    DocReads(t, |lead|, d);
    BlankSkipped(t, q, trail);
    EndToken(t, q + |trail|);
  }

  lemma StopsAtEnd(t: string, q: nat, trail: string)
    requires Reads(t, q, trail) && Blank(trail) && At(t, q + |trail|) == '\0'
    ensures Stops(t, q)
  {
    if trail != "" { ReadsAt(t, q, trail, 0); }
  }

  lemma EndToken(t: string, p: nat)
    requires p <= |t| && At(t, p) == '\0'
    ensures NextToken(t, p).kind == EndOfInput
  {
    TokenHere(t, p);
  }

  lemma AcceptedIsText(t: string) returns (lead: string, d: Doc, trail: string)
    requires ParseText(t).Accepted?
    ensures IsTextOf(t, lead, d, trail) && ParseText(t) == Accepted(Meaning(d))
  {
    hide NextToken, Reads, Good, Write, Meaning, Blank, GoodToken, ParseValue, IsSpace;
    var p := NextStands(t, 0);
    d := ParsedIsWritten(t, p);
    ReadsEnds(t, p, Write(d));
    var q := p + |Write(d)|;
    var n := NextStands(t, q);
    TokenText(t, n);
    lead, trail := t[0..p], t[q..n];
    ReadsJoin(t, p, Write(d), trail);
    ReadsJoin(t, 0, lead, Write(d) + trail);
  }

  // ---- what a string comes to ----------------------------------------------

  /** A text that is one string. */
  lemma StringText(pieces: seq<Piece>)
    requires GoodPieces(pieces)
    ensures ParseText(Quoted(pieces)) == Accepted(String(AllBytes(pieces)))
  {
    hide GoodFrom, BytesFrom, ParseText, Quoted;
    var t, d := Quoted(pieces), Text(pieces);
    assert t + "" == t && "" + t == t && t[0..|t|] == t;
    TextIsAccepted(t, "", d, "");
  }

  lemma PieceText(x: Piece)
    requires GoodPiece(x, false)
    ensures ParseText(Quoted([x])) == Accepted(String(Bytes(x, false)))
  {
    hide GoodPiece, Bytes, ParseText, Quoted;
    assert [x][1..] == [] && Bytes(x, false) + "" == Bytes(x, false);
    assert GoodFrom([x][1..], x.Pair16?) && BytesFrom([x][1..], x.Pair16?) == "";
    StringText([x]);
  }

  function Digit(n: nat, upper: bool): char
    requires n < 16
  {
    if upper then "0123456789ABCDEF"[n] else "0123456789abcdef"[n]
  }

  /** The four digits of c, each in either case. */
  function Digits(c: nat, upper: nat -> bool): (s: string)
    requires c < 0x1_0000
    ensures |s| == 4
  {
    [Digit(c / 4096, upper(0)), Digit(c / 256 % 16, upper(1)), Digit(c / 16 % 16, upper(2)), Digit(c % 16, upper(3))]
  }

  lemma DigitReads(n: nat, upper: bool)
    requires n < 16
    ensures IsHexDigit(Digit(n, upper)) && HexDigitValue(Digit(n, upper)) == n
  {
  }

  lemma DigitsRead(c: nat, upper: nat -> bool)
    requires c < 0x1_0000
    ensures FourDigitsOf(Digits(c, upper)) && HexNumber(Digits(c, upper)) == c
  {
    hide Digit, IsHexDigit, HexDigitValue;
    DigitReads(c / 4096, upper(0));
    DigitReads(c / 256 % 16, upper(1));
    DigitReads(c / 16 % 16, upper(2));
    DigitReads(c % 16, upper(3));
    Places(c);
  }

  lemma Places(c: nat)
    ensures ((c / 4096 * 16 + c / 256 % 16) * 16 + c / 16 % 16) * 16 + c % 16 == c
  {
    assert c / 256 / 16 == c / 4096 && c / 16 / 16 == c / 256;
    assert c / 4096 * 16 + c / 256 % 16 == c / 256;
    assert c / 256 * 16 + c / 16 % 16 == c / 16;
  }

  /** The string "\uXXXX" is read as the UTF-8 form of that one code point. */
  lemma EscapedCodePoint(c: nat, upper: nat -> bool)
    requires c < 0x1_0000 && !IsHigh(c)
    ensures var r := ParseText("\"" + ((['\\', 'u'] + Digits(c, upper)) + "\""));
            r.Accepted? && r.value.String? && Decode(r.value.s) == Some([c])
  {
    hide ParseText, Digits, ToUnicode, HexNumber, Decode;
    DigitsRead(c, upper);
    var x := Hex(Digits(c, upper));
    PieceText(x);
    SpelledAlone(x);
    ToUnicodeIsWhole(c);
  }

  /** And a surrogate pair as that of the code point it stands for. */
  lemma EscapedPair(c: nat, upper: nat -> bool)
    requires 0x1_0000 <= c <= 0x10_FFFF
    ensures var high, low := 0xD800 + (c - 0x1_0000) / 0x400, 0xDC00 + (c - 0x1_0000) % 0x400;
            var pair := (['\\', 'u'] + Digits(high, upper)) + (['\\', 'u'] + Digits(low, upper));
            var r := ParseText("\"" + (pair + "\""));
            r.Accepted? && r.value.String? && Decode(r.value.s) == Some([c])
  {
    hide ParseText, Digits, ToUnicode, HexNumber, Decode, Astral;
    var high, low := 0xD800 + (c - 0x1_0000) / 0x400, 0xDC00 + (c - 0x1_0000) % 0x400;
    DigitsRead(high, upper);
    DigitsRead(low, upper);
    var x := Pair16(Digits(high, upper), Digits(low, upper));
    PieceText(x);
    SpelledAlone(x);
    AstralIs(high, low);
    ToUnicodeIsWhole(c);
  }

  /** The letters of section 7 of RFC 7159, in the order of its list. */
  lemma EscapedLetters(i: nat)
    requires i < 8
    ensures ParseText("\"" + (['\\', "\"\\/bfnrt"[i]] + "\""))
         == Accepted(String(["\U{22}\U{5C}\U{2F}\U{8}\U{C}\U{A}\U{D}\U{9}"[i]]))
  {
    hide ParseText;
    var x := Letter("\"\\/bfnrt"[i]);
    PieceText(x);
    SpelledAlone(x);
  }

  lemma SpelledAlone(x: Piece)
    ensures Quoted([x]) == "\"" + (SpellPiece(x) + "\"")
  {
    hide SpellPiece;
    assert [x][1..] == [] && Spell([x]) == SpellPiece(x) + "" == SpellPiece(x);
  }

  // ---- text behind a surrogate pair ----------------------------------------

  /** What the pieces stand for by section 7 of RFC 7159, wherever they are. */
  function Meant(pieces: seq<Piece>): string
    requires forall i :: 0 <= i < |pieces| ==> GoodPiece(pieces[i], false)
  {
    if pieces == [] then "" else Bytes(pieces[0], false) + Meant(pieces[1..])
  }

  lemma {:induction false} MeantWithoutPairs(pieces: seq<Piece>)
    requires forall i :: 0 <= i < |pieces| ==> GoodPiece(pieces[i], false) && !pieces[i].Pair16?
    ensures GoodFrom(pieces, false) && BytesFrom(pieces, false) == Meant(pieces)
  {
    if pieces != [] { MeantWithoutPairs(pieces[1..]); }
  }

  lemma {:induction false} BeforePair(before: seq<Piece>, rest: seq<Piece>)
    requires forall i :: 0 <= i < |before| ==> GoodPiece(before[i], false) && !before[i].Pair16?
    requires GoodFrom(rest, false) && forall i :: 0 <= i < |rest| ==> GoodPiece(rest[i], false)
    ensures GoodFrom(before + rest, false)
    ensures BytesFrom(before + rest, false) == Meant(before) + BytesFrom(rest, false)
    ensures Meant(before + rest) == Meant(before) + Meant(rest)
  {
    assert forall i :: 0 <= i < |before| ==> !before[i].Torn?;
    hide Bytes, GoodPiece;
    if before == [] {
      assert before + rest == rest;
    } else {
      assert (before + rest)[1..] == before[1..] + rest;
      BeforePair(before[1..], rest);
    }
  }

  /** With one pair in the string: it is read as meant exactly when the string ends behind the pair, or an
    escaped quote or slash follows. */
  lemma ReadAsMeantExactly(before: seq<Piece>, pair: Piece, after: seq<Piece>)
    requires forall i :: 0 <= i < |before| ==> GoodPiece(before[i], false) && !before[i].Pair16?
    requires GoodPiece(pair, false) && pair.Pair16? && GoodFrom(after, true)
    requires forall i :: 0 <= i < |after| ==> GoodPiece(after[i], false) && !after[i].Pair16?
    ensures var s := before + ([pair] + after);
            && GoodPieces(s) && (forall i :: 0 <= i < |s| ==> GoodPiece(s[i], false))
            && (ParseText(Quoted(s)) == Accepted(String(Meant(s)))
                <==> after == [] || after[0] == Letter('\"') || after[0] == Letter('/'))
  {
    hide Bytes, GoodPiece, Meant, BytesFrom, ParseText, Quoted;
    var rest := [pair] + after;
    assert rest[1..] == after;
    BeforePair(before, rest);
    PairThenText(pair, after);
    StringText(before + rest);
    SameBack(Meant(before), BytesFrom(rest, false), Meant(rest));
  }

  lemma SameBack(m: string, x: string, y: string)
    ensures m + x == m + y <==> x == y
  {
    if m + x == m + y {
      assert (m + x)[|m|..] == x && (m + y)[|m|..] == y;
    }
  }

  lemma PairThenText(pair: Piece, after: seq<Piece>)
    requires GoodPiece(pair, false) && pair.Pair16? && GoodFrom(after, true)
    requires forall i :: 0 <= i < |after| ==> GoodPiece(after[i], false) && !after[i].Pair16?
    ensures GoodFrom([pair] + after, false)
    ensures forall i :: 0 <= i < |[pair] + after| ==> GoodPiece(([pair] + after)[i], false)
    ensures BytesFrom([pair] + after, false) == Meant([pair] + after)
       <==> (after == [] || after[0] == Letter('\"') || after[0] == Letter('/'))
  {
    hide GoodPiece, ToUnicode, Bytes;
    var rest, b := [pair] + after, Bytes(pair, false);
    assert rest[1..] == after;
    assert BytesFrom(rest, false) == b + BytesFrom(after, true) && Meant(rest) == b + Meant(after);
    assert BytesFrom(rest, false)[|b|..] == BytesFrom(after, true) && Meant(rest)[|b|..] == Meant(after);
    if after != [] {
      MeantWithoutPairs(after[1..]);
      CutPieceDiffers(after[0]);
      var m := Meant(after[1..]);
      var x, y := Bytes(after[0], true), Bytes(after[0], false);
      assert BytesFrom(after, true) == x + m && Meant(after) == y + m;
      SameFront(x, y, m);
      assert BytesFrom(after, true) == Meant(after) <==> after[0] == Letter('\"') || after[0] == Letter('/');
    } else {
      assert BytesFrom(after, true) == Meant(after);
    }
    assert BytesFrom(rest, false) == Meant(rest) <==> BytesFrom(after, true) == Meant(after);
  }

  lemma SameFront(x: string, y: string, m: string)
    ensures x + m == y + m <==> x == y
  {
    if x + m == y + m {
      assert |x| == |y| && (x + m)[..|x|] == x && (y + m)[..|y|] == y;
    }
  }

  lemma CutPieceDiffers(x: Piece)
    requires GoodPiece(x, true) && GoodPiece(x, false)
    ensures Bytes(x, true) == Bytes(x, false) <==> x == Letter('\"') || x == Letter('/')
  {
    hide HexNumber, IsHexDigit;
  }

  /** A letter behind a pair is lost, and accepted all the same. */
  lemma LetterLost()
    ensures var clef := ['\\', 'u', 'd', '8', '3', '4', '\\', 'u', 'd', 'd', '1', 'e'];
            ParseText("\"" + ((clef + "x") + "\"")) == ParseText("\"" + (clef + "\""))
  {
    hide ParseText, Bytes, GoodPiece;
    var p := Clef();
    var x := Raw('x');
    TwoPieces(p, x);
    StringText([p]);
    StringText([p, x]);
    SpelledAlone(p);
  }

  lemma Clef() returns (p: Piece)
    ensures p.Pair16? && GoodPiece(p, false) && GoodPiece(Raw('x'), true) && Bytes(Raw('x'), true) == ""
    ensures SpellPiece(p) == ['\\', 'u', 'd', '8', '3', '4', '\\', 'u', 'd', 'd', '1', 'e']
  {
    p := Pair16("d834", "dd1e");
    assert HexNumber("d834") == 0xD834 && HexNumber("dd1e") == 0xDD1E;
  }

  lemma TwoPieces(p: Piece, x: Piece)
    requires p.Pair16? && GoodPiece(p, false) && GoodPiece(x, true)
    ensures GoodPieces([p]) && GoodPieces([p, x])
    ensures AllBytes([p]) == Bytes(p, false) && AllBytes([p, x]) == Bytes(p, false) + Bytes(x, true)
    ensures Quoted([p, x]) == "\"" + ((SpellPiece(p) + SpellPiece(x)) + "\"")
  {
    hide Bytes, GoodPiece, SpellPiece;
    assert [p, x][1..] == [x] && [x][1..] == [] && [p][1..] == [];
    assert GoodFrom([], true) && BytesFrom([], true) == "" && GoodFrom([], false) && BytesFrom([], false) == "";
    assert GoodFrom([x], true) && BytesFrom([x], true) == Bytes(x, true);
    assert Spell([x]) == SpellPiece(x);
  }
}
