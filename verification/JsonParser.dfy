/** The LL(1) parser of dev/svr/3rd/json.hpp, without a callback. */
module JsonParser {
  import opened Common
  import opened JsonText
  import opened JsonLexer

  /** Rejected stands for the exceptions expect, unexpect and the number check throw. */
  datatype Outcome = Parsed(value: Value, next: Token) | Rejected

  /** result[key] = value on a map kept in key order. */
  function Insert(ms: seq<Member>, key: string, value: Value): seq<Member> {
    if ms == [] then [Member(key, value)]
    else if ms[0].key == key then [Member(key, value)] + ms[1..]
    else if KeyLess(key, ms[0].key) then [Member(key, value)] + ms
    else [ms[0]] + Insert(ms[1..], key, value)
  }

  /** get_number and the integer test on a number token. */
  function NumberOf(t: string, k: Token): (v: Value)
    requires k.start <= k.end <= |t|
  {
    var literal := t[k.start..k.end];
    if IsWhole(literal) && IsInt64(WholeValue(literal)) then Integer(WholeValue(literal)) else Float(literal)
  }

  // ---- the grammar the parser decides --------------------------------------

  ghost function ParseValue(t: string, k: Token): (r: Outcome)
    requires GoodToken(t, k)
    ensures r.Parsed? ==> GoodToken(t, r.next) && k.end < r.next.end
    decreases |t| + 1 - k.end, 0
  {
    match k.kind
    case LiteralNull => Parsed(Null, NextToken(t, k.end))
    case LiteralTrue => Parsed(Boolean(true), NextToken(t, k.end))
    case LiteralFalse => Parsed(Boolean(false), NextToken(t, k.end))
    case ValueString =>
      var d := Unescape(t, k.start + 1, k.end - 1);
      if d.BadEscape? then Rejected else Parsed(String(d.s), NextToken(t, k.end))
    case ValueNumber =>
      if ConvertsExactly(t, k.start, k.end) then Parsed(NumberOf(t, k), NextToken(t, k.end)) else Rejected
    case BeginArray =>
      var k1 := NextToken(t, k.end);
      if k1.kind == EndArray then Parsed(Array([]), NextToken(t, k1.end))
      else if k1.kind == ValueSeparator then Rejected
      else ParseItems(t, k1, [])
    case BeginObject =>
      var k1 := NextToken(t, k.end);
      if k1.kind == EndObject then Parsed(Object([]), NextToken(t, k1.end))
      else if k1.kind == ValueSeparator then Rejected
      else ParseMembers(t, k1, [])
    case _ => Rejected
  }

  /** Elements from token k on, after those in acc, up to the closing bracket. */
  ghost function ParseItems(t: string, k: Token, acc: seq<Value>): (r: Outcome)
    requires GoodToken(t, k)
    ensures r.Parsed? ==> GoodToken(t, r.next) && k.end < r.next.end
    decreases |t| + 1 - k.end, 1
  {
    var v := ParseValue(t, k);
    if v.Rejected? then Rejected
    else if v.next.kind == ValueSeparator then ParseItems(t, NextToken(t, v.next.end), acc + [v.value])
    else if v.next.kind == EndArray then Parsed(Array(acc + [v.value]), NextToken(t, v.next.end))
    else Rejected
  }

  datatype Pair = Pair(key: string, value: Value, next: Token) | NoPair

  /** One key, colon and value. */
  ghost function ParsePair(t: string, k: Token): (r: Pair)
    requires GoodToken(t, k)
    ensures r.Pair? ==> GoodToken(t, r.next) && k.end < r.next.end
    decreases |t| + 1 - k.end, 1
  {
    if k.kind != ValueString then NoPair
    else
      var key := Unescape(t, k.start + 1, k.end - 1);
      var colon := NextToken(t, k.end);
      if key.BadEscape? || colon.kind != NameSeparator then NoPair
      else
        var v := ParseValue(t, NextToken(t, colon.end));
        if v.Rejected? then NoPair else Pair(key.s, v.value, v.next)
  }

  /** Members from token k on, after those in acc, up to the closing brace. */
  ghost function ParseMembers(t: string, k: Token, acc: seq<Member>): (r: Outcome)
    requires GoodToken(t, k)
    ensures r.Parsed? ==> GoodToken(t, r.next) && k.end < r.next.end
    decreases |t| + 1 - k.end, 2
  {
    var m := ParsePair(t, k);
    if m.NoPair? then Rejected
    else
      var ms := Insert(acc, m.key, m.value);
      if m.next.kind == ValueSeparator then ParseMembers(t, NextToken(t, m.next.end), ms)
      else if m.next.kind == EndObject then Parsed(Object(ms), NextToken(t, m.next.end))
      else Rejected
  }

  datatype Document = Accepted(value: Value) | Refused

  ghost function ParseText(t: string): Document {
    var r := ParseValue(t, NextToken(t, 0));
    if r.Parsed? && r.next.kind == EndOfInput then Accepted(r.value) else Refused
  }

  // ---- the parser as written -----------------------------------------------

  class Parser {
    const lexer: Lexer
    var lastToken: Kind

    ghost function Current(): Token
      reads this, lexer
    {
      Token(lastToken, lexer.start, lexer.cursor)
    }

    ghost predicate Valid()
      reads this, lexer
    {
      GoodToken(lexer.content, Current())
    }

    constructor (s: string)
      ensures lexer.content == s && fresh(lexer)
      ensures Valid() && Current() == NextToken(s, 0)
    {
      lexer := new Lexer(s);
      lastToken := ParseError;
      new;
      lastToken := lexer.Scan();
    }

    method GetToken()
      requires lexer.cursor <= |lexer.content|
      modifies this, lexer
      ensures Valid() && Current() == NextToken(lexer.content, old(lexer.cursor))
    {
      lastToken := lexer.Scan();
    }

    /** parse_internal(true). */
    method ParseInternal() returns (ok: bool, v: Value)
      requires Valid()
      modifies this, lexer
      ensures ok <==> ParseValue(lexer.content, old(Current())).Parsed?
      ensures ok ==> Valid() && Parsed(v, Current()) == ParseValue(lexer.content, old(Current()))
      decreases |lexer.content| + 1 - lexer.cursor, 0
    {
      hide NextToken, GoodToken, ParseItems, ParseMembers, Unescape, ConvertsExactly, NumberOf;
      assert lastToken != EndOfInput ==> lexer.cursor <= |lexer.content| by { TokenInside(lexer.content, Current()); }
      ok, v := true, Null;
      match lastToken {
        case LiteralNull => GetToken();
        case LiteralTrue => v := Boolean(true); GetToken();
        case LiteralFalse => v := Boolean(false); GetToken();
        case ValueString =>
          TokenInside(lexer.content, Current());
          var d := lexer.GetString();
          if d.BadEscape? { return false, v; }
          GetToken();
          v := String(d.s);
        case ValueNumber =>
          TokenInside(lexer.content, Current());
          if !ConvertsExactly(lexer.content, lexer.start, lexer.cursor) { return false, v; }
          v := NumberOf(lexer.content, Token(lastToken, lexer.start, lexer.cursor));
          GetToken();
        case BeginArray =>
          GetToken();
          if lastToken == EndArray {
            TokenInside(lexer.content, Current());
            GetToken();
            v := Array([]);
          } else if lastToken == ValueSeparator {
            ok := false;
          } else {
            ok, v := ParseElements();
          }
        case BeginObject =>
          GetToken();
          if lastToken == EndObject {
            TokenInside(lexer.content, Current());
            GetToken();
            v := Object([]);
          } else if lastToken == ValueSeparator {
            ok := false;
          } else {
            ok, v := ParsePairs();
          }
        case _ => ok := false;
      }
    }

    /** The do-while loop over array elements, and the closing bracket. */
    method ParseElements() returns (ok: bool, v: Value)
      requires Valid() && lastToken != ValueSeparator
      modifies this, lexer
      ensures ok <==> ParseItems(lexer.content, old(Current()), []).Parsed?
      ensures ok ==> Valid() && Parsed(v, Current()) == ParseItems(lexer.content, old(Current()), [])
      decreases |lexer.content| + 1 - lexer.cursor, 1
    {
      hide NextToken, GoodToken, ParseValue;
      ghost var t := lexer.content;
      ghost var whole := ParseItems(t, Current(), []);
      ghost var limit := lexer.cursor;
      var items: seq<Value> := [];
      var more := true;
      while more
        invariant Valid() && limit <= lexer.cursor
        invariant more && items == [] ==> lastToken != ValueSeparator && whole == ParseItems(t, Current(), items)
        invariant more && items != [] ==>
          lastToken == ValueSeparator && lexer.cursor <= |t|
          && whole == ParseItems(t, NextToken(t, lexer.cursor), items)
        invariant !more ==> items != [] && lastToken != ValueSeparator
        invariant !more ==>
          whole == if lastToken == EndArray && lexer.cursor <= |t| then Parsed(Array(items), NextToken(t, lexer.cursor))
                   else Rejected
        decreases more, |t| + 1 - lexer.cursor
      {
        if lastToken == ValueSeparator {
          GetToken();
        }
        ghost var at := Current();
        TokenInside(t, at);
        var e;
        ok, e := ParseInternal();
        if !ok { return false, Null; }
        TokenInside(t, Current());
        items := items + [e];
        more := lastToken == ValueSeparator;
      }
      if lastToken != EndArray { return false, Null; }
      TokenInside(t, Current());
      GetToken();
      ok, v := true, Array(items);
    }

    /** Inside that loop: the key, the colon and the value. */
    method ParseOnePair() returns (ok: bool, key: string, v: Value)
      requires Valid()
      modifies this, lexer
      ensures ok <==> ParsePair(lexer.content, old(Current())).Pair?
      ensures ok ==> Valid() && Pair(key, v, Current()) == ParsePair(lexer.content, old(Current()))
      decreases |lexer.content| + 1 - lexer.cursor, 1
    {
      hide NextToken, GoodToken, ParseValue, Unescape;
      ghost var t := lexer.content;
      if lastToken != ValueString { return false, "", Null; }
      TokenInside(t, Current());
      var d := lexer.GetString();
      if d.BadEscape? { return false, "", Null; }
      key := d.s;
      GetToken();
      if lastToken != NameSeparator { return false, "", Null; }
      TokenInside(t, Current());
      GetToken();
      TokenInside(t, Current());
      ok, v := ParseInternal();
    }

    /** The do-while loop over key-value pairs, and the closing brace. */
    method ParsePairs() returns (ok: bool, v: Value)
      requires Valid() && lastToken != ValueSeparator
      modifies this, lexer
      ensures ok <==> ParseMembers(lexer.content, old(Current()), []).Parsed?
      ensures ok ==> Valid() && Parsed(v, Current()) == ParseMembers(lexer.content, old(Current()), [])
      decreases |lexer.content| + 1 - lexer.cursor, 2
    {
      hide NextToken, GoodToken, ParsePair, Insert;
      ghost var t := lexer.content;
      ghost var whole := ParseMembers(t, Current(), []);
      ghost var limit := lexer.cursor;
      var ms: seq<Member> := [];
      var first, more := true, true;
      while more
        invariant Valid() && limit <= lexer.cursor
        invariant more && first ==> lastToken != ValueSeparator && whole == ParseMembers(t, Current(), ms)
        invariant more && !first ==>
          lastToken == ValueSeparator && lexer.cursor <= |t| && whole == ParseMembers(t, NextToken(t, lexer.cursor), ms)
        invariant !more ==> lastToken != ValueSeparator
        invariant !more ==>
          whole == if lastToken == EndObject && lexer.cursor <= |t| then Parsed(Object(ms), NextToken(t, lexer.cursor))
                   else Rejected
        decreases more, |t| + 1 - lexer.cursor
      {
        if lastToken == ValueSeparator {
          GetToken();
        }
        TokenInside(t, Current());
        var key, e;
        ok, key, e := ParseOnePair();
        if !ok { return false, Null; }
        TokenInside(t, Current());
        ms := Insert(ms, key, e);
        first := false;
        more := lastToken == ValueSeparator;
      }
      if lastToken != EndObject { return false, Null; }
      TokenInside(t, Current());
      GetToken();
      ok, v := true, Object(ms);
    }
  }

  lemma TokenInside(t: string, k: Token)
    requires GoodToken(t, k)
    ensures k.start < k.end <= |t| + 1 && (k.kind != EndOfInput ==> k.end <= |t|)
    ensures k.kind == ValueString ==> StringEnd(t, k.start + 1) == k.end
  {
  }

  /** parse(s): the value of the whole text, or no value for an exception. */
  method Parse(s: string) returns (r: Document)
    ensures r == ParseText(s)
  {
    var parser := new Parser(s);
    var ok, v := parser.ParseInternal();
    if ok && parser.lastToken == EndOfInput {
      r := Accepted(v);
    } else {
      r := Refused;
    }
  }
}
