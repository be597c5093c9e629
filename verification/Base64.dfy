/** Base64 in dev/svr/3rd/mongoose.c: the streaming encoder, the one-shot encoder and the decoder
  (section 4 of RFC 4648).  Bytes are numbers below 256; the two tables are written as the ranges
  they list. */
module Base64 {
  import opened Common

  predicate IsBytes(s: seq<int>) {
    forall k :: 0 <= k < |s| ==> 0 <= s[k] < 256
  }

  /** cs_base64_emit_code, and the table of the one-shot encoder. */
  function Code(v: int): char
    requires 0 <= v < 64
  {
    if v < 26 then (v + 'A' as int) as char
    else if v < 52 then (v - 26 + 'a' as int) as char
    else if v < 62 then (v - 52 + '0' as int) as char
    else if v == 62 then '+'
    else '/'
  }

  /** from_b64: 255 for a character outside the alphabet, 200 for '='; only seven bits are looked at. */
  function FromCode(ch: char): (v: int)
    ensures 0 <= v < 64 || v == 200 || v == 255
  {
    var c := ch as int % 128;
    if 'A' as int <= c <= 'Z' as int then c - 'A' as int
    else if 'a' as int <= c <= 'z' as int then c - 'a' as int + 26
    else if '0' as int <= c <= '9' as int then c - '0' as int + 52
    else if c == '+' as int then 62
    else if c == '/' as int then 63
    else if c == '=' as int then 200
    else 255
  }

  lemma CodeRoundTrip(v: int)
    requires 0 <= v < 64
    ensures FromCode(Code(v)) == v
  {
  }

  /** The four characters of three bytes. */
  function Group(a: int, b: int, c: int): (g: string)
    requires 0 <= a < 256 && 0 <= b < 256 && 0 <= c < 256
    ensures |g| == 4
  {
    [Code(a / 4), Code(a % 4 * 16 + b / 16), Code(b % 16 * 4 + c / 64), Code(c % 64)]
  }

  /** One to three bytes: one character more than bytes, of the group with zeros for those missing. */
  function Chunk(s: seq<int>): (t: string)
    requires IsBytes(s) && 1 <= |s| <= 3
    ensures |t| == |s| + 1
  {
    Group(s[0], if |s| > 1 then s[1] else 0, if |s| > 2 then s[2] else 0)[..|s| + 1]
  }

  function Equals(n: nat): (t: string)
    ensures |t| == n
  {
    if n == 0 then "" else "=" + Equals(n - 1)
  }

  function Encode(s: seq<int>): (t: string)
    requires IsBytes(s)
    ensures |t| % 4 == 0
  {
    if s == [] then ""
    else if |s| < 3 then Chunk(s) + Equals(3 - |s|)
    else Chunk(s[..3]) + Encode(s[3..])
  }

  // ---- decoding ------------------------------------------------------------

  /** What one group of four values decodes to; 200 stands for '='. */
  function Ungroup(a: int, b: int, c: int, d: int): seq<int> {
    if a == 200 || b == 200 then []
    else if c == 200 then [(a * 4 + b / 16) % 256]
    else if d == 200 then [(a * 4 + b / 16) % 256, b % 16 * 16 + c / 4]
    else [(a * 4 + b / 16) % 256, b % 16 * 16 + c / 4, c % 4 * 64 + d]
  }

  predicate InAlphabet(t: string) {
    |t| >= 4 && FromCode(t[0]) != 255 && FromCode(t[1]) != 255 && FromCode(t[2]) != 255 && FromCode(t[3]) != 255
  }

  predicate Padded(t: string)
    requires |t| >= 4
  {
    FromCode(t[0]) == 200 || FromCode(t[1]) == 200 || FromCode(t[2]) == 200 || FromCode(t[3]) == 200
  }

  /** The bytes decoded and the number of characters consumed: whole groups, up to a padded one. */
  function Decode(t: string): (seq<int>, nat) {
    if !InAlphabet(t) then ([], 0)
    else
      var bytes := Ungroup(FromCode(t[0]), FromCode(t[1]), FromCode(t[2]), FromCode(t[3]));
      if Padded(t) then (bytes, 4)
      else
        var rest := Decode(t[4..]);
        (bytes + rest.0, 4 + rest.1)
  }

  lemma GroupRoundTrip(a: int, b: int, c: int)
    requires 0 <= a < 256 && 0 <= b < 256 && 0 <= c < 256
    ensures var g := Group(a, b, c);
            && FromCode(g[0]) == a / 4 && FromCode(g[1]) == a % 4 * 16 + b / 16
            && FromCode(g[2]) == b % 16 * 4 + c / 64 && FromCode(g[3]) == c % 64
    ensures a / 4 * 4 + (a % 4 * 16 + b / 16) / 16 == a
    ensures (a % 4 * 16 + b / 16) % 16 * 16 + (b % 16 * 4 + c / 64) / 4 == b
    ensures (b % 16 * 4 + c / 64) % 4 * 64 + c % 64 == c
  {
    hide Code, FromCode;
    CodeRoundTrip(a / 4);
    CodeRoundTrip(a % 4 * 16 + b / 16);
    CodeRoundTrip(b % 16 * 4 + c / 64);
    CodeRoundTrip(c % 64);
  }

  /** The first group of a text decoded. */
  lemma DecodeFirst(t: string, a: int, b: int, c: int, d: int)
    requires |t| >= 4 && a == FromCode(t[0]) && b == FromCode(t[1]) && c == FromCode(t[2]) && d == FromCode(t[3])
    requires a != 255 && b != 255 && c != 255 && d != 255
    ensures Decode(t) == if a == 200 || b == 200 || c == 200 || d == 200 then (Ungroup(a, b, c, d), 4)
                         else (Ungroup(a, b, c, d) + Decode(t[4..]).0, 4 + Decode(t[4..]).1)
  {
    hide FromCode;
  }

  lemma DecodeChunk(s: seq<int>, rest: string)
    requires IsBytes(s) && 1 <= |s| <= 3
    ensures var t := Chunk(s) + Equals(3 - |s|) + rest;
            Decode(t) == if |s| < 3 then (s, 4) else (s + Decode(rest).0, 4 + Decode(rest).1)
  {
    hide FromCode, Code, Decode;
    var t := Chunk(s) + Equals(3 - |s|) + rest;
    var b, c := if |s| > 1 then s[1] else 0, if |s| > 2 then s[2] else 0;
    GroupRoundTrip(s[0], b, c);
    var g := Group(s[0], b, c);
    EqualsSign();
    assert t[0] == g[0] && t[1] == g[1]
      && t[2] == (if |s| > 1 then g[2] else '=') && t[3] == (if |s| > 2 then g[3] else '=');
    DecodeFirst(t, FromCode(t[0]), FromCode(t[1]), FromCode(t[2]), FromCode(t[3]));
    assert t[4..] == rest;
    assert s == if |s| == 1 then [s[0]] else if |s| == 2 then [s[0], s[1]] else [s[0], s[1], s[2]];
    assert Decode(t) == if |s| < 3 then (Ungroup(FromCode(t[0]), FromCode(t[1]), FromCode(t[2]), FromCode(t[3])), 4)
                        else (Ungroup(FromCode(t[0]), FromCode(t[1]), FromCode(t[2]), FromCode(t[3])) + Decode(rest).0,
                              4 + Decode(rest).1);
  }

  lemma EqualsSign()
    ensures FromCode('=') == 200
  {
  }

  lemma {:induction false} DecodeEncode(s: seq<int>)
    requires IsBytes(s)
    ensures Decode(Encode(s)) == (s, |Encode(s)|)
    decreases |s|
  {
    hide Chunk, Decode;
    if s == [] {
      DecodeNothing();
    } else if |s| < 3 {
      DecodeChunk(s, "");
      assert Chunk(s) + Equals(3 - |s|) + "" == Chunk(s) + Equals(3 - |s|);
    } else {
      DecodeChunk(s[..3], Encode(s[3..]));
      assert Chunk(s[..3]) + Equals(0) + Encode(s[3..]) == Chunk(s[..3]) + Encode(s[3..]);
      DecodeEncode(s[3..]);
      assert s == s[..3] + s[3..];
    }
  }

  lemma DecodeNothing()
    ensures Decode("") == ([], 0)
  {
  }

  /** At s in the text: one more group, or the end. */
  lemma DecodeAt(t: string, s: nat)
    requires s <= |t|
    ensures !InAlphabet(t[s..]) ==> Decode(t[s..]) == ([], 0)
    ensures InAlphabet(t[s..]) ==>
              var a, b, c, d := FromCode(t[s]), FromCode(t[s + 1]), FromCode(t[s + 2]), FromCode(t[s + 3]);
              Decode(t[s..]) == if a == 200 || b == 200 || c == 200 || d == 200 then (Ungroup(a, b, c, d), 4)
                                else (Ungroup(a, b, c, d) + Decode(t[s + 4..]).0, 4 + Decode(t[s + 4..]).1)
  {
    hide FromCode;
    if InAlphabet(t[s..]) { assert t[s..][4..] == t[s + 4..]; }
  }

  /** cs_base64_decode: what is written to dst (before the terminator), and the characters consumed. */
  method DecodeText(t: string) returns (dst: seq<int>, consumed: nat)
    ensures (dst, consumed) == Decode(t)
  {
    hide Decode, FromCode;
    dst := [];
    var s: nat := 0;
    assert t[0..] == t && [] + Decode(t).0 == Decode(t).0;
    while |t| - s >= 4 && FromCode(t[s]) != 255 && FromCode(t[s + 1]) != 255
       && FromCode(t[s + 2]) != 255 && FromCode(t[s + 3]) != 255
      invariant s <= |t|
      invariant Decode(t).0 == dst + Decode(t[s..]).0 && Decode(t).1 == s + Decode(t[s..]).1
      decreases |t| - s
    {
      DecodeAt(t, s);
      var a, b, c, d := FromCode(t[s]), FromCode(t[s + 1]), FromCode(t[s + 2]), FromCode(t[s + 3]);
      ghost var before := dst;
      s := s + 4;
      if a == 200 || b == 200 {
        assert before + [] == before;
        return dst, s;
      }
      dst := dst + [(a * 4 + b / 16) % 256];
      if c == 200 {
        return dst, s;
      }
      dst := dst + [b % 16 * 16 + c / 4];
      if d == 200 {
        assert dst == before + Ungroup(a, b, c, d);
        return dst, s;
      }
      dst := dst + [c % 4 * 64 + d];
      assert dst == before + Ungroup(a, b, c, d);
      assert before + (Ungroup(a, b, c, d) + Decode(t[s..]).0) == dst + Decode(t[s..]).0;
    }
    DecodeAt(t, s);
    assert dst + [] == dst;
    consumed := s;
  }

  // ---- encoding ------------------------------------------------------------

  /** The bytes of s that the group at i covers. */
  function At(s: seq<int>, i: nat): (g: seq<int>)
    requires i < |s|
    ensures 1 <= |g| <= 3
  {
    if i + 3 <= |s| then s[i..i + 3] else s[i..]
  }

  lemma EncodeAt(s: seq<int>, i: nat)
    requires IsBytes(s) && i < |s|
    ensures IsBytes(At(s, i)) && |At(s, i)| == if i + 3 <= |s| then 3 else |s| - i
    ensures i + 3 <= |s| ==> Encode(s[i..]) == Chunk(At(s, i)) + Encode(s[i + 3..])
    ensures i + 3 > |s| ==> Encode(s[i..]) == Chunk(At(s, i)) + Equals(3 - (|s| - i))
  {
    hide Chunk;
    if i + 3 <= |s| { assert s[i..][..3] == s[i..i + 3] && s[i..][3..] == s[i + 3..]; }
  }

  /** One round of cs_base64_encode. */
  method EncodeGroup(src: seq<int>, i: nat, text: string) returns (dst: string)
    requires IsBytes(src) && i < |src|
    ensures dst == text + Chunk(At(src, i))
  {
    hide Code;
    dst := text;
    var a := src[i];
    var b := if i + 1 >= |src| then 0 else src[i + 1];
    var c := if i + 2 >= |src| then 0 else src[i + 2];
    dst := dst + [Code(a / 4)];
    dst := dst + [Code(a % 4 * 16 + b / 16)];
    if i + 1 < |src| {
      dst := dst + [Code(b % 16 * 4 + c / 64)];
    }
    if i + 2 < |src| {
      dst := dst + [Code(c % 64)];
    }
  }

  /** cs_base64_encode, without the terminator. */
  method EncodeBytes(src: seq<int>) returns (dst: string)
    requires IsBytes(src)
    ensures dst == Encode(src)
  {
    hide Encode, Code, Equals, Chunk, At;
    dst := "";
    var i: nat := 0;
    assert src[0..] == src && "" + Encode(src) == Encode(src);
    while i < |src|
      invariant i <= |src| ==> Encode(src) == dst + Encode(src[i..]) && |dst| % 4 == 0
      invariant i > |src| ==> i < |src| + 3 && |dst| % 4 == 4 - (i - |src|) && Encode(src) == dst + Equals(i - |src|)
    {
      EncodeAt(src, i);
      Associates(dst, Chunk(At(src, i)), if i + 3 <= |src| then Encode(src[i + 3..]) else Equals(3 - (|src| - i)));
      dst := EncodeGroup(src, i, dst);
      i := i + 3;
    }
    EncodeNothing();
    assert dst + "" == dst;
    EqualsCases(0);
    dst := PadOut(dst, if i > |src| then i - |src| else 0);
  }

  /** The last loop of cs_base64_encode. */
  method PadOut(text: string, ghost missing: nat) returns (dst: string)
    requires (|text| + missing) % 4 == 0 && missing < 4
    ensures dst == text + Equals(missing)
  {
    hide Equals;
    dst := text;
    ghost var left := missing;
    while |dst| % 4 != 0
      invariant (|dst| + left) % 4 == 0 && left < 4 && text + Equals(missing) == dst + Equals(left)
      decreases left
    {
      EqualsCases(left);
      Associates(dst, "=", Equals(left - 1));
      dst := dst + "=";
      left := left - 1;
    }
    EqualsCases(left);
  }

  lemma EncodeNothing()
    ensures Encode([]) == ""
  {
  }

  lemma EqualsCases(n: nat)
    ensures Equals(n) == if n == 0 then "" else "=" + Equals(n - 1)
  {
  }

  // ---- the streaming encoder -----------------------------------------------

  /** The characters of the whole groups of three in s. */
  function Whole(s: seq<int>): string
    requires IsBytes(s)
  {
    if |s| < 3 then "" else Chunk(s[..3]) + Whole(s[3..])
  }

  function Tail(s: seq<int>): seq<int> {
    s[|s| - |s| % 3..]
  }

  lemma {:induction false} WholeGrows(s: seq<int>, x: int)
    requires IsBytes(s) && 0 <= x < 256
    ensures Whole(s + [x]) == Whole(s) + (if |s| % 3 == 2 then Chunk(Tail(s) + [x]) else "")
    decreases |s|
  {
    hide Chunk, Tail;
    TailIs(s);
    if |s| < 3 {
      FirstGroup(s, x);
    } else {
      assert (s + [x])[..3] == s[..3] && (s + [x])[3..] == s[3..] + [x];
      WholeGrows(s[3..], x);
      Associates(Chunk(s[..3]), Whole(s[3..]), if |s| % 3 == 2 then Chunk(Tail(s) + [x]) else "");
    }
  }

  lemma TailIs(s: seq<int>)
    ensures |Tail(s)| == |s| % 3 && (|s| < 3 ==> Tail(s) == s) && (|s| >= 3 ==> Tail(s[3..]) == Tail(s))
    ensures IsBytes(s) ==> IsBytes(Tail(s))
  {
  }

  lemma FirstGroup(s: seq<int>, x: int)
    requires IsBytes(s) && 0 <= x < 256 && |s| < 3
    ensures IsBytes(s + [x])
    ensures |s| < 2 ==> Whole(s + [x]) == "" == Whole(s)
    ensures |s| == 2 ==> Whole(s + [x]) == Chunk(s + [x]) && Whole(s) == ""
  {
    hide Chunk;
    var t := s + [x];
    if |s| == 2 { assert t[..3] == t && t[3..] == [] && Chunk(t) + "" == Chunk(t); }
  }

  lemma TailGrows(s: seq<int>, x: int)
    ensures Tail(s + [x]) == if |s| % 3 == 2 then [] else Tail(s) + [x]
  {
    var from := |s| - |s| % 3;
    if |s| % 3 != 2 { assert (s + [x])[from..] == s[from..] + [x]; }
  }

  /** The whole groups, then what is left with its padding, are the one-shot code. */
  lemma {:induction false} WholeAndTail(s: seq<int>)
    requires IsBytes(s)
    ensures Encode(s) == Whole(s) + (if Tail(s) == [] then "" else Chunk(Tail(s)) + Equals(3 - |Tail(s)|))
    decreases |s|
  {
    hide Chunk, Equals;
    if |s| >= 3 {
      WholeAndTail(s[3..]);
      assert Tail(s[3..]) == Tail(s);
      Associates(Chunk(s[..3]), Whole(s[3..]), if Tail(s) == [] then "" else Chunk(Tail(s)) + Equals(3 - |Tail(s)|));
    } else {
      assert Tail(s) == s;
    }
  }

  /** cs_base64_ctx; fed is what update was given since init, sent what b64_putc was given. */
  class Context {
    const chunk: array<int>
    var chunkSize: nat
    var sent: string
    ghost var fed: seq<int>

    ghost predicate Valid()
      reads this, chunk
    {
      && chunk.Length == 3 && chunkSize < 3 && IsBytes(fed)
      && chunk[..chunkSize] == Tail(fed) && sent == Whole(fed)
    }

    // cs_base64_init
    constructor ()
      ensures Valid() && fed == [] && sent == "" && fresh(chunk)
    {
      chunk := new int[3];
      chunkSize, sent, fed := 0, "", [];
      new;
      hide *;
      assert chunk[..0] == [];
    }

    /** cs_base64_emit_chunk. */
    method EmitChunk(size: nat)
      requires chunk.Length == 3 && 1 <= size <= 3 && IsBytes(chunk[..])
      requires forall k :: size <= k < 3 ==> chunk[k] == 0
      modifies this`sent
      ensures sent == old(sent) + Chunk(chunk[..size])
    {
      hide Code;
      var a, b, c := chunk[0], chunk[1], chunk[2];
      assert chunk[..][0] == a && chunk[..][1] == b && chunk[..][2] == c;
      sent := sent + [Code(a / 4)];
      sent := sent + [Code(a % 4 * 16 + b / 16)];
      if size > 1 {
        sent := sent + [Code(b % 16 * 4 + c / 64)];
      }
      if size > 2 {
        sent := sent + [Code(c % 64)];
      }
    }

    /** One round of cs_base64_update. */
    method PutByte(x: int)
      requires Valid() && 0 <= x < 256
      modifies this, chunk
      ensures Valid() && fed == old(fed) + [x]
    {
      hide Whole, Chunk, Tail;
      WholeGrows(fed, x);
      TailGrows(fed, x);
      TailSize(fed);
      TailBytes(fed);
      ghost var tail := Tail(fed);
      chunk[chunkSize] := x;
      chunkSize := chunkSize + 1;
      assert chunk[..chunkSize] == tail + [x];
      fed := fed + [x];
      if chunkSize == 3 {
        assert chunk[..] == tail + [x];
        EmitChunk(3);
        chunkSize := 0;
      }
    }

    /** cs_base64_update. */
    method Update(src: seq<int>)
      requires Valid() && IsBytes(src)
      modifies this, chunk
      ensures Valid() && fed == old(fed) + src
    {
      hide Whole, Chunk, Tail;
      var i := 0;
      assert fed + [] == fed;
      while i < |src|
        invariant i <= |src| && Valid() && fed == old(fed) + src[..i]
      {
        assert src[..i + 1] == src[..i] + [src[i]];
        PutByte(src[i]);
        i := i + 1;
      }
      assert src[..i] == src;
    }

    /** cs_base64_finish: however the input was split, what was sent is the one-shot code of all of it. */
    method Finish()
      requires Valid()
      modifies this`sent, chunk
      ensures sent == Encode(fed)
    {
      hide Whole, Chunk, Encode;
      WholeAndTail(fed);
      TailBytes(fed);
      if chunkSize > 0 {
        ghost var tail := Tail(fed);
        var k := chunkSize;
        while k < 3
          invariant sent == Whole(fed) && chunkSize <= k <= 3 && chunk[..chunkSize] == tail
          invariant forall j :: chunkSize <= j < k ==> chunk[j] == 0
        {
          chunk[k] := 0;
          k := k + 1;
        }
        assert IsBytes(chunk[..]) by {
          assert forall j :: 0 <= j < chunkSize ==> chunk[j] == tail[j];
        }
        EmitChunk(chunkSize);
        var i := 0;
        ghost var before := sent;
        while i < 3 - chunkSize
          invariant 0 <= i <= 3 - chunkSize && sent == before + Equals(i)
        {
          EqualsEnd(i);
          Associates(before, Equals(i), "=");
          sent := sent + "=";
          i := i + 1;
        }
        Associates(Whole(fed), Chunk(tail), Equals(i));
      } else {
        assert Whole(fed) + "" == Whole(fed);
      }
    }
  }

  lemma {:induction false} EqualsEnd(n: nat)
    ensures Equals(n + 1) == Equals(n) + "="
  {
    if n == 0 {
      assert Equals(1) == "=" + Equals(0) == "=";
      assert Equals(0) + "=" == "=";
    } else {
      EqualsEnd(n - 1);
      Associates("=", Equals(n - 1), "=");
      assert Equals(n + 1) == "=" + Equals(n);
    }
  }

  lemma TailSize(s: seq<int>)
    ensures |Tail(s)| == |s| % 3
  {
  }

  lemma TailBytes(s: seq<int>)
    requires IsBytes(s)
    ensures IsBytes(Tail(s))
  {
  }

  // ---- the alphabet and the groups by the standard -------------------------

  /** Table 1 of RFC 4648: four runs of neighbours and two signs. */
  lemma AlphabetIs(v: int)
    requires 0 <= v < 64
    ensures Code(0) == 'A' && Code(25) == 'Z' && Code(26) == 'a' && Code(51) == 'z'
    ensures Code(52) == '0' && Code(61) == '9' && Code(62) == '+' && Code(63) == '/'
    ensures v != 25 && v != 51 && v < 61 ==> Code(v + 1) as int == Code(v) as int + 1
  {
  }

  /** Among the seven-bit characters the decoder takes that alphabet, and the pad. */
  lemma DecodedAlphabet(v: int, c: char)
    requires 0 <= v < 64 && c < '\U{80}'
    ensures FromCode(c) == v <==> c == Code(v)
    ensures FromCode(c) == 200 <==> c == '='
  {
  }

  /** Three bytes and four values of six bits are the same 24 bits. */
  lemma GroupIsNumber(a: int, b: int, c: int, d: int)
    requires 0 <= a < 64 && 0 <= b < 64 && 0 <= c < 64 && 0 <= d < 64
    ensures var g := Ungroup(a, b, c, d);
            |g| == 3 && (g[0] * 256 + g[1]) * 256 + g[2] == ((a * 64 + b) * 64 + c) * 64 + d
            && 0 <= g[0] < 256 && 0 <= g[1] < 256 && 0 <= g[2] < 256
    ensures Ungroup(a, b, c, 200) == Ungroup(a, b, c, d)[..2] && Ungroup(a, b, 200, 200) == Ungroup(a, b, c, d)[..1]
  {
    assert (a * 4 + b / 16) % 256 == a * 4 + b / 16;
  }

  /** The test vectors of section 10 of RFC 4648. */
  lemma Foobar()
    ensures Encode([]) == ""
    ensures Encode([102]) == "Zg==" && Encode([102, 111]) == "Zm8=" && Encode([102, 111, 111]) == "Zm9v"
    ensures Encode([102, 111, 111, 98, 97, 114]) == "Zm9vYmFy"
  {
    FoobarChunks();
    hide Chunk, Equals;
    var foo, bar := [102, 111, 111], [98, 97, 114];
    EncodeOne(foo, []);
    EncodeOne(bar, []);
    EncodeOne(foo, bar);
    assert foo + [] == foo && bar + [] == bar && foo + bar == [102, 111, 111, 98, 97, 114];
    assert "Zm9v" + "" == "Zm9v" && "YmFy" + "" == "YmFy" && "Zm9v" + "YmFy" == "Zm9vYmFy";
  }

  lemma EncodeOne(a: seq<int>, b: seq<int>)
    requires |a| == 3 && IsBytes(a) && IsBytes(b)
    ensures IsBytes(a + b) && Encode(a + b) == Chunk(a) + Encode(b)
  {
    hide Chunk, Equals;
    assert (a + b)[..3] == a && (a + b)[3..] == b;
  }

  lemma FoobarChunks()
    ensures Chunk([102]) == "Zg" && Chunk([102, 111]) == "Zm8"
    ensures Chunk([102, 111, 111]) == "Zm9v" && Chunk([98, 97, 114]) == "YmFy"
    ensures Equals(1) == "=" && Equals(2) == "=="
  {
    Letters();
    hide Code;
    assert Group(102, 0, 0)[..2] == [Code(25), Code(32)];
    assert Group(102, 111, 0)[..3] == [Code(25), Code(38), Code(60)];
    assert Group(102, 111, 111)[..4] == [Code(25), Code(38), Code(61), Code(47)];
    assert Group(98, 97, 114)[..4] == [Code(24), Code(38), Code(5), Code(50)];
  }

  lemma Letters()
    ensures Code(25) == 'Z' && Code(32) == 'g' && Code(38) == 'm' && Code(60) == '8' && Code(61) == '9'
    ensures Code(47) == 'v' && Code(24) == 'Y' && Code(5) == 'F' && Code(50) == 'y'
  {
  }
}
