/** Chunked transfer coding in dev/svr/3rd/mongoose.c: the sender, and the receiver that
  collapses complete chunks in place inside the connection's receive buffer. */
module HttpChunk {
  import opened Common
  import opened Mbufs
  import opened Numerals

  const SIZE: nat := 0x1_0000_0000_0000_0000

  // ---- parse_chunk ---------------------------------------------------------

  /** How many leading characters are hexadecimal digits. */
  function HexRun(s: string): (k: nat)
    ensures k <= |s| && (k < |s| ==> !IsHexDigit(s[k]))
  {
    if s != "" && IsHexDigit(s[0]) then 1 + HexRun(s[1..]) else 0
  }

  /** The digits read in a size_t. */
  function HexSize(digits: string): (n: nat)
    ensures n < SIZE
  {
    if digits == "" then 0 else (HexSize(digits[..|digits| - 1]) * 16 + HexDigitValue(digits[|digits| - 1])) % SIZE
  }

  predicate NewlineAt(s: string, i: nat) {
    i + 2 <= |s| && s[i] == '\r' && s[i + 1] == '\n'
  }

  /** Incomplete: nothing to do yet (the source returns 0).  Overrun: the declared size makes the
    source's index arithmetic wrap, and what it does then is not modelled. */
  datatype Chunk = Incomplete | Complete(at: nat, size: nat, total: nat) | Overrun

  function ParseChunk(s: string): (c: Chunk)
    ensures c.Complete? ==> c.at + c.size + 2 == c.total <= |s| && 0 < c.at
  {
    var k := HexRun(s);
    if k == 0 || !NewlineAt(s, k) then Incomplete
    else
      var n := HexSize(s[..k]);
      if k + 2 + n + 2 >= SIZE then Overrun
      else if !NewlineAt(s, k + 2 + n) then Incomplete
      else Complete(k + 2, n, k + 2 + n + 2)
  }

  /** The hexadecimal digits of a chunk size. */
  method ScanSize(buf: array<char>, from: nat, len: nat) returns (i: nat, n: nat)
    requires from <= len <= buf.Length
    ensures var s := buf[from..len]; i == from + HexRun(s) <= len && n == HexSize(s[..i - from])
  {
    hide HexSize, HexDigitValue, IsHexDigit;
    ghost var s := buf[from..len];
    HexSizeEmpty();
    i, n := from, 0;
    while i < len && IsHexDigit(buf[i])
      invariant from <= i <= len && n == HexSize(s[..i - from])
      invariant HexRun(s) == i - from + HexRun(s[i - from..])
    {
      assert s[..i + 1 - from] == s[..i - from] + [buf[i]];
      HexSizeAppend(s[..i - from], buf[i]);
      assert s[i - from..][1..] == s[i + 1 - from..];
      n := (n * 16 + HexDigitValue(buf[i])) % SIZE;
      i := i + 1;
    }
  }

  method ScanChunk(buf: array<char>, from: nat, len: nat) returns (c: Chunk)
    requires from <= len <= buf.Length
    ensures c == ParseChunk(buf[from..len])
  {
    hide HexSize, HexRun;
    var i, n := ScanSize(buf, from, len);
    if i == from || i + 2 > len || buf[i] != '\r' || buf[i + 1] != '\n' {
      return Incomplete;
    }
    i := i + 2;
    var at := i - from;
    if at + n + 2 >= SIZE {
      return Overrun;
    }
    i := i + n;
    if i + 2 > len || buf[i] != '\r' || buf[i + 1] != '\n' {
      return Incomplete;
    }
    c := Complete(at, n, i + 2 - from);
  }

  // ---- collapsing ----------------------------------------------------------

  /** Reassembled body, unparsed tail, and how the traversal stopped. */
  datatype State = State(body: string, tail: string, last: bool, overrun: bool)

  function Collapse(body: string, tail: string): (r: State)
    decreases |tail|
  {
    match ParseChunk(tail)
    case Incomplete => State(body, tail, false, false)
    case Overrun => State(body, tail, false, true)
    case Complete(at, n, total) =>
      var body' := body + tail[at..at + n];
      if n == 0 then State(body', tail[total..], true, false) else Collapse(body', tail[total..])
  }

  lemma CollapseCases(body: string, tail: string)
    ensures var c := ParseChunk(tail);
      && (c.Complete? ==> c.at + c.size + 2 == c.total <= |tail| && 0 < c.at)
      && (c.Incomplete? ==> Collapse(body, tail) == State(body, tail, false, false))
      && (c.Overrun? ==> Collapse(body, tail) == State(body, tail, false, true))
      && (c.Complete? ==>
            var body' := body + tail[c.at..c.at + c.size];
            Collapse(body, tail)
            == if c.size == 0 then State(body', tail[c.total..], true, false) else Collapse(body', tail[c.total..]))
  {
  }

  /** A block moved down behind the first dst cells, over cells that come before what follows it. */
  lemma ChunkMoved(was: string, now: string, dst: nat, i: nat, len: nat, at: nat, size: nat, total: nat)
    requires |now| == |was| && dst <= i <= len <= |was| && at + size <= total <= len - i
    requires now[..dst] == was[..dst]
    requires now[dst..dst + size] == was[i + at..i + at + size]
    requires now[dst + size..] == was[dst + size..]
    ensures now[..dst + size] == was[..dst] + was[i..len][at..at + size]
    ensures now[i + total..len] == was[i..len][total..]
  {
    assert now[..dst + size] == now[..dst] + now[dst..dst + size];
    PartOfPart(was, i, len, at, at + size);
    PartOfPart(was, i, len, total, len - i);
    var rest := dst + size;
    assert was[rest..] == was[rest..|was|] && now[rest..] == now[rest..|was|];
    PartOfPart(was, rest, |was|, i + total - rest, len - rest);
    PartOfPart(now, rest, |was|, i + total - rest, len - rest);
  }

  lemma PartOfPart(s: string, i: nat, j: nat, a: nat, b: nat)
    requires i <= j <= |s| && a <= b <= j - i
    ensures s[i..j][a..b] == s[i + a..i + b]
  {
    var part, same := s[i..j][a..b], s[i + a..i + b];
    forall k | 0 <= k < b - a
      ensures part[k] == same[k]
    {
      assert part[k] == s[i..j][a + k] == s[i + a + k];
    }
  }

  class Connection {
    /** The receive buffer from the start of the body on. */
    const recv: Mbuf<char>
    var bodyLen: nat

    ghost predicate Valid()
      reads this, recv
    {
      bodyLen <= recv.len && recv.Valid()
    }

    ghost function Body(): string
      requires Valid()
      reads this, recv, recv.buf
    {
      recv.buf[..bodyLen]
    }

    ghost function Tail(): string
      requires Valid()
      reads this, recv, recv.buf
    {
      recv.buf[bodyLen..recv.len]
    }

    constructor ()
      ensures Valid() && Body() == "" && Tail() == "" && fresh(recv) && fresh(recv.buf)
    {
      recv := new Mbuf<char>(0);
      bodyLen := 0;
    }

    method Append(data: string)
      requires Valid()
      modifies recv, recv.buf
      ensures Valid() && Body() == old(Body()) && Tail() == old(Tail()) + data
      ensures recv.buf == old(recv.buf) || fresh(recv.buf)
    {
      ghost var before := recv.buf[..recv.len];
      recv.Append(data);
      assert recv.buf[..recv.len] == before + data;
      assert recv.buf[..bodyLen] == recv.buf[..recv.len][..bodyLen] == before[..bodyLen];
      assert recv.buf[bodyLen..recv.len] == recv.buf[..recv.len][bodyLen..] == before[bodyLen..] + data;
    }

    method Clear(at: nat, n: nat)
      requires at + n <= recv.buf.Length
      modifies recv.buf
      ensures forall k :: at <= k < at + n ==> recv.buf[k] == '\0'
      ensures forall k :: 0 <= k < recv.buf.Length && !(at <= k < at + n) ==> recv.buf[k] == old(recv.buf[k])
    {
      forall k | 0 <= k < n {
        recv.buf[at + k] := '\0';
      }
    }

    /** Move the data of one chunk down to the end of the body; what follows the chunk stays. */
    method TakeChunk(newLen: nat, i: nat, c: Chunk)
      requires newLen <= i <= recv.len <= recv.buf.Length
      requires c.Complete? && c.at + c.size + 2 == c.total <= recv.len - i
      modifies recv.buf
      ensures recv.buf[..newLen + c.size] == old(recv.buf[..newLen]) + old(recv.buf[i..recv.len])[c.at..c.at + c.size]
      ensures recv.buf[i + c.total..recv.len] == old(recv.buf[i..recv.len])[c.total..]
    {
      ghost var was := recv.buf[..];
      recv.Move(newLen, i + c.at, c.size);
      ghost var now := recv.buf[..];
      assert now[..newLen] == was[..newLen];
      assert now[newLen..newLen + c.size] == was[i + c.at..i + c.at + c.size];
      assert now[newLen + c.size..] == was[newLen + c.size..];
      ChunkMoved(was, now, newLen, i, recv.len, c.at, c.size, c.total);
    }

    /** One round of the loop: what is left to collapse is the same as before. */
    method TakeNext(newLen: nat, i: nat, c: Chunk)
      requires newLen <= i <= recv.len <= recv.buf.Length
      requires c == ParseChunk(recv.buf[i..recv.len]) && c.Complete?
      modifies recv.buf
      ensures newLen + c.size < i + c.total <= recv.len
      ensures var body, tail := recv.buf[..newLen + c.size], recv.buf[i + c.total..recv.len];
              old(Collapse(recv.buf[..newLen], recv.buf[i..recv.len]))
              == if c.size == 0 then State(body, tail, true, false) else Collapse(body, tail)
    {
      hide ParseChunk, Collapse;
      CollapseCases(recv.buf[..newLen], recv.buf[i..recv.len]);
      TakeChunk(newLen, i, c);
    }

    /** The for loop of mg_handle_chunked: i is where parsing stopped. */
    method Traverse() returns (i: nat, newLen: nat, last: bool, overrun: bool)
      requires Valid()
      modifies recv.buf
      ensures newLen <= i <= recv.len && bodyLen <= newLen
      ensures i > newLen <==> old(ParseChunk(Tail())).Complete?
      ensures i == newLen ==> newLen == bodyLen
      ensures State(recv.buf[..newLen], recv.buf[i..recv.len], last, overrun) == old(Collapse(Body(), Tail()))
    {
      hide ParseChunk, Collapse;
      ghost var whole, first := Collapse(Body(), Tail()), ParseChunk(Tail());
      i, newLen, last, overrun := bodyLen, bodyLen, false, false;
      assert recv.buf[i..recv.len] == Tail() && recv.buf[..newLen] == Body();
      CollapseCases(recv.buf[..newLen], recv.buf[i..recv.len]);
      var c := ScanChunk(recv.buf, i, recv.len);
      while c.Complete?
        invariant bodyLen <= newLen <= i <= recv.len && c == ParseChunk(recv.buf[i..recv.len])
        invariant whole == Collapse(recv.buf[..newLen], recv.buf[i..recv.len])
        invariant if i == bodyLen then newLen == bodyLen && c == first else newLen < i && first.Complete?
        invariant !last && !overrun
        decreases recv.len - i
      {
        TakeNext(newLen, i, c);
        newLen := newLen + c.size;
        i := i + c.total;
        if c.size == 0 {
          last := true;
          return;
        }
        c := ScanChunk(recv.buf, i, recv.len);
      }
      CollapseCases(recv.buf[..newLen], recv.buf[i..recv.len]);
      overrun := c.Overrun?;
    }

    /** Shift the unparsed bytes down to the body and blank what they leave behind. */
    method CloseGap(newLen: nat, i: nat)
      requires newLen < i <= recv.len <= recv.buf.Length
      modifies recv`len, this`bodyLen, recv.buf
      ensures Valid() && Body() == old(recv.buf[..newLen]) && Tail() == old(recv.buf[i..recv.len])
      ensures forall k :: recv.len <= k < old(recv.len) ==> recv.buf[k] == '\0'
    {
      ghost var body, tail := recv.buf[..newLen], recv.buf[i..recv.len];
      recv.Move(newLen, i, recv.len - i);
      assert recv.buf[newLen..newLen + (recv.len - i)] == tail;
      Clear(newLen + (recv.len - i), i - newLen);
      recv.len := recv.len - (i - newLen);
      bodyLen := newLen;
      assert recv.buf[..newLen] == body;
      assert recv.buf[newLen..recv.len] == tail;
    }

    /** What a handler that sets MG_F_DELETE_CHUNK asks for. */
    method DropBody()
      requires Valid()
      modifies recv`len, this`bodyLen, recv.buf
      ensures Valid() && Body() == "" && Tail() == old(Tail())
    {
      ghost var tail := Tail();
      Clear(0, bodyLen);
      assert Tail() == tail;
      recv.Move(0, bodyLen, recv.len - bodyLen);
      recv.len := recv.len - bodyLen;
      bodyLen := 0;
      assert recv.buf[0..recv.len] == tail;
    }

    /** mg_handle_chunked.  deleteChunk is what the handler of MG_EV_HTTP_CHUNK decides about the
      body it is shown; event says whether it was called at all, and shown is that body. */
    method HandleChunked(deleteChunk: bool) returns (event: bool, shown: string, last: bool, overrun: bool)
      requires Valid()
      modifies recv`len, this`bodyLen, recv.buf
      ensures Valid()
      ensures var r := old(Collapse(Body(), Tail()));
              && last == r.last && overrun == r.overrun && Tail() == r.tail
              && (event <==> old(ParseChunk(Tail())).Complete?)
              && (event ==> shown == r.body && Body() == if deleteChunk then "" else r.body)
              && (!event ==> Body() == r.body == old(Body()))
    {
      hide ParseChunk, Collapse;
      CollapseCases(Body(), Tail());
      var i, newLen;
      i, newLen, last, overrun := Traverse();
      event, shown := false, "";
      if i > newLen {
        CloseGap(newLen, i);
        event, shown := true, recv.buf[..newLen];
        if deleteChunk {
          DropBody();
        }
      }
    }

    /** One read event: the bytes are appended and complete chunks collapsed. */
    method OnRead(ghost taken: string, piece: string, deleteChunk: bool)
      returns (event: bool, shown: string, last: bool, overrun: bool)
      requires Valid()
      modifies this, recv, recv.buf
      ensures Valid()
      ensures var r := Receive(Receiver(taken, State(old(Body()), old(Tail()), false, false)), piece, deleteChunk);
              && r.state == State(Body(), Tail(), last, overrun)
              && r.taken == (if event && deleteChunk then taken + shown else taken)
    {
      hide ParseChunk, Collapse;
      Append(piece);
      event, shown, last, overrun := HandleChunked(deleteChunk);
    }
  }

  // ---- the sender ----------------------------------------------------------

  function UpperHex(v: nat): char
    requires v < 16
  {
    if v < 10 then (v + 48) as char else (v + 55) as char
  }

  /** printf("%lX"). */
  function Hex(n: nat): (h: string)
    ensures h != ""
  {
    if n < 16 then [UpperHex(n)] else Hex(n / 16) + [UpperHex(n % 16)]
  }

  /** mg_send_http_chunk. */
  function Encode(data: string): string {
    Hex(|data|) + "\r\n" + data + "\r\n"
  }

  function EncodeAll(chunks: seq<string>): string {
    if chunks == [] then "" else Encode(chunks[0]) + EncodeAll(chunks[1..])
  }

  function Flatten(chunks: seq<string>): string {
    if chunks == [] then "" else chunks[0] + Flatten(chunks[1..])
  }

  // ---- what the receiver makes of sent chunks ------------------------------

  lemma UpperHexReads(v: nat)
    requires v < 16
    ensures IsHexDigit(UpperHex(v)) && HexDigitValue(UpperHex(v)) == v
  {
  }

  lemma HexSizeAppend(h: string, c: char)
    ensures HexSize(h + [c]) == (HexSize(h) * 16 + HexDigitValue(c)) % SIZE
  {
    assert (h + [c])[..|h|] == h;
  }

  lemma {:induction false} HexReads(n: nat)
    requires n < SIZE
    ensures HexSize(Hex(n)) == n && forall i :: 0 <= i < |Hex(n)| ==> IsHexDigit(Hex(n)[i])
  {
    hide HexSize, UpperHex, IsHexDigit, HexDigitValue;
    UpperHexReads(n % 16);
    if n < 16 {
      assert Hex(n) == "" + [UpperHex(n)];
      HexSizeAppend("", UpperHex(n));
      assert HexSize("") == 0 by { HexSizeEmpty(); }
    } else {
      HexReads(n / 16);
      HexSizeAppend(Hex(n / 16), UpperHex(n % 16));
    }
  }

  lemma HexSizeEmpty()
    ensures HexSize("") == 0
  {
  }

  lemma {:induction false} RunOf(h: string, rest: string)
    requires forall i :: 0 <= i < |h| ==> IsHexDigit(h[i])
    requires rest != "" && !IsHexDigit(rest[0])
    ensures HexRun(h + rest) == |h|
  {
    if h == "" {
      assert h + rest == rest;
    } else {
      assert (h + rest)[1..] == h[1..] + rest;
      RunOf(h[1..], rest);
    }
  }

  /** A sent chunk is read back as one complete chunk, whatever follows it. */
  lemma SentChunkParses(data: string, rest: string)
    requires |Encode(data) + rest| < SIZE
    ensures ParseChunk(Encode(data) + rest) == Complete(|Hex(|data|)| + 2, |data|, |Encode(data)|)
    ensures (Encode(data) + rest)[|Hex(|data|)| + 2..|Hex(|data|)| + 2 + |data|] == data
    ensures (Encode(data) + rest)[|Encode(data)|..] == rest
  {
    hide HexSize, Hex, HexRun;
    var h := Hex(|data|);
    var s := Encode(data) + rest;
    HexReads(|data|);
    assert s == h + ("\r\n" + data + "\r\n" + rest);
    RunOf(h, "\r\n" + data + "\r\n" + rest);
    assert s[..|h|] == h;
  }

  lemma StreamFirst(chunks: seq<string>, end: string, rest: string)
    ensures chunks == [] ==> EncodeAll(chunks) + end + rest == end + rest && Flatten(chunks) == ""
    ensures chunks != [] ==>
              && EncodeAll(chunks) + end + rest == Encode(chunks[0]) + (EncodeAll(chunks[1..]) + end + rest)
              && Flatten(chunks) == chunks[0] + Flatten(chunks[1..])
  {
    hide Encode;
  }

  /** All complete chunks are collapsed into the concatenated payload, up to the zero chunk. */
  lemma {:induction false} SentStreamCollapses(body: string, chunks: seq<string>, rest: string)
    requires forall c :: c in chunks ==> c != ""
    requires |EncodeAll(chunks) + Encode("") + rest| < SIZE
    ensures Collapse(body, EncodeAll(chunks) + Encode("") + rest) == State(body + Flatten(chunks), rest, true, false)
    decreases |chunks|
  {
    hide ParseChunk, Encode, Collapse, EncodeAll, Flatten, Hex;
    CollapseCases(body, EncodeAll(chunks) + Encode("") + rest);
    StreamFirst(chunks, Encode(""), rest);
    if chunks == [] {
      SentChunkParses("", rest);
      assert body + "" == body;
    } else {
      var more := EncodeAll(chunks[1..]) + Encode("") + rest;
      assert chunks[0] in chunks && forall c :: c in chunks[1..] ==> c in chunks;
      SentChunkParses(chunks[0], more);
      SentStreamCollapses(body + chunks[0], chunks[1..], rest);
      Associates(body, chunks[0], Flatten(chunks[1..]));
    }
  }

  // ---- bytes arriving in pieces --------------------------------------------

  lemma {:induction false} HexRunPrefix(s: string, x: string)
    ensures HexRun(s) < |s| ==> HexRun(s + x) == HexRun(s)
  {
    if s != "" && IsHexDigit(s[0]) {
      assert (s + x)[1..] == s[1..] + x;
      HexRunPrefix(s[1..], x);
    }
  }

  /** A chunk that is complete, or whose size overflows, stays so when more bytes arrive. */
  lemma ParseStable(s: string, x: string)
    ensures !ParseChunk(s).Incomplete? ==> ParseChunk(s + x) == ParseChunk(s)
  {
    hide HexSize, HexRun;
    HexRunPrefix(s, x);
    var k := HexRun(s);
    assert (s + x)[..k] == s[..k];
  }

  lemma {:induction false} CollapseFrom(body: string, tail: string)
    ensures var r := Collapse("", tail); Collapse(body, tail) == State(body + r.body, r.tail, r.last, r.overrun)
    decreases |tail|
  {
    hide ParseChunk;
    CollapseCases(body, tail);
    CollapseCases("", tail);
    assert body + "" == body;
    var c := ParseChunk(tail);
    if c.Complete? {
      var d, rest := tail[c.at..c.at + c.size], tail[c.total..];
      assert "" + d == d;
      if c.size != 0 {
        CollapseFrom(body + d, rest);
        CollapseFrom(d, rest);
        assert body + d + Collapse("", rest).body == body + (d + Collapse("", rest).body);
      }
    }
  }

  /** Collapsing what has arrived and then the rest is collapsing everything at once. */
  lemma {:induction false} CollapseInPieces(body: string, tail: string, x: string)
    ensures var r := Collapse(body, tail);
            !r.last && !r.overrun ==> Collapse(body, tail + x) == Collapse(r.body, r.tail + x)
    ensures var r := Collapse(body, tail);
            r.last || r.overrun ==> Collapse(body, tail + x) == r.(tail := r.tail + x)
    decreases |tail|
  {
    hide ParseChunk, Collapse;
    CollapseCases(body, tail);
    CollapseCases(body, tail + x);
    ParseStable(tail, x);
    var c := ParseChunk(tail);
    if c.Complete? {
      var body' := body + tail[c.at..c.at + c.size];
      assert (tail + x)[c.at..c.at + c.size] == tail[c.at..c.at + c.size];
      assert (tail + x)[c.total..] == tail[c.total..] + x;
      if c.size != 0 {
        CollapseInPieces(body', tail[c.total..], x);
      }
    }
  }

  /** The receiver as a whole: what handlers that deleted their chunk have taken, then the body
    and tail in the buffer. */
  datatype Receiver = Receiver(taken: string, state: State)

  function Receive(r: Receiver, piece: string, deleteChunk: bool): Receiver {
    if r.state.last || r.state.overrun then Receiver(r.taken, r.state.(tail := r.state.tail + piece))
    else
      var tail := r.state.tail + piece;
      var c := Collapse(r.state.body, tail);
      if ParseChunk(tail).Complete? && deleteChunk then Receiver(r.taken + c.body, c.(body := ""))
      else Receiver(r.taken, c)
  }

  function ReceiveAll(r: Receiver, pieces: seq<string>, deletes: seq<bool>): Receiver
    requires |pieces| == |deletes|
  {
    if pieces == [] then r
    else
      var n := |pieces| - 1;
      Receive(ReceiveAll(r, pieces[..n], deletes[..n]), pieces[n], deletes[n])
  }

  const FRESH := Receiver("", State("", "", false, false))

  /** After any number of reads, cut anywhere and with any handler decisions, the buffer holds
    the payload of the complete chunks not yet taken, then the unparsed tail: exactly what one
    collapse of everything received so far would give. */
  lemma {:induction false} CutsDoNotMatter(pieces: seq<string>, deletes: seq<bool>)
    requires |pieces| == |deletes|
    ensures var r := ReceiveAll(FRESH, pieces, deletes);
            r.state.(body := r.taken + r.state.body) == Collapse("", Joined(pieces))
  {
    if pieces == [] {
      assert "" + "" == "";
    } else {
      hide ParseChunk, Collapse;
      var n := |pieces| - 1;
      CutsDoNotMatter(pieces[..n], deletes[..n]);
      ReceiveExtends(ReceiveAll(FRESH, pieces[..n], deletes[..n]), Joined(pieces[..n]), pieces[n], deletes[n]);
    }
  }

  lemma ReceiveExtends(r: Receiver, received: string, x: string, deleteChunk: bool)
    requires r.state.(body := r.taken + r.state.body) == Collapse("", received)
    ensures var r' := Receive(r, x, deleteChunk);
            r'.state.(body := r'.taken + r'.state.body) == Collapse("", received + x)
  {
    hide ParseChunk, Collapse;
    CollapseInPieces("", received, x);
    if !r.state.last && !r.state.overrun {
      var tail := r.state.tail + x;
      CollapseFrom(r.taken + r.state.body, tail);
      CollapseFrom(r.state.body, tail);
      var more := Collapse("", tail).body;
      assert r.taken + r.state.body + more == r.taken + (r.state.body + more);
      assert r.taken + (r.state.body + more) + "" == r.taken + (r.state.body + more);
    }
  }

  /** Any sequence of non-empty sent chunks ended by the zero chunk, cut at arbitrary points,
    ends with exactly the concatenated payload, and the bytes after the message as tail. */
  lemma ChunkedTransfer(chunks: seq<string>, rest: string, pieces: seq<string>, deletes: seq<bool>)
    requires |pieces| == |deletes| && forall c :: c in chunks ==> c != ""
    requires Joined(pieces) == EncodeAll(chunks) + Encode("") + rest && |Joined(pieces)| < SIZE
    ensures var r := ReceiveAll(FRESH, pieces, deletes);
            r.taken + r.state.body == Flatten(chunks) && r.state.tail == rest && r.state.last && !r.state.overrun
  {
    hide Collapse, ReceiveAll;
    CutsDoNotMatter(pieces, deletes);
    SentStreamCollapses("", chunks, rest);
    assert "" + Flatten(chunks) == Flatten(chunks);
  }

  // ---- sizes and ends of lines ---------------------------------------------

  /** The value of the digits, without a bound. */
  function Exact(digits: string): nat {
    if digits == "" then 0 else Exact(digits[..|digits| - 1]) * 16 + HexDigitValue(digits[|digits| - 1])
  }

  /** A size is read modulo 2^64. */
  lemma {:induction false} SizeWraps(digits: string)
    ensures HexSize(digits) == Exact(digits) % SIZE
    decreases |digits|
  {
    if digits != "" {
      var h, v := digits[..|digits| - 1], HexDigitValue(digits[|digits| - 1]);
      SizeWraps(h);
      Wraps(Exact(h), v);
    }
  }

  lemma Wraps(x: nat, v: nat)
    ensures (x % SIZE * 16 + v) % SIZE == (x * 16 + v) % SIZE
  {
    var q := x / SIZE;
    assert x * 16 + v == x % SIZE * 16 + v + 16 * q * SIZE;
    MultipleDrops(x % SIZE * 16 + v, 16 * q);
  }

  lemma {:induction false} MultipleDrops(y: nat, k: nat)
    ensures (y + k * SIZE) % SIZE == y % SIZE
  {
    if k > 0 {
      MultipleDrops(y, k - 1);
      assert y + k * SIZE == y + (k - 1) * SIZE + SIZE;
    }
  }

  /** And written in upper case without leading zeros, whatever the size. */
  lemma {:induction false} WrittenExactly(n: nat)
    ensures Exact(Hex(n)) == n && (n > 0 ==> Hex(n)[0] != '0')
  {
    UpperHexReads(n % 16);
    UpperHexZero(n % 16);
    hide UpperHex, HexDigitValue;
    if n >= 16 {
      WrittenExactly(n / 16);
      assert Hex(n)[..|Hex(n)| - 1] == Hex(n / 16);
    } else {
      assert Hex(n) == [UpperHex(n)] && [UpperHex(n)][..0] == "";
    }
  }

  lemma UpperHexZero(v: nat)
    requires v < 16
    ensures UpperHex(v) == '0' <==> v == 0
  {
  }

  lemma UpperHexIs(v: nat)
    requires v < 16
    ensures UpperHex(v) == "0123456789ABCDEF"[v]
  {
  }

  /** The line ends are carriage return and line feed; a chunk of nothing is the last one. */
  lemma WikiChunks()
    ensures EncodeAll(["Wiki", "pedia", ""]) == "4\r\nWiki\r\n" + "5\r\npedia\r\n" + "0\r\n\r\n"
  {
    UpperHexIs(4);
    UpperHexIs(5);
    UpperHexIs(0);
    hide UpperHex;
    assert Encode("Wiki") == "4\r\nWiki\r\n" && Encode("pedia") == "5\r\npedia\r\n" && Encode("") == "0\r\n\r\n";
    hide Encode;
    var c := ["Wiki", "pedia", ""];
    assert c[1..] == ["pedia", ""] && c[1..][1..] == [""] && [""][1..] == [];
    assert EncodeAll([""]) == Encode("") + "" == Encode("");
    assert EncodeAll(["pedia", ""]) == Encode("pedia") + Encode("");
  }
}
