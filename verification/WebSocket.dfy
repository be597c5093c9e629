/** WebSocket framing in dev/svr/3rd/mongoose.c against RFC 6455, sections 5.2 and 5.3: the
  sender with its in-place masking, and the receiver that unmasks in place, hands each complete
  frame over and removes it from the receive buffer. */
module WebSocket {
  import opened Common
  import opened Mbufs
  import opened Numerals

  const SIZE: nat := 0x1_0000_0000_0000_0000

  // ---- lengths and masks ---------------------------------------------------

  /** The byte holding n modulo 256, and the number a byte holds, both by its two halves. */
  function ByteOf(n: nat): bv8 {
    Join((n / 16 % 16) as bv4, (n % 16) as bv4)
  }

  function ValueOf(b: bv8): (v: nat)
    ensures v < 256
  {
    High(b) as nat * 16 + Low(b) as nat
  }

  function Join(h: bv4, l: bv4): bv8 { (h as bv8 << 4) | l as bv8 }
  function High(b: bv8): bv4 { (b >> 4) as bv4 }
  function Low(b: bv8): bv4 { (b & 15) as bv4 }

  function BigEndian(n: nat, k: nat): (b: seq<bv8>)
    ensures |b| == k
  {
    if k == 0 then [] else BigEndian(n / 256, k - 1) + [ByteOf(n % 256)]
  }

  function FromBigEndian(b: seq<bv8>): nat {
    if b == [] then 0 else FromBigEndian(b[..|b| - 1]) * 256 + ValueOf(b[|b| - 1])
  }

  lemma HalvesRoundTrip(h: bv4, l: bv4)
    ensures High(Join(h, l)) == h && Low(Join(h, l)) == l
  {
  }

  lemma HalfRoundTrip(n: nat)
    requires n < 16
    ensures (n as bv4) as nat == n
  {
  }

  lemma ByteRoundTrip(n: nat)
    requires n < 256
    ensures ValueOf(ByteOf(n)) == n
  {
    hide High, Low, Join;
    HalvesRoundTrip((n / 16 % 16) as bv4, (n % 16) as bv4);
    HalfRoundTrip(n / 16);
    HalfRoundTrip(n % 16);
  }

  lemma {:induction false} BigEndianRoundTrip(n: nat, k: nat)
    requires n < Power256(k)
    ensures FromBigEndian(BigEndian(n, k)) == n
  {
    hide ByteOf, ValueOf;
    if k > 0 {
      var b := BigEndian(n, k);
      assert b[..k - 1] == BigEndian(n / 256, k - 1);
      BigEndianRoundTrip(n / 256, k - 1);
      ByteRoundTrip(n % 256);
    }
  }

  /** Section 5.3: octet i is combined with octet i modulo 4 of the key. */
  function Masked(data: seq<bv8>, key: seq<bv8>): (r: seq<bv8>)
    requires |key| == 4
    ensures |r| == |data|
  {
    seq(|data|, i requires 0 <= i < |data| => data[i] ^ key[i % 4])
  }

  lemma XorTwice(a: bv8, k: bv8)
    ensures (a ^ k) ^ k == a
  {
  }

  lemma MaskingInvolutes(data: seq<bv8>, key: seq<bv8>)
    requires |key| == 4
    ensures Masked(Masked(data, key), key) == data
  {
    forall i | 0 <= i < |data|
      ensures Masked(Masked(data, key), key)[i] == data[i]
    {
      XorTwice(data[i], key[i % 4]);
    }
  }

  // ---- the wire form of a frame --------------------------------------------

  /** op as passed to mg_send_websocket_frame; 0x100 is WEBSOCKET_DONT_FIN. */
  function Flags(op: nat): bv8 {
    ByteOf(if op / 0x100 % 2 == 1 then op % 16 else 0x80 + op % 16)
  }

  /** The seven-bit length field.  65535 takes the 64-bit form, one later than the RFC's minimal rule. */
  function LengthField(n: nat): (f: nat)
    ensures f < 128
  {
    if n < 126 then n else if n < 65535 then 126 else 127
  }

  function ExtendedLength(n: nat): seq<bv8> {
    if n < 126 then []
    else if n < 65535 then BigEndian(n, 2)
    else BigEndian(n / 0x1_0000_0000, 4) + BigEndian(n % 0x1_0000_0000, 4)
  }

  /** No key: sent by a server.  A four-byte key: sent by a client. */
  datatype Frame = Frame(op: nat, key: seq<bv8>, payload: seq<bv8>)

  predicate GoodKey(key: seq<bv8>) {
    |key| == 0 || |key| == 4
  }

  function Header(f: Frame): (h: seq<bv8>)
    ensures 2 <= |h| <= 10
  {
    [Flags(f.op), if f.key == [] then ByteOf(LengthField(|f.payload|)) else ByteOf(LengthField(|f.payload|)) | 0x80]
    + ExtendedLength(|f.payload|)
  }

  function Encode(f: Frame): seq<bv8> {
    Header(f) + f.key + (if |f.key| == 4 then Masked(f.payload, f.key) else f.payload)
  }

  lemma EncodeParts(before: seq<bv8>, f: Frame)
    requires GoodKey(f.key)
    ensures |f.key| == 4 ==> before + Header(f) + f.key + Masked(f.payload, f.key) == before + Encode(f)
    ensures f.key == [] ==> before + Header(f) + f.key + f.payload == before + Encode(f)
  {
    hide Header, Masked;
  }

  // ---- sending -------------------------------------------------------------

  class Sender {
    const out: Mbuf<bv8>

    constructor ()
      ensures out.Valid() && out.Contents() == [] && fresh(out) && fresh(out.buf)
    {
      out := new Mbuf<bv8>(0);
    }

    /** mg_send_ws_header: returns ctx->pos, 0 for an unmasked frame. */
    method SendHeader(op: nat, len: nat, key: seq<bv8>) returns (pos: nat)
      requires out.Valid() && GoodKey(key)
      modifies out, out.buf
      ensures out.Valid() && (out.buf == old(out.buf) || fresh(out.buf))
      ensures forall payload: seq<bv8> :: |payload| == len ==>
                out.Contents() == old(out.Contents()) + Header(Frame(op, key, payload)) + key
      ensures pos == (if key == [] then 0 else out.len) && (key != [] ==> pos > 0)
    {
      hide ByteOf, BigEndian, Flags;
      var h0 := Flags(op);
      var h1: bv8;
      var ext: seq<bv8> := [];
      if len < 126 {
        h1 := ByteOf(len);
      } else if len < 65535 {
        h1 := ByteOf(126);
        ext := BigEndian(len, 2);
      } else {
        h1 := ByteOf(127);
        ext := BigEndian(len / 0x1_0000_0000, 4) + BigEndian(len % 0x1_0000_0000, 4);
      }
      if key != [] {
        h1 := h1 | 0x80;
        out.Append([h0, h1] + ext);
        out.Append(key);
        pos := out.len;
      } else {
        out.Append([h0, h1] + ext);
        pos := 0;
      }
    }

    /** ws_mask_frame. */
    method MaskFrame(pos: nat, key: seq<bv8>)
      requires out.Valid() && |key| == 4 && 0 < pos <= out.len
      modifies out.buf
      ensures out.Valid() && out.Contents() == old(out.Contents()[..pos]) + Masked(old(out.Contents()[pos..]), key)
    {
      ghost var before := out.buf[..out.len];
      var i := 0;
      while i < out.len - pos
        invariant 0 <= i <= out.len - pos
        invariant out.buf[..pos] == before[..pos]
        invariant forall k :: 0 <= k < i ==> out.buf[pos + k] == before[pos + k] ^ key[k % 4]
        invariant forall k :: pos + i <= k < out.len ==> out.buf[k] == before[k]
      {
        out.buf[pos + i] := out.buf[pos + i] ^ key[i % 4];
        i := i + 1;
      }
      assert out.buf[pos..out.len] == Masked(before[pos..], key);
      assert out.buf[..out.len] == out.buf[..pos] + out.buf[pos..out.len];
    }

    /** mg_send_websocket_frame.  mg_send takes the length as an int. */
    method SendFrame(f: Frame)
      requires out.Valid() && GoodKey(f.key) && |f.payload| < 0x8000_0000
      modifies out, out.buf
      ensures out.Valid() && (out.buf == old(out.buf) || fresh(out.buf))
      ensures out.Contents() == old(out.Contents()) + Encode(f)
    {
      hide Header, Masked, Flags, Encode;
      ghost var before := out.Contents();
      var pos := SendHeader(f.op, |f.payload|, f.key);
      assert f == Frame(f.op, f.key, f.payload);
      ghost var head := before + Header(f) + f.key;
      assert out.Contents() == head;
      out.Append(f.payload);
      if pos != 0 {
        MaskFrame(pos, f.key);
        assert (head + f.payload)[..pos] == head && (head + f.payload)[pos..] == f.payload;
      }
      EncodeParts(before, f);
    }
  }

  // ---- receiving: what one frame is ----------------------------------------

  predicate IsFragment(flags: bv8) {
    flags & 0x80 == 0 || flags & 0x0F == 0
  }

  /** Whole: a complete frame with its key length, header length (key included) and data length.
    Reassemble: the head is a fragment that is to be defragmented; Overrun: the declared length
    makes the 64-bit frame length wrap.  What the source does in these two is not modelled. */
  datatype Parsed = NeedMore | Whole(keyLen: nat, headerLen: nat, dataLen: nat) | Reassemble | Overrun

  function KeyLen(b1: bv8): nat {
    if b1 & 0x80 != 0 then 4 else 0
  }

  /** Header length, 0 while the header is incomplete. */
  function HeaderLen(b: seq<bv8>): nat
    requires |b| >= 2
  {
    var code, key := ValueOf(b[1] & 127), KeyLen(b[1]);
    if code < 126 && |b| >= key then 2 + key
    else if code == 126 && |b| >= 4 + key then 4 + key
    else if |b| >= 10 + key then 10 + key
    else 0
  }

  function DataLen(b: seq<bv8>): nat
    requires |b| >= 2 && HeaderLen(b) > 0
  {
    var code := ValueOf(b[1] & 127);
    if code < 126 then code
    else if code == 126 then FromBigEndian(b[2..4])
    else FromBigEndian(b[2..6]) * 0x1_0000_0000 + FromBigEndian(b[6..10])
  }

  function ParseFrame(b: seq<bv8>, noDefrag: bool): (r: Parsed)
    ensures r.Whole? ==> |b| >= 2 && r.headerLen == HeaderLen(b) >= 2 + r.keyLen && r.keyLen == KeyLen(b[1])
    ensures r.Whole? ==> r.headerLen + r.dataLen <= |b|
  {
    if b != [] && !noDefrag && IsFragment(b[0]) then Reassemble
    else if |b| < 2 || HeaderLen(b) == 0 then NeedMore
    else
      var n := DataLen(b);
      if HeaderLen(b) + n >= SIZE then Overrun
      else if HeaderLen(b) + n > |b| then NeedMore
      else Whole(KeyLen(b[1]), HeaderLen(b), n)
  }

  /** What the handler sees. */
  datatype Message = Message(flags: bv8, data: seq<bv8>)

  function MessageAt(b: seq<bv8>, r: Parsed): Message
    requires r.Whole? && 2 + r.keyLen <= r.headerLen && r.headerLen + r.dataLen <= |b|
    requires (r.keyLen == 0 || r.keyLen == 4)
  {
    var raw := b[r.headerLen..r.headerLen + r.dataLen];
    Message(b[0], if r.keyLen == 0 then raw else Masked(raw, b[r.headerLen - 4..r.headerLen]))
  }

  datatype Delivery = Delivery(messages: seq<Message>, rest: seq<bv8>, stuck: bool)

  /** Deliver frames while there are complete ones. */
  function DeliverAll(b: seq<bv8>, noDefrag: bool): Delivery
    decreases |b|
  {
    var r := ParseFrame(b, noDefrag);
    if r.Whole? then
      var d := DeliverAll(b[r.headerLen + r.dataLen..], noDefrag);
      Delivery([MessageAt(b, r)] + d.messages, d.rest, d.stuck)
    else Delivery([], b, !r.NeedMore?)
  }

  lemma UnmaskedAll(b: seq<bv8>, c: seq<bv8>, h: nat, n: nat)
    requires 6 <= h && h + n <= |b| == |c|
    requires forall k :: h <= k < h + n ==> c[k] == b[k] ^ b[h - 4 + (k - h) % 4]
    requires forall k :: 0 <= k < |b| && !(h <= k < h + n) ==> c[k] == b[k]
    ensures c[h..h + n] == Masked(b[h..h + n], b[h - 4..h]) && c[h + n..] == b[h + n..]
  {
  }

  lemma Part(buf: array<bv8>, len: nat, i: nat, j: nat)
    requires i <= j <= len <= buf.Length
    ensures buf[i..j] == buf[..len][i..j] && buf[..len][i..len] == buf[..len][i..]
  {
  }

  class Receiver {
    const recv: Mbuf<bv8>
    const noDefrag: bool

    constructor (noDefrag: bool)
      ensures this.noDefrag == noDefrag && recv.Valid() && recv.Contents() == [] && fresh(recv) && fresh(recv.buf)
    {
      this.noDefrag := noDefrag;
      recv := new Mbuf<bv8>(0);
    }

    /** The length decoding of deliver_websocket_data; headerLen 0 while it is incomplete. */
    method ReadLengths() returns (keyLen: nat, headerLen: nat, dataLen: nat)
      requires recv.Valid() && recv.len >= 2
      ensures var b := recv.Contents();
              keyLen == KeyLen(b[1]) && headerLen == HeaderLen(b) && (headerLen > 0 ==> dataLen == DataLen(b))
    {
      hide FromBigEndian, ValueOf;
      var p := recv.buf;
      var bufLen := recv.len;
      ghost var b := recv.Contents();
      headerLen, dataLen := 0, 0;
      var len := ValueOf(p[1] & 127);
      keyLen := if p[1] & 0x80 != 0 then 4 else 0;
      if len < 126 && bufLen >= keyLen {
        dataLen := len;
        headerLen := 2 + keyLen;
      } else if len == 126 && bufLen >= 4 + keyLen {
        headerLen := 4 + keyLen;
        assert p[2..4] == b[2..4];
        dataLen := FromBigEndian(p[2..4]);
      } else if bufLen >= 10 + keyLen {
        headerLen := 10 + keyLen;
        assert p[2..6] == b[2..6] && p[6..10] == b[6..10];
        dataLen := FromBigEndian(p[2..6]) * 0x1_0000_0000 + FromBigEndian(p[6..10]);
      }
    }

    method ReadHeader() returns (r: Parsed)
      requires recv.Valid()
      ensures r == ParseFrame(recv.Contents(), noDefrag)
    {
      hide HeaderLen, DataLen, KeyLen, IsFragment;
      if recv.len > 0 && IsFragment(recv.buf[0]) && !noDefrag {
        return Reassemble;
      }
      if recv.len < 2 {
        return NeedMore;
      }
      var keyLen, headerLen, dataLen := ReadLengths();
      if headerLen == 0 {
        return NeedMore;
      }
      if headerLen + dataLen >= SIZE {
        return Overrun;
      }
      if headerLen + dataLen > recv.len {
        return NeedMore;
      }
      r := Whole(keyLen, headerLen, dataLen);
    }

    /** The in-place unmasking loop. */
    method Unmask(r: Parsed)
      requires recv.Valid() && r.Whole? && r.keyLen == 4 && 6 <= r.headerLen && r.headerLen + r.dataLen <= recv.len
      modifies recv.buf
      ensures recv.Valid() && recv.len == old(recv.len)
      ensures var b := old(recv.Contents());
              && recv.buf[r.headerLen..r.headerLen + r.dataLen]
                 == Masked(b[r.headerLen..r.headerLen + r.dataLen], b[r.headerLen - 4..r.headerLen])
              && recv.buf[r.headerLen + r.dataLen..recv.len] == b[r.headerLen + r.dataLen..]
              && recv.buf[0] == b[0]
    {
      var buf, h := recv.buf, r.headerLen;
      ghost var b := recv.Contents();
      var i := 0;
      while i < r.dataLen
        invariant 0 <= i <= r.dataLen
        invariant forall k :: h <= k < h + i ==> buf[k] == b[k] ^ b[h - 4 + (k - h) % 4]
        invariant forall k :: 0 <= k < recv.len && !(h <= k < h + i) ==> buf[k] == b[k]
      {
        buf[i + h] := buf[i + h] ^ buf[h - 4 + i % 4];
        i := i + 1;
      }
      hide Masked;
      UnmaskedAll(b, buf[..recv.len], h, r.dataLen);
      assert buf[h..h + r.dataLen] == buf[..recv.len][h..h + r.dataLen];
      assert buf[h + r.dataLen..recv.len] == buf[..recv.len][h + r.dataLen..];
    }

    /** deliver_websocket_data for frames that need no reassembly. */
    method Deliver() returns (r: Parsed, m: Message)
      requires recv.Valid()
      modifies recv`len, recv.buf
      ensures recv.Valid() && r == ParseFrame(old(recv.Contents()), noDefrag)
      ensures r.Whole? ==> m == MessageAt(old(recv.Contents()), r)
      ensures r.Whole? ==> recv.Contents() == old(recv.Contents())[r.headerLen + r.dataLen..]
      ensures !r.Whole? ==> recv.Contents() == old(recv.Contents())
    {
      hide HeaderLen, DataLen, Masked;
      ghost var b := recv.Contents();
      r := ReadHeader();
      m := Message(0, []);
      if r.Whole? {
        var end := r.headerLen + r.dataLen;
        if r.keyLen > 0 {
          Unmask(r);
        } else {
          Part(recv.buf, recv.len, end, recv.len);
          Part(recv.buf, recv.len, r.headerLen, end);
        }
        m := Message(recv.buf[0], recv.buf[r.headerLen..r.headerLen + r.dataLen]);
        Part(recv.buf, recv.len, end, recv.len);
        assert recv.Contents()[end..] == b[end..];
        recv.Remove(end);
      }
    }

    /** MG_EV_RECV: the bytes read are appended and frames delivered until none is complete. */
    method OnReceive(data: seq<bv8>) returns (messages: seq<Message>, stuck: bool)
      requires recv.Valid()
      modifies recv, recv.buf
      ensures recv.Valid()
      ensures Delivery(messages, recv.Contents(), stuck) == DeliverAll(old(recv.Contents()) + data, noDefrag)
    {
      hide ParseFrame, MessageAt, DeliverAll, Before;
      recv.Append(data);
      ghost var whole := DeliverAll(recv.Contents(), noDefrag);
      messages := [];
      BeforeAll([], Message(0, []), whole);
      while true
        invariant recv.Valid() && (recv.buf == old(recv.buf) || fresh(recv.buf))
        invariant whole == Before(messages, DeliverAll(recv.Contents(), noDefrag))
        decreases recv.len
      {
        DeliverCases(recv.Contents(), noDefrag);
        BeforeAll(messages, Message(0, []), DeliverAll(recv.Contents(), noDefrag));
        var r, m := Deliver();
        if !r.Whole? {
          stuck := !r.NeedMore?;
          return;
        }
        BeforeAll(messages, m, DeliverAll(recv.Contents(), noDefrag));
        messages := messages + [m];
      }
    }
  }

  function Before(messages: seq<Message>, d: Delivery): Delivery {
    Delivery(messages + d.messages, d.rest, d.stuck)
  }

  lemma BeforeAll(messages: seq<Message>, m: Message, d: Delivery)
    ensures Before([], d) == d
    ensures Before(messages, Before([m], d)) == Before(messages + [m], d)
    ensures d.messages == [] ==> Before(messages, d) == Delivery(messages, d.rest, d.stuck)
  {
    Associates(messages, [m], d.messages);
  }

  function AfterFrame(b: seq<bv8>, r: Parsed, noDefrag: bool): Delivery
    requires r == ParseFrame(b, noDefrag) && r.Whole?
  {
    Before([MessageAt(b, r)], DeliverAll(b[r.headerLen + r.dataLen..], noDefrag))
  }

  lemma DeliverCases(b: seq<bv8>, noDefrag: bool)
    ensures var r := ParseFrame(b, noDefrag);
            && (r.Whole? ==> DeliverAll(b, noDefrag) == AfterFrame(b, r, noDefrag))
            && (!r.Whole? ==> DeliverAll(b, noDefrag) == Delivery([], b, !r.NeedMore?))
  {
    hide ParseFrame, MessageAt;
  }

  // ---- receiving what was sent ---------------------------------------------

  /** An unfragmented, non-continuation frame, or any frame when reassembly is off. */
  predicate Deliverable(f: Frame, noDefrag: bool) {
    GoodKey(f.key) && |f.payload| < 0x8000_0000 && (noDefrag || (f.op / 0x100 % 2 == 0 && f.op % 16 != 0))
  }

  lemma FlagsNotFragment(op: nat)
    requires op / 0x100 % 2 == 0 && op % 16 != 0
    ensures !IsFragment(Flags(op))
  {
    hide ByteOf;
    var l := op % 16;
    assert (0x80 + l) / 16 % 16 == 8 && (0x80 + l) % 16 == l;
    HalfNonZero(l);
    FlagBits((l) as bv4);
    assert ByteOf(0x80 + l) == Join(8, l as bv4) by { ByteOfHalves(l); }
  }

  lemma ByteOfHalves(l: nat)
    requires l < 16
    ensures ByteOf(0x80 + l) == Join(8, l as bv4)
  {
    hide Join;
    assert (0x80 + l) / 16 % 16 == 8 && (0x80 + l) % 16 == l;
  }

  lemma HalfNonZero(l: nat)
    requires 0 < l < 16
    ensures l as bv4 != 0
  {
    HalfRoundTrip(l);
  }

  lemma FlagBits(l: bv4)
    ensures Join(8, l) & 0x80 != 0 && (l != 0 ==> Join(8, l) & 0x0F != 0)
  {
  }

  /** The length byte, with and without the mask bit. */
  lemma LengthByte(n: nat)
    requires n < 128
    ensures var b := ByteOf(n);
            && ValueOf(b & 127) == n && KeyLen(b) == 0
            && ValueOf((b | 0x80) & 127) == n && KeyLen(b | 0x80) == 4
  {
    hide ByteOf, ValueOf;
    var b := ByteOf(n);
    ByteRoundTrip(n);
    SevenBits(b);
    assert b & 0x80 == 0 by { SmallByte(n); }
  }

  lemma SevenBits(b: bv8)
    ensures b & 0x80 == 0 ==> b & 127 == b && (b | 0x80) & 127 == b
    ensures (b | 0x80) & 0x80 != 0
  {
  }

  lemma SmallByte(n: nat)
    requires n < 128
    ensures ByteOf(n) & 0x80 == 0
  {
    var h := n / 16;
    HalfSmall(h);
    assert n / 16 % 16 == h;
    HighHalf(h as bv4, (n % 16) as bv4);
  }

  lemma HalfSmall(h: nat)
    requires h < 8
    ensures h as bv4 < 8
  {
    HalfRoundTrip(h);
  }

  lemma HighHalf(h: bv4, l: bv4)
    requires h < 8
    ensures Join(h, l) & 0x80 == 0
  {
  }

  /** The header of a sent frame decodes to its lengths, whatever follows. */
  lemma SentHeader(f: Frame, x: seq<bv8>)
    requires GoodKey(f.key) && |f.payload| < 0x8000_0000 && |x| >= |f.key|
    ensures var b := Header(f) + x;
            && b[0] == Flags(f.op) && KeyLen(b[1]) == |f.key|
            && HeaderLen(b) == |Header(f)| + |f.key| && DataLen(b) == |f.payload|
  {
    hide ByteOf, ValueOf, BigEndian, FromBigEndian, KeyLen, Flags, Header, HeaderLen, DataLen;
    var n, b := |f.payload|, Header(f) + x;
    FirstTwo(f);
    assert b[0] == Header(f)[0] && b[1] == Header(f)[1];
    LengthByte(LengthField(n));
    HeaderCases(b);
    if 126 <= n < 65535 {
      MediumHeader(f, x);
    } else if n >= 65535 {
      LongHeader(f, x);
    }
  }

  lemma FirstTwo(f: Frame)
    requires GoodKey(f.key)
    ensures var n, h, l := |f.payload|, Header(f), ByteOf(LengthField(|f.payload|));
            && h[0] == Flags(f.op) && h[1] == (if f.key == [] then l else l | 0x80)
            && |h| == if n < 126 then 2 else if n < 65535 then 4 else 10
  {
    hide ByteOf, BigEndian, Flags;
  }

  lemma HeaderCases(b: seq<bv8>)
    requires |b| >= 2
    ensures var code, key := ValueOf(b[1] & 127), KeyLen(b[1]);
            && (code < 126 && |b| >= 2 + key ==> HeaderLen(b) == 2 + key && DataLen(b) == code)
            && (code == 126 && |b| >= 4 + key ==> HeaderLen(b) == 4 + key && DataLen(b) == FromBigEndian(b[2..4]))
            && (code == 127 && |b| >= 10 + key ==>
                  HeaderLen(b) == 10 + key
                  && DataLen(b) == FromBigEndian(b[2..6]) * 0x1_0000_0000 + FromBigEndian(b[6..10]))
  {
    hide ValueOf, FromBigEndian;
  }

  lemma MediumHeader(f: Frame, x: seq<bv8>)
    requires 126 <= |f.payload| < 65535
    ensures (Header(f) + x)[2..4] == BigEndian(|f.payload|, 2)
    ensures FromBigEndian(BigEndian(|f.payload|, 2)) == |f.payload|
  {
    hide ByteOf, BigEndian, FromBigEndian, Flags;
    TwoBytes(|f.payload|);
  }

  lemma LongHeader(f: Frame, x: seq<bv8>)
    requires 65535 <= |f.payload| < SIZE
    ensures (Header(f) + x)[2..6] == BigEndian(|f.payload| / 0x1_0000_0000, 4)
    ensures (Header(f) + x)[6..10] == BigEndian(|f.payload| % 0x1_0000_0000, 4)
    ensures FromBigEndian(BigEndian(|f.payload| / 0x1_0000_0000, 4)) * 0x1_0000_0000
          + FromBigEndian(BigEndian(|f.payload| % 0x1_0000_0000, 4)) == |f.payload|
  {
    hide ByteOf, BigEndian, FromBigEndian, Flags;
    EightBytes(|f.payload|);
  }

  lemma TwoBytes(n: nat)
    requires n < 65536
    ensures FromBigEndian(BigEndian(n, 2)) == n
  {
    assert Power256(1) == 256 && Power256(2) == 65536;
    BigEndianRoundTrip(n, 2);
  }

  /** 65535 is sent in the 64-bit form although the 16-bit form holds it, against section 5.2 of RFC 6455. */
  lemma NotMinimalFor65535()
    ensures LengthField(65535) == 127 && |ExtendedLength(65535)| == 8
    ensures FromBigEndian(BigEndian(65535, 2)) == 65535
  {
    TwoBytes(65535);
  }

  lemma EightBytes(n: nat)
    requires n < SIZE
    ensures FromBigEndian(BigEndian(n / 0x1_0000_0000, 4)) * 0x1_0000_0000
              + FromBigEndian(BigEndian(n % 0x1_0000_0000, 4)) == n
  {
    assert Power256(2) == 65536 && Power256(3) == 0x100_0000 && Power256(4) == 0x1_0000_0000;
    BigEndianRoundTrip(n / 0x1_0000_0000, 4);
    BigEndianRoundTrip(n % 0x1_0000_0000, 4);
  }

  /** A sent frame is parsed as one whole frame with the payload that was sent. */
  lemma SentFrameParses(f: Frame, rest: seq<bv8>, noDefrag: bool)
    requires Deliverable(f, noDefrag)
    ensures var b := Encode(f) + rest;
            var r := ParseFrame(b, noDefrag);
            && r.Whole? && r.headerLen + r.dataLen == |Encode(f)|
            && MessageAt(b, r) == Message(Flags(f.op), f.payload)
            && b[|Encode(f)|..] == rest
  {
    hide Header, HeaderLen, DataLen, KeyLen, Masked, Flags, IsFragment, Encode;
    var body := if f.key == [] then f.payload else Masked(f.payload, f.key);
    var b := Encode(f) + rest;
    SentParts(f, body, rest);
    SentHeader(f, f.key + body + rest);
    if !noDefrag { FlagsNotFragment(f.op); }
    if f.key != [] { MaskingInvolutes(f.payload, f.key); }
  }

  /** Where the parts of a sent frame are. */
  lemma SentParts(f: Frame, body: seq<bv8>, rest: seq<bv8>)
    requires GoodKey(f.key) && body == if f.key == [] then f.payload else Masked(f.payload, f.key)
    ensures var b := Encode(f) + rest;
            var h := |Header(f)| + |f.key|;
            && b == Header(f) + (f.key + body + rest) && |Encode(f)| == h + |f.payload|
            && b[h..h + |f.payload|] == body && b[h + |f.payload|..] == rest
            && (f.key != [] ==> b[h - 4..h] == f.key)
  {
    hide Header, Masked;
    var b, h := Encode(f) + rest, |Header(f)| + |f.key|;
    assert b == Header(f) + (f.key + body + rest);
    assert b[h..h + |f.payload|] == body;
  }

  function EncodeAll(fs: seq<Frame>): seq<bv8> {
    if fs == [] then [] else Encode(fs[0]) + EncodeAll(fs[1..])
  }

  function Sent(fs: seq<Frame>): seq<Message> {
    if fs == [] then [] else [Message(Flags(fs[0].op), fs[0].payload)] + Sent(fs[1..])
  }

  lemma {:induction false} SentFramesDelivered(fs: seq<Frame>, rest: seq<bv8>, noDefrag: bool)
    requires forall f :: f in fs ==> Deliverable(f, noDefrag)
    ensures DeliverAll(EncodeAll(fs) + rest, noDefrag) == Before(Sent(fs), DeliverAll(rest, noDefrag))
    decreases |fs|
  {
    hide ParseFrame, MessageAt, Encode, DeliverAll, Flags;
    if fs == [] {
      assert EncodeAll(fs) + rest == rest;
      assert [] + DeliverAll(rest, noDefrag).messages == DeliverAll(rest, noDefrag).messages;
    } else {
      assert fs[0] in fs && forall f :: f in fs[1..] ==> f in fs;
      var more := EncodeAll(fs[1..]) + rest;
      assert EncodeAll(fs) + rest == Encode(fs[0]) + more;
      SentFrameParses(fs[0], more, noDefrag);
      DeliverCases(Encode(fs[0]) + more, noDefrag);
      SentFramesDelivered(fs[1..], rest, noDefrag);
      Associates([Message(Flags(fs[0].op), fs[0].payload)], Sent(fs[1..]), DeliverAll(rest, noDefrag).messages);
    }
  }

  // ---- bytes arriving in pieces --------------------------------------------

  lemma ParseStable(b: seq<bv8>, x: seq<bv8>, noDefrag: bool)
    ensures !ParseFrame(b, noDefrag).NeedMore? ==> ParseFrame(b + x, noDefrag) == ParseFrame(b, noDefrag)
  {
    hide FromBigEndian, ValueOf, KeyLen, IsFragment;
    if |b| >= 2 && HeaderLen(b) > 0 {
      HeaderStable(b, x);
    }
  }

  lemma HeaderStable(b: seq<bv8>, x: seq<bv8>)
    requires |b| >= 2 && HeaderLen(b) > 0
    ensures HeaderLen(b + x) == HeaderLen(b) && DataLen(b + x) == DataLen(b)
  {
    hide FromBigEndian, ValueOf;
    if |b| >= 10 {
      assert (b + x)[2..6] == b[2..6] && (b + x)[6..10] == b[6..10];
    }
    if |b| >= 4 {
      assert (b + x)[2..4] == b[2..4];
    }
  }

  /** Delivering what has arrived and then the rest is delivering everything at once. */
  lemma {:induction false} DeliverInPieces(b: seq<bv8>, x: seq<bv8>, noDefrag: bool)
    ensures var d := DeliverAll(b, noDefrag);
            && (!d.stuck ==> DeliverAll(b + x, noDefrag) == Before(d.messages, DeliverAll(d.rest + x, noDefrag)))
            && (d.stuck ==> DeliverAll(b + x, noDefrag) == Delivery(d.messages, d.rest + x, true))
    decreases |b|
  {
    hide ParseFrame, DeliverAll, MessageAt;
    DeliverCases(b, noDefrag);
    DeliverCases(b + x, noDefrag);
    ParseStable(b, x, noDefrag);
    var r := ParseFrame(b, noDefrag);
    if r.Whole? {
      var n := r.headerLen + r.dataLen;
      assert (b + x)[n..] == b[n..] + x;
      assert MessageAt(b + x, r) == MessageAt(b, r) by { MessageStable(b, x, r); }
      DeliverInPieces(b[n..], x, noDefrag);
      var first, d := [MessageAt(b, r)], DeliverAll(b[n..], noDefrag);
      var later := DeliverAll(d.rest + x, noDefrag).messages;
      assert first + (d.messages + later) == first + d.messages + later;
    } else if r.NeedMore? {
      assert [] + DeliverAll(b + x, noDefrag).messages == DeliverAll(b + x, noDefrag).messages;
    }
  }

  lemma MessageStable(b: seq<bv8>, x: seq<bv8>, r: Parsed)
    requires r.Whole? && 2 + r.keyLen <= r.headerLen && r.headerLen + r.dataLen <= |b|
    requires (r.keyLen == 0 || r.keyLen == 4)
    ensures MessageAt(b + x, r) == MessageAt(b, r)
  {
    hide Masked;
    var h := r.headerLen;
    assert (b + x)[h..h + r.dataLen] == b[h..h + r.dataLen];
    if r.keyLen == 4 {
      assert (b + x)[h - 4..h] == b[h - 4..h];
    }
  }

  /** A run of MG_EV_RECV events: each read is appended to what was left over. */
  function ReceiveAll(pieces: seq<seq<bv8>>, noDefrag: bool): Delivery {
    if pieces == [] then Delivery([], [], false)
    else
      var d := ReceiveAll(pieces[..|pieces| - 1], noDefrag);
      Before(d.messages, DeliverAll(d.rest + pieces[|pieces| - 1], noDefrag))
  }

  lemma {:induction false} StuckStays(d: seq<bv8>, x: seq<bv8>, noDefrag: bool)
    requires DeliverAll(d, noDefrag) == Delivery([], d, true)
    ensures DeliverAll(d + x, noDefrag) == Delivery([], d + x, true)
  {
    DeliverInPieces(d, x, noDefrag);
  }

  lemma {:induction false} RestIsStuck(b: seq<bv8>, noDefrag: bool)
    ensures var d := DeliverAll(b, noDefrag); DeliverAll(d.rest, noDefrag) == Delivery([], d.rest, d.stuck)
    decreases |b|
  {
    hide ParseFrame, DeliverAll, MessageAt;
    DeliverCases(b, noDefrag);
    var r := ParseFrame(b, noDefrag);
    if r.Whole? {
      RestIsStuck(b[r.headerLen + r.dataLen..], noDefrag);
    }
  }

  /** However the bytes are cut, the messages delivered and the bytes kept are those of one delivery
    of everything received. */
  lemma {:induction false} CutsDoNotMatter(pieces: seq<seq<bv8>>, noDefrag: bool)
    ensures ReceiveAll(pieces, noDefrag) == DeliverAll(Joined(pieces), noDefrag)
  {
    hide ParseFrame, DeliverAll, MessageAt;
    if pieces == [] {
      DeliverCases([], noDefrag);
      NothingNeedsMore(noDefrag);
    } else {
      var n := |pieces| - 1;
      CutsDoNotMatter(pieces[..n], noDefrag);
      var before, x := Joined(pieces[..n]), pieces[n];
      DeliverInPieces(before, x, noDefrag);
      RestIsStuck(before, noDefrag);
      var d := DeliverAll(before, noDefrag);
      if d.stuck {
        StuckStays(d.rest, x, noDefrag);
        assert d.messages + [] == d.messages;
      }
    }
  }

  lemma NothingNeedsMore(noDefrag: bool)
    ensures ParseFrame([], noDefrag) == NeedMore
  {
  }

  /** A frame still under way, cut anywhere before its end, asks for more. */
  lemma UnfinishedNeedsMore(f: Frame, partial: seq<bv8>, noDefrag: bool)
    requires Deliverable(f, noDefrag) && partial < Encode(f)
    ensures ParseFrame(partial, noDefrag).NeedMore?
  {
    hide Encode, HeaderLen, DataLen, KeyLen, IsFragment;
    var x := Encode(f)[|partial|..];
    assert partial + x == Encode(f) + [];
    ParseStable(partial, x, noDefrag);
    SentFrameParses(f, [], noDefrag);
  }

  /** Any sequence of deliverable frames with one more still under way, cut into arbitrary reads, is
    delivered as exactly the payloads of the finished ones, and the bytes of the other are kept. */
  lemma FramesSurvive(fs: seq<Frame>, next: Frame, partial: seq<bv8>, pieces: seq<seq<bv8>>, noDefrag: bool)
    requires (forall f :: f in fs ==> Deliverable(f, noDefrag)) && Deliverable(next, noDefrag)
    requires partial < Encode(next) && Joined(pieces) == EncodeAll(fs) + partial
    ensures ReceiveAll(pieces, noDefrag) == Delivery(Sent(fs), partial, false)
  {
    hide ParseFrame, DeliverAll, MessageAt, Encode;
    UnfinishedNeedsMore(next, partial, noDefrag);
    CutsDoNotMatter(pieces, noDefrag);
    SentFramesDelivered(fs, partial, noDefrag);
    DeliverCases(partial, noDefrag);
    assert Sent(fs) + [] == Sent(fs);
  }
}
