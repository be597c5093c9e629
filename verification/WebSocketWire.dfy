/** The bytes of a frame, read by sections 5.2 and 5.7 of RFC 6455. */
module WebSocketWire {
  import opened Numerals
  import opened WebSocket

  /** A byte counts for its value: 0 for the first one, and one more for each next one. */
  lemma ByteCounts(b: bv8)
    ensures ValueOf(0) == 0
    ensures b != 0xFF ==> ValueOf(b + 1) == ValueOf(b) + 1
  {
    var h, l := High(b), Low(b);
    if b != 0xFF {
      NextHalves(b);
      hide High, Low;
      HalfCounts(l);
      HalfCounts(h);
    }
  }

  lemma NextHalves(b: bv8)
    requires b != 0xFF
    ensures Low(b) != 15 ==> High(b + 1) == High(b) && Low(b + 1) == Low(b) + 1
    ensures Low(b) == 15 ==> High(b) != 15 && High(b + 1) == High(b) + 1 && Low(b + 1) == 0
  {
  }

  lemma HalfCounts(x: bv4)
    ensures (0 as bv4) as nat == 0 && (15 as bv4) as nat == 15
    ensures x != 15 ==> (x + 1) as nat == x as nat + 1
  {
  }

  // ---- the first two bytes -------------------------------------------------

  /** WEBSOCKET_DONT_FIN. */
  predicate DontFin(op: nat) { op / 0x100 % 2 == 1 }

  lemma HighBit(n: nat)
    requires n < 128
    ensures ByteOf(n) & 0x80 == 0 && ByteOf(n) & 0x7F == ByteOf(n)
    ensures ByteOf(n + 128) & 0x80 != 0 && ByteOf(n + 128) & 0x7F == ByteOf(n) && ByteOf(n) | 0x80 == ByteOf(n + 128)
  {
    var h, l := (n / 16) as bv4, (n % 16) as bv4;
    assert (n + 128) / 16 % 16 == n / 16 + 8 && (n + 128) % 16 == n % 16;
    SmallHalf(n / 16);
    HalfBits(h, l);
  }

  lemma SmallHalf(n: nat)
    requires n < 8
    ensures (n as bv4) < 8 && (n + 8) as bv4 == n as bv4 + 8
  {
  }

  lemma HalfBits(h: bv4, l: bv4)
    requires h < 8
    ensures Join(h, l) & 0x80 == 0 && Join(h, l) & 0x7F == Join(h, l)
    ensures Join(h + 8, l) & 0x80 != 0 && Join(h + 8, l) & 0x7F == Join(h, l) && Join(h, l) | 0x80 == Join(h + 8, l)
  {
  }

  /** FIN is the top bit, and the four low bits are the opcode. */
  lemma FirstByte(op: nat)
    ensures Flags(op) & 0x80 != 0 <==> !DontFin(op)
    ensures ValueOf(Flags(op) & 0x7F) == op % 16
  {
    hide ByteOf, ValueOf;
    HighBit(op % 16);
    ByteRoundTrip(op % 16);
  }

  /** Fragments are the frames without FIN and the continuations. */
  lemma FragmentIs(op: nat)
    ensures IsFragment(Flags(op)) <==> DontFin(op) || op % 16 == 0
  {
    var x, y := ByteOf(op % 16), ByteOf(op % 16 + 128);
    HighBit(op % 16);
    LowBits(op % 16);
  }

  lemma LowBits(n: nat)
    requires n < 16
    ensures ByteOf(n) & 0x0F == 0 <==> n == 0
    ensures ByteOf(n + 128) & 0x0F == 0 <==> n == 0
  {
    assert (n + 128) / 16 % 16 == 8 && (n + 128) % 16 == n && n / 16 == 0;
    ZeroHalf(n);
    JoinLow(0, n as bv4);
    JoinLow(8, n as bv4);
  }

  lemma ZeroHalf(n: nat)
    requires n < 16
    ensures n as bv4 == 0 <==> n == 0
  {
  }

  lemma JoinLow(h: bv4, l: bv4)
    ensures Join(h, l) & 0x0F == 0 <==> l == 0
  {
  }

  // ---- length, key and payload ---------------------------------------------

  /** Numbers in network byte order: the most significant byte comes first. */
  function Word16(e: seq<bv8>, i: nat): nat
    requires i + 2 <= |e|
  {
    ValueOf(e[i]) * 256 + ValueOf(e[i + 1])
  }

  function Word32(e: seq<bv8>, i: nat): nat
    requires i + 4 <= |e|
  {
    Word16(e, i) * 0x1_0000 + Word16(e, i + 2)
  }

  lemma TwoBytes(n: nat, e: seq<bv8>, i: nat)
    requires n < 0x1_0000 && i + 2 <= |e| && e[i..i + 2] == BigEndian(n, 2)
    ensures Word16(e, i) == n
  {
    hide ByteOf, ValueOf;
    var b := BigEndian(n, 2);
    assert BigEndian(n / 256, 1) == BigEndian(n / 256 / 256, 0) + [ByteOf(n / 256 % 256)];
    assert b == [ByteOf(n / 256 % 256), ByteOf(n % 256)];
    assert e[i] == b[0] && e[i + 1] == b[1];
    ByteRoundTrip(n / 256 % 256);
    ByteRoundTrip(n % 256);
  }

  lemma FourBytes(n: nat, e: seq<bv8>, i: nat)
    requires n < 0x1_0000_0000 && i + 4 <= |e| && e[i..i + 4] == BigEndian(n, 4)
    ensures Word32(e, i) == n
  {
    hide ByteOf, ValueOf, Word16;
    FrontHalf(n);
    var b := BigEndian(n, 4);
    assert e[i..i + 2] == b[..2] && e[i + 2..i + 4] == b[2..];
    TwoBytes(n / 0x1_0000, e, i);
    TwoBytes(n % 0x1_0000, e, i + 2);
  }

  lemma FrontHalf(n: nat)
    ensures BigEndian(n, 4) == BigEndian(n / 0x1_0000, 2) + BigEndian(n % 0x1_0000, 2)
  {
    hide ByteOf;
    var x, y := ByteOf(n / 256 % 256), ByteOf(n % 256);
    assert n / 256 / 256 == n / 0x1_0000 && n % 0x1_0000 / 256 % 256 == n / 256 % 256 && n % 0x1_0000 % 256 == n % 256;
    assert BigEndian(n, 4) == BigEndian(n / 256, 3) + [y] && BigEndian(n / 256, 3) == BigEndian(n / 0x1_0000, 2) + [x];
    var m := n % 0x1_0000;
    assert BigEndian(m, 2) == BigEndian(m / 256, 1) + [y] && BigEndian(m / 256, 1) == BigEndian(m / 256 / 256, 0) + [x];
    assert BigEndian(m, 2) == [x, y];
  }

  /** How many bytes of length follow the second byte. */
  function Extra(n: nat): nat { if n < 126 then 0 else if n < 65535 then 2 else 8 }

  /** The second byte and the length behind it: seven bits, or the marks 126 and 127 for 16 and 64 bits. */
  lemma LengthWritten(f: Frame)
    requires GoodKey(f.key) && |f.payload| < SIZE
    ensures var e, n := Encode(f), |f.payload|;
            && |e| == 2 + Extra(n) + |f.key| + n
            && (e[1] & 0x80 != 0 <==> f.key != [])
            && ValueOf(e[1] & 0x7F) == (if n < 126 then n else if Extra(n) == 2 then 126 else 127)
            && (Extra(n) == 2 ==> Word16(e, 2) == n)
            && (Extra(n) == 8 ==> Word32(e, 2) * 0x1_0000_0000 + Word32(e, 6) == n)
  {
    hide ByteOf, ValueOf, BigEndian, Masked, Word16, Word32, Flags;
    var e, n := Encode(f), |f.payload|;
    HighBit(LengthField(n));
    ByteRoundTrip(LengthField(n));
    assert e[2..2 + Extra(n)] == ExtendedLength(n);
    if Extra(n) == 2 {
      TwoBytes(n, e, 2);
    } else if Extra(n) == 8 {
      assert e[2..6] == e[2..10][..4] && e[6..10] == e[2..10][4..];
      FourBytes(n / 0x1_0000_0000, e, 2);
      FourBytes(n % 0x1_0000_0000, e, 6);
    }
  }

  /** Behind the length: the key, and octet i of the payload combined with octet i modulo 4 of the key. */
  lemma PayloadWritten(f: Frame)
    requires GoodKey(f.key)
    ensures var e, k := Encode(f), 2 + Extra(|f.payload|);
            && |e| == k + |f.key| + |f.payload| && e[0] == Flags(f.op) && e[k..k + |f.key|] == f.key
            && forall i :: 0 <= i < |f.payload| ==>
                 e[k + |f.key| + i] == if f.key == [] then f.payload[i] else f.payload[i] ^ f.key[i % 4]
  {
    hide ByteOf, ValueOf, BigEndian, Flags;
    var e, k := Encode(f), 2 + Extra(|f.payload|);
    assert |Header(f)| == k;
    assert e[k..k + |f.key|] == f.key;
  }

  // ---- the examples of section 5.7 -----------------------------------------

  lemma Short(f: Frame)
    requires GoodKey(f.key) && |f.payload| < 126
    ensures f.key == [] ==> Encode(f) == [Flags(f.op), ByteOf(|f.payload|)] + f.payload
    ensures f.key != [] ==>
              Encode(f) == [Flags(f.op), ByteOf(|f.payload| + 128)] + f.key + Masked(f.payload, f.key)
  {
    hide ByteOf, Flags, Masked;
    HighBit(|f.payload|);
    var h := [Flags(f.op), if f.key == [] then ByteOf(|f.payload|) else ByteOf(|f.payload| + 128)];
    assert h + [] == h;
  }

  lemma SmallBytes()
    ensures ByteOf(0x81) == 0x81 && ByteOf(1) == 1 && ByteOf(0x80) == 0x80 && ByteOf(0x85) == 0x85
    ensures ByteOf(5) == 5 && ByteOf(3) == 3 && ByteOf(2) == 2
  {
  }

  /** "Hello" in one frame, with and without a mask, and as "Hel" and "lo". */
  lemma Hello()
    ensures Encode(Frame(1, [], [0x48, 0x65, 0x6c, 0x6c, 0x6f])) == [0x81, 0x05, 0x48, 0x65, 0x6c, 0x6c, 0x6f]
    ensures Encode(Frame(1, [0x37, 0xfa, 0x21, 0x3d], [0x48, 0x65, 0x6c, 0x6c, 0x6f]))
         == [0x81, 0x85, 0x37, 0xfa, 0x21, 0x3d, 0x7f, 0x9f, 0x4d, 0x51, 0x58]
    ensures Encode(Frame(0x101, [], [0x48, 0x65, 0x6c])) == [0x01, 0x03, 0x48, 0x65, 0x6c]
    ensures Encode(Frame(0, [], [0x6c, 0x6f])) == [0x80, 0x02, 0x6c, 0x6f]
  {
    SmallBytes();
    FirstBytes();
    MaskedHello();
    hide ByteOf, Flags, Encode, Masked;
    Short(Frame(1, [], [0x48, 0x65, 0x6c, 0x6c, 0x6f]));
    Short(Frame(1, [0x37, 0xfa, 0x21, 0x3d], [0x48, 0x65, 0x6c, 0x6c, 0x6f]));
    Short(Frame(0x101, [], [0x48, 0x65, 0x6c]));
    Short(Frame(0, [], [0x6c, 0x6f]));
  }

  lemma FirstBytes()
    ensures Flags(1) == 0x81 && Flags(0x101) == 1 && Flags(0) == 0x80
  {
    SmallBytes();
    hide ByteOf;
  }

  lemma MaskedHello()
    ensures Masked([0x48, 0x65, 0x6c, 0x6c, 0x6f], [0x37, 0xfa, 0x21, 0x3d]) == [0x7f, 0x9f, 0x4d, 0x51, 0x58]
  {
  }
}
