/** MD5 as dev/svr/3rd/mongoose.c computes it, for a little-endian host (byteReverse does
  nothing): rewritten boolean functions, registers that change roles, a context whose
  counter only sees the low 32 bits of each length, and a final block padded in place.
  The reference is RFC 1321: the steps of section 3.4 and the padding of sections 3.1 and 3.2. */
module Md5 {
  import opened BlockStream
  import opened Common

  datatype State = State(a: bv32, b: bv32, c: bv32, d: bv32)

  const INIT := State(0x67452301, 0xefcdab89, 0x98badcfe, 0x10325476)

  function Rol(x: bv32, s: bv6): bv32
    requires s < 32
  {
    (x << s) | (x >> (32 - s))
  }

  function Add(x: bv32, y: bv32): bv32 { x + y }

  function Sum4(p: bv32, q: bv32, r: bv32, s: bv32): bv32 { p + q + r + s }

  // ---- RFC 1321, section 3.4 -----------------------------------------------

  function Word(b: seq<bv8>, i: nat): bv32
    requires 4 * i + 3 < |b|
  {
    (b[4 * i + 3] as bv32 << 24) | (b[4 * i + 2] as bv32 << 16) | (b[4 * i + 1] as bv32 << 8) | b[4 * i] as bv32
  }

  /** The first byte is the lowest. */
  lemma WordIsValue(b: seq<bv8>, i: nat)
    requires 4 * i + 3 < |b|
    ensures Word(b, i) == b[4 * i] as bv32 + b[4 * i + 1] as bv32 * 0x100
                          + b[4 * i + 2] as bv32 * 0x1_0000 + b[4 * i + 3] as bv32 * 0x100_0000
  {
  }

  /** A rotation moves the lowest bit up by its distance and is undone by moving the bits back. */
  lemma RolTurns(x: bv32, s: bv6)
    requires s < 32
    ensures Rol(1, s) == 1 << s && (Rol(x, s) >> s) | (Rol(x, s) << (32 - s)) == x
  {
  }

  function F(x: bv32, y: bv32, z: bv32): bv32 { (x & y) | (!x & z) }
  function G(x: bv32, y: bv32, z: bv32): bv32 { (x & z) | (y & !z) }
  function H(x: bv32, y: bv32, z: bv32): bv32 { x ^ y ^ z }
  function I(x: bv32, y: bv32, z: bv32): bv32 { y ^ (x | !z) }

  function Auxiliary(i: nat, x: bv32, y: bv32, z: bv32): bv32 {
    if i < 16 then F(x, y, z) else if i < 32 then G(x, y, z) else if i < 48 then H(x, y, z) else I(x, y, z)
  }

  /** Which message word step i reads. */
  function WordIndex(i: nat): (k: nat)
    ensures k < 16
  {
    if i < 16 then i % 16 else if i < 32 then (5 * i + 1) % 16 else if i < 48 then (3 * i + 5) % 16 else 7 * i % 16
  }

  function Shift(i: nat): (s: bv6)
    ensures s < 32
  {
    var k := i % 4;
    if i < 16 then Pick(k, 7, 12, 17, 22) else if i < 32 then Pick(k, 5, 9, 14, 20)
    else if i < 48 then Pick(k, 4, 11, 16, 23) else Pick(k, 6, 10, 15, 21)
  }

  function Pick(k: nat, s0: bv6, s1: bv6, s2: bv6, s3: bv6): bv6 {
    if k == 0 then s0 else if k == 1 then s1 else if k == 2 then s2 else s3
  }

  /** The table T[1 .. 64], from 0. */
  function Sine(i: nat): bv32
    requires i < 64
  {
    var k := i % 4;
    if i < 4 then Entry(k, 0xd76aa478, 0xe8c7b756, 0x242070db, 0xc1bdceee)
    else if i < 8 then Entry(k, 0xf57c0faf, 0x4787c62a, 0xa8304613, 0xfd469501)
    else if i < 12 then Entry(k, 0x698098d8, 0x8b44f7af, 0xffff5bb1, 0x895cd7be)
    else if i < 16 then Entry(k, 0x6b901122, 0xfd987193, 0xa679438e, 0x49b40821)
    else if i < 20 then Entry(k, 0xf61e2562, 0xc040b340, 0x265e5a51, 0xe9b6c7aa)
    else if i < 24 then Entry(k, 0xd62f105d, 0x02441453, 0xd8a1e681, 0xe7d3fbc8)
    else if i < 28 then Entry(k, 0x21e1cde6, 0xc33707d6, 0xf4d50d87, 0x455a14ed)
    else if i < 32 then Entry(k, 0xa9e3e905, 0xfcefa3f8, 0x676f02d9, 0x8d2a4c8a)
    else if i < 36 then Entry(k, 0xfffa3942, 0x8771f681, 0x6d9d6122, 0xfde5380c)
    else if i < 40 then Entry(k, 0xa4beea44, 0x4bdecfa9, 0xf6bb4b60, 0xbebfbc70)
    else if i < 44 then Entry(k, 0x289b7ec6, 0xeaa127fa, 0xd4ef3085, 0x04881d05)
    else if i < 48 then Entry(k, 0xd9d4d039, 0xe6db99e5, 0x1fa27cf8, 0xc4ac5665)
    else if i < 52 then Entry(k, 0xf4292244, 0x432aff97, 0xab9423a7, 0xfc93a039)
    else if i < 56 then Entry(k, 0x655b59c3, 0x8f0ccc92, 0xffeff47d, 0x85845dd1)
    else if i < 60 then Entry(k, 0x6fa87e4f, 0xfe2ce6e0, 0xa3014314, 0x4e0811a1)
    else Entry(k, 0xf7537e82, 0xbd3af235, 0x2ad7d2bb, 0xeb86d391)
  }

  function Entry(k: nat, t0: bv32, t1: bv32, t2: bv32, t3: bv32): bv32 {
    if k == 0 then t0 else if k == 1 then t1 else if k == 2 then t2 else t3
  }

  /** a = b + ((a + aux(b, c, d) + X[k] + T[i]) <<< s) */
  function Operation(block: seq<bv8>, i: nat, a: bv32, b: bv32, c: bv32, d: bv32): bv32
    requires |block| == 64 && i < 64
  {
    Add(b, Rol(Sum4(a, Auxiliary(i, b, c, d), Word(block, WordIndex(i)), Sine(i)), Shift(i)))
  }

  function Steps(block: seq<bv8>, i: nat, s: State): State
    requires |block| == 64 && i <= 64
  {
    if i == 0 then s
    else
      var r := Steps(block, i - 1, s);
      State(r.d, Operation(block, i - 1, r.a, r.b, r.c, r.d), r.b, r.c)
  }

  function Compress(s: State, block: seq<bv8>): State {
    if |block| != 64 then s
    else
      var r := Steps(block, 64, s);
      State(Add(s.a, r.a), Add(s.b, r.b), Add(s.c, r.c), Add(s.d, r.d))
  }

  // ---- the block function as written ---------------------------------------

  // The indices of `in` in the MD5STEP lines, one group of sixteen a round.
  function Row1(): (r: seq<int>)
    ensures |r| == 16
  {
    [0, 1, 2, 3, 4, 5, 6, 7, 8, 9, 10, 11, 12, 13, 14, 15]
  }

  function Row2(): (r: seq<int>)
    ensures |r| == 16
  {
    [1, 6, 11, 0, 5, 10, 15, 4, 9, 14, 3, 8, 13, 2, 7, 12]
  }

  function Row3(): (r: seq<int>)
    ensures |r| == 16
  {
    [5, 8, 11, 14, 1, 4, 7, 10, 13, 0, 3, 6, 9, 12, 15, 2]
  }

  function Row4(): (r: seq<int>)
    ensures |r| == 16
  {
    [0, 7, 14, 5, 12, 3, 10, 1, 8, 15, 6, 13, 4, 11, 2, 9]
  }

  function SourceIndex(i: nat): int
    requires i < 64
  {
    if i < 16 then Row1()[i] else if i < 32 then Row2()[i - 16] else if i < 48 then Row3()[i - 32] else Row4()[i - 48]
  }

  lemma SourceIndexIsFormula(i: nat)
    requires i < 64
    ensures SourceIndex(i) == WordIndex(i)
  {
    hide Row1, Row2, Row3, Row4;
    if i < 16 {
      Row1IsFormula(i);
    } else if i < 32 {
      Row2IsFormula(i - 16);
      DropSixteens(5 * (i - 16) + 1, 5);
    } else if i < 48 {
      Row3IsFormula(i - 32);
      DropSixteens(3 * (i - 32) + 5, 6);
    } else {
      Row4IsFormula(i - 48);
      DropSixteens(7 * (i - 48), 21);
    }
  }

  lemma DropSixteens(x: nat, k: nat)
    ensures (x + 16 * k) % 16 == x % 16
  {
  }

  lemma Row1IsFormula(j: nat)
    requires j < 16
    ensures Row1()[j] == j
  {
  }

  lemma Row2IsFormula(j: nat)
    requires j < 16
    ensures Row2()[j] == (5 * j + 1) % 16
  {
  }

  lemma Row3IsFormula(j: nat)
    requires j < 16
    ensures Row3()[j] == (3 * j + 5) % 16
  {
  }

  lemma Row4IsFormula(j: nat)
    requires j < 16
    ensures Row4()[j] == 7 * j % 16
  {
  }

  function F1(x: bv32, y: bv32, z: bv32): bv32 { z ^ (x & (y ^ z)) }
  function F2(x: bv32, y: bv32, z: bv32): bv32 { F1(z, x, y) }
  function F3(x: bv32, y: bv32, z: bv32): bv32 { x ^ y ^ z }
  function F4(x: bv32, y: bv32, z: bv32): bv32 { y ^ (x | !z) }

  /** The function named in the i-th MD5STEP line. */
  function SourceFunction(i: nat, x: bv32, y: bv32, z: bv32): bv32 {
    if i < 16 then F1(x, y, z) else if i < 32 then F2(x, y, z) else if i < 48 then F3(x, y, z) else F4(x, y, z)
  }

  lemma F1IsF(x: bv32, y: bv32, z: bv32)
    ensures F1(x, y, z) == F(x, y, z)
  {
    assert z ^ (x & (y ^ z)) == (x & y) | (!x & z);
  }

  lemma F2IsG(x: bv32, y: bv32, z: bv32)
    ensures F2(x, y, z) == G(x, y, z)
  {
    assert y ^ (z & (x ^ y)) == (x & z) | (y & !z);
  }

  lemma SourceFunctionIsAuxiliary(i: nat, x: bv32, y: bv32, z: bv32)
    ensures SourceFunction(i, x, y, z) == Auxiliary(i, x, y, z)
  {
    hide F1, F2, F, G;
    if i < 16 {
      F1IsF(x, y, z);
    } else if i < 32 {
      F2IsG(x, y, z);
    }
  }

  /** The sum MD5STEP adds up: w += f(x, y, z) + (in[k] + T). */
  function Gather(w: bv32, f: bv32, x: bv32, t: bv32): bv32 { w + (f + (x + t)) }

  lemma GatherIsSum(w: bv32, f: bv32, x: bv32, t: bv32)
    ensures Gather(w, f, x, t) == Sum4(w, f, x, t)
  {
  }

  /** The i-th MD5STEP line: the new value of w. */
  method Step(block: seq<bv8>, i: nat, w0: bv32, x: bv32, y: bv32, z: bv32) returns (w: bv32)
    requires |block| == 64 && i < 64
    ensures w == Operation(block, i, w0, x, y, z)
  {
    hide *;
    SourceIndexIsFormula(i);
    SourceFunctionIsAuxiliary(i, x, y, z);
    GatherIsSum(w0, SourceFunction(i, x, y, z), Word(block, WordIndex(i)), Sine(i));
    OperationUnfolds(block, i, w0, x, y, z);
    w := Gather(w0, SourceFunction(i, x, y, z), Word(block, SourceIndex(i)), Sine(i));
    w := Rol(w, Shift(i));
    w := Add(x, w);
  }

  lemma OperationUnfolds(block: seq<bv8>, i: nat, a: bv32, b: bv32, c: bv32, d: bv32)
    requires |block| == 64 && i < 64
    ensures Operation(block, i, a, b, c, d)
         == Add(b, Rol(Sum4(a, Auxiliary(i, b, c, d), Word(block, WordIndex(i)), Sine(i)), Shift(i)))
  {
  }

  lemma StepsStep(block: seq<bv8>, i: nat, s: State)
    requires |block| == 64 && i < 64
    ensures Steps(block, 0, s) == s
    ensures var r := Steps(block, i, s);
            Steps(block, i + 1, s) == State(r.d, Operation(block, i, r.a, r.b, r.c, r.d), r.b, r.c)
  {
  }

  ghost function StateOf(buf: array<bv32>): State
    requires buf.Length == 4
    reads buf
  {
    State(buf[0], buf[1], buf[2], buf[3])
  }

  /** Four consecutive MD5STEP lines: each register is the one updated once. */
  method FourSteps(block: seq<bv8>, i: nat, a0: bv32, b0: bv32, c0: bv32, d0: bv32, ghost s0: State)
    returns (a: bv32, b: bv32, c: bv32, d: bv32)
    requires |block| == 64 && i < 61
    requires State(a0, b0, c0, d0) == Steps(block, i, s0)
    ensures State(a, b, c, d) == Steps(block, i + 4, s0)
  {
    hide *;
    a := Step(block, i, a0, b0, c0, d0);
    StepsStep(block, i, s0);
    d := Step(block, i + 1, d0, a, b0, c0);
    StepsStep(block, i + 1, s0);
    c := Step(block, i + 2, c0, d, a, b0);
    StepsStep(block, i + 2, s0);
    b := Step(block, i + 3, b0, c, d, a);
    StepsStep(block, i + 3, s0);
  }

  /** MD5Transform: the source's sixty-four macro uses are sixteen groups of four. */
  method Transform(buf: array<bv32>, block: seq<bv8>)
    requires buf.Length == 4 && |block| == 64
    modifies buf
    ensures StateOf(buf) == Compress(old(StateOf(buf)), block)
  {
    hide Steps, Add;
    ghost var s0 := StateOf(buf);
    var a, b, c, d := buf[0], buf[1], buf[2], buf[3];
    StepsStep(block, 0, s0);
    var i := 0;
    while i < 64
      invariant 0 <= i <= 64 && i % 4 == 0
      invariant StateOf(buf) == s0
      invariant State(a, b, c, d) == Steps(block, i, s0)
    {
      a, b, c, d := FourSteps(block, i, a, b, c, d, s0);
      i := i + 4;
    }
    buf[0] := Add(buf[0], a);
    buf[1] := Add(buf[1], b);
    buf[2] := Add(buf[2], c);
    buf[3] := Add(buf[3], d);
  }

  // ---- the reference digest: RFC 1321, sections 3.1, 3.2 and 3.5 -----------

  /** The 64-bit little-endian count that ends the padding. */
  function CountBytes(bits: nat): (r: seq<bv8>)
    ensures |r| == 8
  {
    [CountByte(bits, 0), CountByte(bits, 1), CountByte(bits, 2), CountByte(bits, 3),
     CountByte(bits, 4), CountByte(bits, 5), CountByte(bits, 6), CountByte(bits, 7)]
  }

  /** The message padded with a given bit count. */
  function PadWith(m: seq<bv8>, bits: nat): seq<bv8> {
    m + [0x80] + Zeros(ZeroCount(|m|)) + CountBytes(bits)
  }

  function Pad(m: seq<bv8>): seq<bv8> {
    PadWith(m, 8 * |m| % COUNTER)
  }

  function WordByte(w: bv32, i: nat): bv8 {
    if i == 0 then (w & 255) as bv8 else if i == 1 then ((w >> 8) & 255) as bv8
    else if i == 2 then ((w >> 16) & 255) as bv8 else (w >> 24) as bv8
  }

  function DigestBytes(s: State): (r: seq<bv8>)
    ensures |r| == 16
  {
    seq(16, i requires 0 <= i < 16 =>
      WordByte(if i < 4 then s.a else if i < 8 then s.b else if i < 12 then s.c else s.d, i % 4))
  }

  function Register(s: State, k: nat): bv32 {
    if k == 0 then s.a else if k == 1 then s.b else if k == 2 then s.c else s.d
  }

  /** The digest holds the four registers in order, each with its lowest byte first. */
  lemma DigestWords(s: State, k: nat)
    requires k < 4
    ensures Word(DigestBytes(s), k) == Register(s, k)
  {
    hide WordByte, DigestBytes, Register;
    DigestByteAt(s, k, 0);
    DigestByteAt(s, k, 1);
    DigestByteAt(s, k, 2);
    DigestByteAt(s, k, 3);
    WordBytesJoin(Register(s, k));
  }

  lemma DigestByteAt(s: State, k: nat, j: nat)
    requires k < 4 && j < 4
    ensures DigestBytes(s)[4 * k + j] == WordByte(Register(s, k), j)
  {
    hide WordByte;
    assert (4 * k + j) % 4 == j;
    if k == 0 { assert 4 * k + j < 4; } else { assert 4 * k + j >= 4; }
    if k <= 1 { assert 4 * k + j < 8; } else { assert 4 * k + j >= 8; }
    if k <= 2 { assert 4 * k + j < 12; } else { assert 4 * k + j >= 12; }
  }

  lemma WordBytesJoin(w: bv32)
    ensures (WordByte(w, 3) as bv32 << 24) | (WordByte(w, 2) as bv32 << 16) | (WordByte(w, 1) as bv32 << 8)
            | WordByte(w, 0) as bv32 == w
  {
  }

  function DigestOf(padded: seq<bv8>): seq<bv8> {
    DigestBytes(Absorb(Compress, INIT, padded))
  }

  // ---- the incremental context ---------------------------------------------

  class Context {
    const buf: array<bv32>
    const input: array<bv8>
    var bits0: nat
    var bits1: nat
    /** Everything fed in since Init. */
    ghost var message: seq<bv8>
    /** The byte total the counter has seen: lengths are truncated to 32 bits. */
    ghost var counted: nat

    ghost predicate Valid()
      reads this, buf, input
    {
      && buf.Length == 4 && input.Length == 64
      && Counts(bits0, bits1, counted) && counted % 64 == |message| % 64
      && StateOf(buf) == Absorb(Compress, INIT, message)
      && input[..|message| % 64] == Residue(message)
    }

    constructor ()
      ensures Valid() && message == [] && counted == 0 && fresh(buf) && fresh(input)
    {
      buf := new bv32[4];
      input := new bv8[64];
      bits0, bits1, message, counted := 0, 0, [], 0;
      new;
      buf[0], buf[1], buf[2], buf[3] := 0x67452301, 0xefcdab89, 0x98badcfe, 0x10325476;
    }

    /** memcpy(input + at, data, |data|). */
    method Fill(at: nat, data: seq<bv8>)
      requires input.Length == 64 && at + |data| <= 64
      modifies input
      ensures input[..] == old(input[..at]) + data + old(input[at + |data|..])
    {
      forall k | 0 <= k < |data| {
        input[at + k] := data[k];
      }
    }

    /** The while loop of MD5_Update over whole blocks. */
    method TakeBlocks(data: seq<bv8>, from: nat) returns (i: nat)
      requires buf.Length == 4 && input.Length == 64 && from <= |data|
      requires |message + data[..from]| % 64 == 0
      requires StateOf(buf) == Absorb(Compress, INIT, message + data[..from])
      modifies buf, input
      ensures from <= i <= |data| < i + 64 && |message + data[..i]| % 64 == 0
      ensures StateOf(buf) == Absorb(Compress, INIT, message + data[..i])
    {
      hide Absorb, Compress, Residue;
      i := from;
      while |data| - i >= 64
        invariant from <= i <= |data|
        invariant |message + data[..i]| % 64 == 0
        invariant StateOf(buf) == Absorb(Compress, INIT, message + data[..i])
      {
        ghost var done := message + data[..i];
        var block := data[i..i + 64];
        AbsorbBlock(Compress, INIT, done, block);
        assert Residue(done) + block == block;
        assert done + block == message + data[..i + 64];
        Fill(0, block);
        assert input[..] == block;
        Transform(buf, input[..]);
        i := i + 64;
      }
    }

    /** Copy the bytes after position i to the front of the pending block. */
    method KeepRest(data: seq<bv8>, i: nat)
      requires buf.Length == 4 && input.Length == 64
      requires i <= |data| < i + 64 && |message + data[..i]| % 64 == 0
      requires StateOf(buf) == Absorb(Compress, INIT, message + data[..i])
      modifies input
      ensures StateOf(buf) == Absorb(Compress, INIT, message + data)
      ensures input[..|message + data| % 64] == Residue(message + data)
    {
      hide Absorb, Compress, Residue;
      ghost var done := message + data[..i];
      assert done + data[i..] == message + data;
      AbsorbShort(Compress, INIT, done, data[i..]);
      Fill(0, data[i..]);
      assert Residue(done) == [];
      assert input[..|data[i..]|] == Residue(done) + data[i..];
    }

    /** MD5_Update, for any length a size_t can hold. */
    method Update(data: seq<bv8>)
      requires Valid() && |data| < COUNTER
      modifies this`bits0, this`bits1, this`message, this`counted, buf, input
      ensures Valid() && message == old(message) + data
      ensures counted == old(counted) + |data| % WORD
    {
      hide Absorb, Compress, Residue, AddBits, Counts;
      ghost var m := message;
      var t := bits0 / 8 % 64;
      BlockPosition(bits0, bits1, counted);
      AddBitsCounts(bits0, bits1, |data| % WORD, counted);
      TruncatedPosition(counted, |m|, |data|);
      var bits := AddBits(bits0, bits1, |data| % WORD);
      bits0, bits1, counted := bits.0, bits.1, counted + |data| % WORD;
      var i := 0;
      if t != 0 {
        if |data| < 64 - t {
          AbsorbShort(Compress, INIT, m, data);
          Fill(t, data);
          assert input[..t + |data|] == Residue(m) + data;
          message := m + data;
          return;
        }
        i := 64 - t;
        Fill(t, data[..i]);
        assert input[..] == Residue(m) + data[..i];
        AbsorbBlock(Compress, INIT, m, data[..i]);
        Transform(buf, input[..]);
      } else {
        assert m + data[..0] == m;
      }
      i := TakeBlocks(data, i);
      KeepRest(data, i);
      message := m + data;
    }

    /** The padding of MD5_Final, up to the last block function call: inside the pending block,
      or spilling into a second one when fewer than eight bytes are left. */
    method PadOut(ghost bits: nat)
      requires Valid() && bits == 8 * counted % COUNTER
      modifies buf, input
      ensures StateOf(buf) == Absorb(Compress, INIT, PadWith(message, bits))
    {
      hide Absorb, Compress, Counts, CountBytes, ZeroCount, PadWith;
      var count := bits0 / 8 % 64;
      BlockPosition(bits0, bits1, counted);
      CountsMeans(bits0, bits1, counted);
      Fill(count, [0x80]);
      assert input[..count + 1] == Residue(message) + [0x80];
      if 63 - count < 8 {
        Spill(count + 1, bits);
      } else {
        PadHere(count + 1, bits);
      }
      Transform(buf, input[..]);
    }

    ghost predicate Marked(p: nat, bits: nat)
      reads this, buf, input
    {
      && buf.Length == 4 && input.Length == 64 && p == |message| % 64 + 1
      && bits0 < WORD && bits1 < WORD && bits == bits0 + bits1 * WORD
      && StateOf(buf) == Absorb(Compress, INIT, message)
      && input[..p] == Residue(message) + [0x80]
    }

    method PadHere(p: nat, ghost bits: nat)
      requires Marked(p, bits) && 64 - p >= 8
      modifies input
      ensures Compress(StateOf(buf), input[..]) == Absorb(Compress, INIT, PadWith(message, bits))
    {
      hide Absorb, Compress, CountBytes, ZeroCount;
      ZeroCountSplits(|message|);
      Fill(p, Zeros(56 - p));
      ghost var tail := [0x80] + Zeros(56 - p) + CountBytes(bits);
      assert input[..56] == Residue(message) + [0x80] + Zeros(56 - p);
      StoreCount(bits0, bits1, bits);
      assert input[..] == Residue(message) + tail;
      AbsorbBlock(Compress, INIT, message, tail);
      assert message + tail == PadWith(message, bits);
    }

    method Spill(p: nat, ghost bits: nat)
      requires Marked(p, bits) && 64 - p < 8
      modifies buf, input
      ensures Compress(StateOf(buf), input[..]) == Absorb(Compress, INIT, PadWith(message, bits))
    {
      hide Absorb, Compress, CountBytes, ZeroCount, PadWith, StateOf;
      Fill(p, Zeros(64 - p));
      ghost var first := [0x80] + Zeros(64 - p);
      assert input[..] == Residue(message) + first;
      AbsorbBlock(Compress, INIT, message, first);
      Transform(buf, input[..]);
      Fill(0, Zeros(56));
      StoreCount(bits0, bits1, bits);
      ghost var last := Zeros(56) + CountBytes(bits);
      assert input[..] == last;
      AbsorbBlock(Compress, INIT, message + first, last);
      assert Residue(message + first) + last == last;
      SpilledPadding(message, bits);
    }

    /** a[14] = bits[0]; a[15] = bits[1]; on a little-endian host. */
    method StoreCount(lo: nat, hi: nat, ghost bits: nat)
      requires input.Length == 64 && lo < WORD && hi < WORD && bits == lo + hi * WORD
      modifies input
      ensures input[..] == old(input[..56]) + CountBytes(bits)
    {
      hide CountByte;
      forall k | 0 <= k < 8 {
        input[56 + k] := CountByte(if k < 4 then lo else hi, k % 4);
      }
      CountByteSplit(lo, hi, 0);
      CountByteSplit(lo, hi, 1);
      CountByteSplit(lo, hi, 2);
      CountByteSplit(lo, hi, 3);
      assert input[56..] == CountBytes(bits);
      assert input[..] == input[..56] + input[56..];
    }

    /** MD5_Final: the digest, and a context erased to zeros. */
    method Final(digest: array<bv8>)
      requires Valid() && digest.Length == 16 && digest != input
      modifies this`bits0, this`bits1, buf, input, digest
      ensures digest[..] == DigestOf(PadWith(message, 8 * counted % COUNTER))
      ensures forall k :: 0 <= k < 4 ==>
                Word(digest[..], k) == Register(Absorb(Compress, INIT, PadWith(message, 8 * counted % COUNTER)), k)
      ensures bits0 == bits1 == 0 && StateOf(buf) == State(0, 0, 0, 0) && input[..] == Zeros(64)
    {
      hide Absorb, Compress, Residue, Counts, WordByte, PadWith, Word, Register;
      PadOut(8 * counted % COUNTER);
      forall i | 0 <= i < 16 {
        digest[i] := WordByte(buf[i / 4], i % 4);
      }
      assert digest[..] == DigestBytes(StateOf(buf));
      ghost var result, chained := digest[..], StateOf(buf);
      forall k | 0 <= k < 4
        ensures Word(result, k) == Register(chained, k)
      {
        DigestWords(chained, k);
      }
      forall i | 0 <= i < 4 {
        buf[i] := 0;
      }
      forall i | 0 <= i < 64 {
        input[i] := 0;
      }
      bits0, bits1 := 0, 0;
      assert digest[..] == result;
    }
  }

  lemma CountsMeans(lo: nat, hi: nat, total: nat)
    requires Counts(lo, hi, total)
    ensures lo < WORD && hi < WORD && lo + hi * WORD == 8 * total % COUNTER
  {
  }

  lemma TruncatedPosition(counted: nat, total: nat, len: nat)
    requires counted % 64 == total % 64
    ensures (counted + len % WORD) % 64 == (total + len) % 64
  {
    var a, b, q := counted / 64, total / 64, len / WORD;
    assert counted == 64 * a + counted % 64 && total == 64 * b + counted % 64;
    assert len == q * WORD + len % WORD;
    AddMultiple(counted + len % WORD, b - a + q * 0x400_0000);
  }

  lemma AddMultiple(x: int, k: int)
    ensures (x + 64 * k) % 64 == x % 64
  {
    var q := x / 64;
    assert x == 64 * q + x % 64;
    assert x + 64 * k == 64 * (q + k) + x % 64;
    DivUnique(x + 64 * k, q + k, x % 64);
  }

  lemma DivUnique(x: int, q: int, r: int)
    requires x == 64 * q + r && 0 <= r < 64
    ensures x % 64 == r
  {
  }

  lemma SpilledPadding(m: seq<bv8>, bits: nat)
    requires |m| % 64 > 55
    ensures m + ([0x80] + Zeros(63 - |m| % 64)) + (Zeros(56) + CountBytes(bits)) == PadWith(m, bits)
  {
    hide CountBytes, ZeroCount;
    ZeroCountSplits(|m|);
    assert Zeros(63 - |m| % 64) + Zeros(56) == Zeros(ZeroCount(|m|));
  }

  lemma ZeroCountSplits(n: nat)
    ensures n % 64 <= 55 ==> ZeroCount(n) == 55 - n % 64
    ensures n % 64 > 55 ==> ZeroCount(n) == (63 - n % 64) + 56
  {
  }

  /** The bytes the counter sees: MD5_Update keeps the low 32 bits of each length. */
  function CountedBytes(pieces: seq<seq<bv8>>): nat {
    if pieces == [] then 0
    else CountedBytes(pieces[..|pieces| - 1]) + |pieces[|pieces| - 1]| % WORD
  }

  /** What the counter does not see, in units of 2^32 bytes. */
  function DroppedWords(pieces: seq<seq<bv8>>): nat {
    if pieces == [] then 0
    else DroppedWords(pieces[..|pieces| - 1]) + |pieces[|pieces| - 1]| / WORD
  }

  /** Feeding any pieces, of any length a size_t can hold, gives the digest of their concatenation
    padded with the count kept. */
  method HashPieces(pieces: seq<seq<bv8>>) returns (digest: seq<bv8>)
    requires forall i :: 0 <= i < |pieces| ==> |pieces[i]| < COUNTER
    ensures digest == DigestOf(PadWith(Joined(pieces), 8 * CountedBytes(pieces) % COUNTER))
  {
    hide Absorb, Compress, Residue, Counts, PadWith, DigestOf;
    var ctx := new Context();
    var i := 0;
    while i < |pieces|
      invariant 0 <= i <= |pieces|
      invariant ctx.Valid() && fresh(ctx) && fresh(ctx.buf) && fresh(ctx.input)
      invariant ctx.message == Joined(pieces[..i]) && ctx.counted == CountedBytes(pieces[..i])
    {
      ctx.Update(pieces[i]);
      i := i + 1;
      assert pieces[..i][..i - 1] == pieces[..i - 1];
    }
    assert pieces[..i] == pieces;
    var out := new bv8[16];
    ctx.Final(out);
    digest := out[..];
  }

  lemma {:induction false} CountedAndDropped(pieces: seq<seq<bv8>>)
    ensures |Joined(pieces)| == CountedBytes(pieces) + DroppedWords(pieces) * WORD
  {
    if pieces != [] {
      var len := |pieces[|pieces| - 1]|;
      CountedAndDropped(pieces[..|pieces| - 1]);
      assert len == len / WORD * WORD + len % WORD;
    }
  }

  /** A count that leaves out some words of 2^32 bytes is right modulo 2^64 bits exactly when a
    multiple of 2^29 of them was left out. */
  lemma CountedExactly(counted: nat, dropped: nat)
    ensures 8 * counted % COUNTER == 8 * (counted + dropped * WORD) % COUNTER <==> dropped % 0x2000_0000 == 0
  {
    var k, h := dropped / 0x2000_0000, dropped % 0x2000_0000;
    var q, r := 8 * counted / COUNTER, 8 * counted % COUNTER;
    assert dropped == k * 0x2000_0000 + h;
    Regrouped(counted, dropped, k, h, q, r);
    Wraps(q + k, r + 8 * h * WORD);
    assert 8 * h * WORD < COUNTER;
    SmallShift(r, 8 * h * WORD);
  }

  lemma Regrouped(counted: nat, dropped: nat, k: nat, h: nat, q: nat, r: nat)
    requires dropped == k * 0x2000_0000 + h && 8 * counted == q * COUNTER + r
    ensures 8 * (counted + dropped * WORD) == (q + k) * COUNTER + (r + 8 * h * WORD)
  {
  }

  lemma SmallShift(r: nat, x: nat)
    requires r < COUNTER && x < COUNTER
    ensures (r + x) % COUNTER == r <==> x == 0
  {
  }

  lemma {:induction false} Wraps(k: nat, x: nat)
    ensures (k * COUNTER + x) % COUNTER == x % COUNTER
  {
    if k > 0 { Wraps(k - 1, x); }
  }

  /** Eight bytes hold a count below 2^64 without loss. */
  lemma CountBytesInjective(a: nat, b: nat)
    requires a < COUNTER && b < COUNTER && CountBytes(a) == CountBytes(b)
    ensures a == b
  {
    hide ShiftBytes, CountByte;
    BytesMakeCount(a);
    BytesMakeCount(b);
    forall k: nat | k < 8
      ensures CountByte(a, k) == CountByte(b, k)
    {
      assert CountBytes(a)[k] == CountByte(a, k) && CountBytes(b)[k] == CountByte(b, k);
    }
    SameBytesSameNumber(a, b, 8);
  }

  /** Whatever the pieces, the padding is that of RFC 1321 exactly when the updates together left
    out a multiple of 2^29 words of 2^32 bytes. */
  lemma PaddedRightExactly(pieces: seq<seq<bv8>>)
    ensures PadWith(Joined(pieces), 8 * CountedBytes(pieces) % COUNTER) == Pad(Joined(pieces))
       <==> DroppedWords(pieces) % 0x2000_0000 == 0
  {
    hide CountBytes;
    var m, kept, right := Joined(pieces), 8 * CountedBytes(pieces) % COUNTER, 8 * |Joined(pieces)| % COUNTER;
    CountedAndDropped(pieces);
    CountedExactly(CountedBytes(pieces), DroppedWords(pieces));
    var head := m + [0x80] + Zeros(ZeroCount(|m|));
    if PadWith(m, kept) == Pad(m) {
      assert CountBytes(kept) == PadWith(m, kept)[|head|..];
      assert CountBytes(right) == Pad(m)[|head|..];
      CountBytesInjective(kept, right);
    }
  }

  /** One update of 4 GiB leaves the counter at zero, and the message is padded as if it were empty. */
  method HashFourGibibytes(data: seq<bv8>) returns (lo: nat, hi: nat, digest: seq<bv8>)
    requires |data| == WORD
    ensures lo == 0 && hi == 0
    ensures digest == DigestOf(PadWith(data, 0)) && PadWith(data, 0) != Pad(data)
  {
    hide Absorb, Compress, Residue, PadWith, DigestOf;
    var ctx := new Context();
    ctx.Update(data);
    FourGibibytesMiscounted(data);
    lo, hi := ctx.bits0, ctx.bits1;
    var out := new bv8[16];
    assert ctx.message == data;
    ctx.Final(out);
    digest := out[..];
  }

  /** The 4 GiB message is not padded correctly. */
  lemma FourGibibytesMiscounted(data: seq<bv8>)
    requires |data| == WORD
    ensures AddBits(0, 0, |data| % WORD) == (0, 0) && PadWith(data, 0) != Pad(data)
  {
    hide PadWith, Pad;
    PaddedRightExactly([data]);
    assert [data][..0] == [];
    assert Joined([data]) == data;
    assert CountedBytes([data]) == 0 && DroppedWords([data]) == 1;
  }
}
