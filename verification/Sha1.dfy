/** SHA-1 as dev/svr/3rd/mongoose.c computes it: a 16-word schedule rewritten in place,
  five registers that change roles instead of moving, and an incremental context.
  The reference is RFC 3174: the 80-word schedule of section 6.1 and the padding of section 4. */
module Sha1 {
  import opened BlockStream
  import opened Common

  datatype State = State(a: bv32, b: bv32, c: bv32, d: bv32, e: bv32)

  const INIT := State(0x67452301, 0xEFCDAB89, 0x98BADCFE, 0x10325476, 0xC3D2E1F0)

  // The macro rol at the five distances it is used with.
  function Rol1(x: bv32): bv32 { (x << 1) | (x >> 31) }
  function Rol5(x: bv32): bv32 { (x << 5) | (x >> 27) }
  function Rol8(x: bv32): bv32 { (x << 8) | (x >> 24) }
  function Rol24(x: bv32): bv32 { (x << 24) | (x >> 8) }
  function Rol30(x: bv32): bv32 { (x << 30) | (x >> 2) }

  // ---- RFC 3174, sections 5 and 6.1 ----------------------------------------

  /** Four bytes as a word, most significant first. */
  function Pack(b3: bv8, b2: bv8, b1: bv8, b0: bv8): bv32 {
    (b3 as bv32 << 24) | (b2 as bv32 << 16) | (b1 as bv32 << 8) | b0 as bv32
  }

  lemma PackIsValue(b3: bv8, b2: bv8, b1: bv8, b0: bv8)
    ensures Pack(b3, b2, b1, b0)
         == b3 as bv32 * 0x100_0000 + b2 as bv32 * 0x1_0000 + b1 as bv32 * 0x100 + b0 as bv32
  {
  }

  /** Each rotation moves the lowest bit up by its distance ... */
  lemma RotationsOfOne()
    ensures Rol1(1) == 2 && Rol5(1) == 0x20 && Rol8(1) == 0x100 && Rol24(1) == 0x100_0000 && Rol30(1) == 0x4000_0000
  {
  }

  // ... and loses no bit: turning on by the rest of the word undoes it.
  lemma Rol1Undone(x: bv32)
    ensures (Rol1(x) >> 1) | (Rol1(x) << 31) == x
  {
  }

  lemma Rol5Undone(x: bv32)
    ensures (Rol5(x) >> 5) | (Rol5(x) << 27) == x
  {
  }

  lemma Rol30Undone(x: bv32)
    ensures (Rol30(x) >> 30) | (Rol30(x) << 2) == x
  {
  }

  lemma Rol8Undone(x: bv32)
    ensures Rol24(Rol8(x)) == x && Rol8(Rol24(x)) == x
  {
  }

  function BigEndian(b: seq<bv8>, i: nat): bv32
    requires 4 * i + 3 < |b|
  {
    Pack(b[4 * i], b[4 * i + 1], b[4 * i + 2], b[4 * i + 3])
  }

  function F(t: nat, b: bv32, c: bv32, d: bv32): bv32 {
    if t < 20 then (b & c) | (!b & d)
    else if t < 40 then b ^ c ^ d
    else if t < 60 then (b & c) | (b & d) | (c & d)
    else b ^ c ^ d
  }

  function K(t: nat): bv32 {
    if t < 20 then 0x5A827999 else if t < 40 then 0x6ED9EBA1 else if t < 60 then 0x8F1BBCDC else 0xCA62C1D6
  }

  function Mix(p: bv32, q: bv32, r: bv32, s: bv32): bv32 {
    Rol1(p ^ q ^ r ^ s)
  }

  /** The 80-word schedule. */
  function W(block: seq<bv8>, t: nat): bv32
    requires |block| == 64
  {
    if t < 16 then BigEndian(block, t)
    else Mix(W(block, t - 3), W(block, t - 8), W(block, t - 14), W(block, t - 16))
  }

  // Sums modulo 2^32 are named so that proofs about whole rounds need not open them.
  function Sum5(p: bv32, q: bv32, r: bv32, s: bv32, t: bv32): bv32 { p + q + r + s + t }
  function Add(x: bv32, y: bv32): bv32 { x + y }

  /** TEMP of section 6.1(d). */
  function NextWord(block: seq<bv8>, t: nat, a: bv32, b: bv32, c: bv32, d: bv32, e: bv32): bv32
    requires |block| == 64
  {
    Sum5(Rol5(a), F(t, b, c, d), e, W(block, t), K(t))
  }

  function Round(block: seq<bv8>, t: nat, s: State): State
    requires |block| == 64
  {
    State(NextWord(block, t, s.a, s.b, s.c, s.d, s.e), s.a, Rol30(s.b), s.c, s.d)
  }

  function Rounds(block: seq<bv8>, t: nat, s: State): State
    requires |block| == 64
  {
    if t == 0 then s else Round(block, t - 1, Rounds(block, t - 1, s))
  }

  function Compress(s: State, block: seq<bv8>): State {
    if |block| != 64 then s
    else
      var r := Rounds(block, 80, s);
      State(Add(s.a, r.a), Add(s.b, r.b), Add(s.c, r.c), Add(s.d, r.d), Add(s.e, r.e))
  }

  // ---- the block function as written ---------------------------------------

  function LittleEndian(b: seq<bv8>, i: nat): bv32
    requires 4 * i + 3 < |b|
  {
    Pack(b[4 * i + 3], b[4 * i + 2], b[4 * i + 1], b[4 * i])
  }

  function SwapBytes(x: bv32): bv32 {
    (Rol24(x) & 0xFF00FF00) | (Rol8(x) & 0x00FF00FF)
  }

  lemma SwapBytesTurnsWord(b3: bv8, b2: bv8, b1: bv8, b0: bv8)
    ensures SwapBytes(Pack(b3, b2, b1, b0)) == Pack(b0, b1, b2, b3)
  {
  }

  // The three boolean functions as the macros spell them, and the sum a macro adds to z.
  function Choose(w: bv32, x: bv32, y: bv32): bv32 { (w & (x ^ y)) ^ y }
  function Parity(w: bv32, x: bv32, y: bv32): bv32 { w ^ x ^ y }
  function Majority(w: bv32, x: bv32, y: bv32): bv32 { ((w | x) & y) | (w & x) }
  function Accumulate(z: bv32, f: bv32, b: bv32, k: bv32, r: bv32): bv32 { z + (f + b + k + r) }

  lemma ChooseRewritten(w: bv32, x: bv32, y: bv32)
    ensures Choose(w, x, y) == (w & x) | (!w & y)
  {
  }

  lemma MajorityRewritten(w: bv32, x: bv32, y: bv32)
    ensures Majority(w, x, y) == (w & x) | (w & y) | (x & y)
  {
  }

  lemma AccumulateReordered(z: bv32, f: bv32, w: bv32, k: bv32, r: bv32)
    ensures Accumulate(z, f, w, k, r) == Sum5(r, f, z, w, k)
  {
  }

  lemma ScheduleStep(block: seq<bv8>, t: nat)
    requires |block| == 64
    ensures t < 16 ==> W(block, t) == BigEndian(block, t)
    ensures t >= 16 ==> W(block, t) == Mix(W(block, t - 3), W(block, t - 8), W(block, t - 14), W(block, t - 16))
  {
  }

  lemma RoundsStep(block: seq<bv8>, t: nat, s: State)
    requires |block| == 64
    ensures Rounds(block, 0, s) == s
    ensures Rounds(block, t + 1, s) == Round(block, t, Rounds(block, t, s))
  {
  }

  /** The function and constant of each macro are those of its round. */
  lemma RoundTerms(i: nat, w: bv32, x: bv32, y: bv32)
    ensures i < 20 ==> F(i, w, x, y) == Choose(w, x, y) && K(i) == 0x5A827999
    ensures 20 <= i < 40 ==> F(i, w, x, y) == Parity(w, x, y) && K(i) == 0x6ED9EBA1
    ensures 40 <= i < 60 ==> F(i, w, x, y) == Majority(w, x, y) && K(i) == 0x8F1BBCDC
    ensures 60 <= i ==> F(i, w, x, y) == Parity(w, x, y) && K(i) == 0xCA62C1D6
  {
    hide Choose, Majority;
    if i < 20 {
      ChooseRewritten(w, x, y);
    } else if 40 <= i < 60 {
      MajorityRewritten(w, x, y);
    }
  }

  lemma NextWordAccumulates(block: seq<bv8>, i: nat, v: bv32, w: bv32, x: bv32, y: bv32, z: bv32)
    requires |block| == 64
    ensures NextWord(block, i, v, w, x, y, z) == Accumulate(z, F(i, w, x, y), W(block, i), K(i), Rol5(v))
  {
    hide F, K, W, Rol5, Accumulate, Sum5;
    AccumulateReordered(z, F(i, w, x, y), W(block, i), K(i), Rol5(v));
  }

  /** Before round i the circular buffer holds the last 16 schedule words, and, while
    i < 16, the not yet swapped input words. */
  ghost predicate Holds(words: seq<bv32>, block: seq<bv8>, i: nat)
    requires |words| == 16 && |block| == 64
  {
    && (forall t {:trigger W(block, t)} :: i - 16 <= t < i && 0 <= t ==> words[t % 16] == W(block, t))
    && (forall t :: i <= t < 16 ==> words[t] == LittleEndian(block, t))
  }

  method Blk0(words: array<bv32>, i: nat, ghost block: seq<bv8>) returns (x: bv32)
    requires words.Length == 16 && |block| == 64 && i < 16 && Holds(words[..], block, i)
    modifies words
    ensures x == W(block, i) && Holds(words[..], block, i + 1)
  {
    hide SwapBytes, Pack, W, Mix;
    ScheduleStep(block, i);
    SwapBytesTurnsWord(block[4 * i + 3], block[4 * i + 2], block[4 * i + 1], block[4 * i]);
    words[i] := SwapBytes(words[i]);
    x := words[i];
  }

  method Blk(words: array<bv32>, i: nat, ghost block: seq<bv8>) returns (x: bv32)
    requires words.Length == 16 && |block| == 64 && 16 <= i && Holds(words[..], block, i)
    modifies words
    ensures x == W(block, i) && Holds(words[..], block, i + 1)
  {
    hide W, Mix, BigEndian, LittleEndian;
    ghost var was := words[..];
    ScheduleStep(block, i);
    assert words[(i + 13) % 16] == W(block, i - 3) by { assert (i - 3) % 16 == (i + 13) % 16; }
    assert words[(i + 8) % 16] == W(block, i - 8) by { assert (i - 8) % 16 == (i + 8) % 16; }
    assert words[(i + 2) % 16] == W(block, i - 14) by { assert (i - 14) % 16 == (i + 2) % 16; }
    assert words[i % 16] == W(block, i - 16) by { assert (i - 16) % 16 == i % 16; }
    words[i % 16] := Mix(words[(i + 13) % 16], words[(i + 8) % 16], words[(i + 2) % 16], words[i % 16]);
    x := words[i % 16];
    forall t | i + 1 - 16 <= t < i + 1 && 0 <= t
      ensures words[..][t % 16] == W(block, t)
    {
      if t < i {
        assert t % 16 != i % 16;
        assert was[t % 16] == W(block, t);
      }
    }
  }

  /** One of the macros R0 to R4, by round number: only registers w and z change. */
  method R(words: array<bv32>, v: bv32, w: bv32, x: bv32, y: bv32, z: bv32, i: nat, ghost block: seq<bv8>)
    returns (w': bv32, z': bv32)
    requires words.Length == 16 && |block| == 64 && i < 80 && Holds(words[..], block, i)
    modifies words
    ensures Holds(words[..], block, i + 1)
    ensures w' == Rol30(w)
    ensures z' == NextWord(block, i, v, w, x, y, z)
  {
    hide *;
    RoundTerms(i, w, x, y);
    NextWordAccumulates(block, i, v, w, x, y, z);
    if i < 16 {
      var b := Blk0(words, i, block);
      z' := Accumulate(z, Choose(w, x, y), b, 0x5A827999, Rol5(v));
    } else {
      var b := Blk(words, i, block);
      if i < 20 {
        z' := Accumulate(z, Choose(w, x, y), b, 0x5A827999, Rol5(v));
      } else if i < 40 {
        z' := Accumulate(z, Parity(w, x, y), b, 0x6ED9EBA1, Rol5(v));
      } else if i < 60 {
        z' := Accumulate(z, Majority(w, x, y), b, 0x8F1BBCDC, Rol5(v));
      } else {
        z' := Accumulate(z, Parity(w, x, y), b, 0xCA62C1D6, Rol5(v));
      }
    }
    w' := Rol30(w);
  }

  ghost function StateOf(state: array<bv32>): State
    requires state.Length == 5
    reads state
  {
    State(state[0], state[1], state[2], state[3], state[4])
  }

  /** Five consecutive macro uses: each register passes through every role once. */
  method FiveRounds(words: array<bv32>, a0: bv32, b0: bv32, c0: bv32, d0: bv32, e0: bv32,
        i: nat, ghost block: seq<bv8>, ghost s0: State)
    returns (a: bv32, b: bv32, c: bv32, d: bv32, e: bv32)
    requires words.Length == 16 && |block| == 64 && i < 76 && Holds(words[..], block, i)
    requires State(a0, b0, c0, d0, e0) == Rounds(block, i, s0)
    modifies words
    ensures Holds(words[..], block, i + 5)
    ensures State(a, b, c, d, e) == Rounds(block, i + 5, s0)
  {
    hide NextWord, Rol30, LittleEndian, Rounds, W, Holds;
    a, b, c, d, e := a0, b0, c0, d0, e0;
    b, e := R(words, a, b, c, d, e, i, block);
    RoundsStep(block, i, s0);
    a, d := R(words, e, a, b, c, d, i + 1, block);
    RoundsStep(block, i + 1, s0);
    e, c := R(words, d, e, a, b, c, i + 2, block);
    RoundsStep(block, i + 2, s0);
    d, b := R(words, c, d, e, a, b, i + 3, block);
    RoundsStep(block, i + 3, s0);
    c, a := R(words, b, c, d, e, a, i + 4, block);
    RoundsStep(block, i + 4, s0);
  }

  /** cs_sha1_transform: the source's eighty macro uses are sixteen groups of five. */
  method Transform(state: array<bv32>, buffer: seq<bv8>)
    requires state.Length == 5 && |buffer| == 64
    modifies state
    ensures StateOf(state) == Compress(old(StateOf(state)), buffer)
  {
    hide NextWord, Rol30, LittleEndian, Rounds, W, Add;
    var words := new bv32[16](i requires 0 <= i < 16 => LittleEndian(buffer, i));
    ghost var s0 := StateOf(state);
    var a, b, c, d, e := state[0], state[1], state[2], state[3], state[4];
    RoundsStep(buffer, 0, s0);
    var i := 0;
    while i < 80
      invariant 0 <= i <= 80 && i % 5 == 0
      invariant StateOf(state) == s0
      invariant Holds(words[..], buffer, i)
      invariant State(a, b, c, d, e) == Rounds(buffer, i, s0)
    {
      a, b, c, d, e := FiveRounds(words, a, b, c, d, e, i, buffer, s0);
      i := i + 5;
    }
    state[0] := Add(state[0], a);
    state[1] := Add(state[1], b);
    state[2] := Add(state[2], c);
    state[3] := Add(state[3], d);
    state[4] := Add(state[4], e);
  }

  // ---- the reference digest: RFC 3174, section 4 ---------------------------

  /** The 64-bit big-endian count that ends the padding. */
  function CountBytes(bits: nat): (r: seq<bv8>)
    requires bits < COUNTER
    ensures |r| == 8
  {
    [CountByte(bits, 7), CountByte(bits, 6), CountByte(bits, 5), CountByte(bits, 4),
     CountByte(bits, 3), CountByte(bits, 2), CountByte(bits, 1), CountByte(bits, 0)]
  }

  function Pad(m: seq<bv8>): seq<bv8> {
    m + [0x80] + Zeros(ZeroCount(|m|)) + CountBytes(8 * |m| % COUNTER)
  }

  /** Padding fills whole blocks and adds at most one. */
  lemma PadLength(m: seq<bv8>)
    ensures |Pad(m)| % 64 == 0 && |m| + 9 <= |Pad(m)| < |m| + 73
  {
    hide CountByte;
    var k := ZeroCount(|m|);
    assert |Pad(m)| == |m| + 1 + k + 8;
  }

  function WordByte(w: bv32, i: nat): bv8 {
    if i == 0 then (w >> 24) as bv8 else if i == 1 then ((w >> 16) & 255) as bv8
    else if i == 2 then ((w >> 8) & 255) as bv8 else (w & 255) as bv8
  }

  function DigestBytes(s: State): (r: seq<bv8>)
    ensures |r| == 20
  {
    seq(20, i requires 0 <= i < 20 =>
      WordByte(if i < 4 then s.a else if i < 8 then s.b else if i < 12 then s.c
               else if i < 16 then s.d else s.e, i % 4))
  }

  function Register(s: State, k: nat): bv32 {
    if k == 0 then s.a else if k == 1 then s.b else if k == 2 then s.c else if k == 3 then s.d else s.e
  }

  /** The digest holds the five registers in order, each with its highest byte first. */
  lemma DigestWords(s: State, k: nat)
    requires k < 5
    ensures BigEndian(DigestBytes(s), k) == Register(s, k)
  {
    hide WordByte, Pack, DigestBytes, Register;
    DigestByteAt(s, k, 0);
    DigestByteAt(s, k, 1);
    DigestByteAt(s, k, 2);
    DigestByteAt(s, k, 3);
    WordBytesPack(Register(s, k));
  }

  lemma DigestByteAt(s: State, k: nat, j: nat)
    requires k < 5 && j < 4
    ensures DigestBytes(s)[4 * k + j] == WordByte(Register(s, k), j)
  {
    hide WordByte;
    assert (4 * k + j) % 4 == j;
    if k == 0 { assert 4 * k + j < 4; } else { assert 4 * k + j >= 4; }
    if k <= 1 { assert 4 * k + j < 8; } else { assert 4 * k + j >= 8; }
    if k <= 2 { assert 4 * k + j < 12; } else { assert 4 * k + j >= 12; }
  }

  lemma WordBytesPack(w: bv32)
    ensures Pack(WordByte(w, 0), WordByte(w, 1), WordByte(w, 2), WordByte(w, 3)) == w
  {
  }

  function Digest(m: seq<bv8>): seq<bv8> {
    DigestBytes(Absorb(Compress, INIT, Pad(m)))
  }

  // ---- the incremental context ---------------------------------------------

  /** The guard `(j + len) > 63`, computed in 32 bits. */
  predicate TakesBlocks(j: nat, len: nat) {
    (j + len) % WORD > 63
  }

  /** The guard is right for every length with which j + len does not wrap; with any other, the short
    copy runs past the 64-byte buffer. */
  lemma UpdateBranchExact(j: nat, len: nat)
    requires j < 64 && len < WORD
    ensures j + len < WORD ==> (TakesBlocks(j, len) <==> j + len > 63)
    ensures (TakesBlocks(j, len) || j + len <= 64) <==> j + len < WORD
  {
    if j + len >= WORD {
      assert (j + len) % WORD == j + len - WORD;
    }
  }

  class Context {
    const state: array<bv32>
    const buffer: array<bv8>
    var count0: nat
    var count1: nat
    /** Everything fed in since Init. */
    ghost var message: seq<bv8>

    ghost predicate Valid()
      reads this, state, buffer
    {
      && state.Length == 5 && buffer.Length == 64
      && Counts(count0, count1, |message|)
      && StateOf(state) == Absorb(Compress, INIT, message)
      && buffer[..|message| % 64] == Residue(message)
    }

    constructor ()
      ensures Valid() && message == [] && fresh(state) && fresh(buffer)
    {
      state := new bv32[5];
      buffer := new bv8[64];
      count0, count1, message := 0, 0, [];
      new;
      state[0], state[1], state[2], state[3], state[4] := 0x67452301, 0xEFCDAB89, 0x98BADCFE, 0x10325476, 0xC3D2E1F0;
    }

    /** memcpy(&buffer[at], data, |data|). */
    method Fill(at: nat, data: seq<bv8>)
      requires buffer.Length == 64 && at + |data| <= 64
      modifies buffer
      ensures buffer[..] == old(buffer[..at]) + data + old(buffer[at + |data|..])
    {
      forall k | 0 <= k < |data| {
        buffer[at + k] := data[k];
      }
    }

    /** The block branch of cs_sha1_update: complete the pending block, then take whole
      blocks straight from the caller's data. */
    method UpdateBlocks(data: seq<bv8>, j: nat) returns (i: nat)
      requires Valid() && j == |message| % 64 && j + |data| > 63
      modifies state, buffer
      ensures i <= |data| < i + 64 && |message + data[..i]| % 64 == 0
      ensures StateOf(state) == Absorb(Compress, INIT, message + data[..i])
    {
      hide Absorb, Compress, Residue;
      i := 64 - j;
      Fill(j, data[..i]);
      assert buffer[..] == Residue(message) + data[..i];
      AbsorbBlock(Compress, INIT, message, data[..i]);
      Transform(state, buffer[..]);
      while i + 63 < |data|
        invariant 0 <= i <= |data|
        invariant |message + data[..i]| % 64 == 0
        invariant StateOf(state) == Absorb(Compress, INIT, message + data[..i])
      {
        ghost var done := message + data[..i];
        var block := data[i..i + 64];
        AbsorbBlock(Compress, INIT, done, block);
        assert Residue(done) + block == block;
        assert done + block == message + data[..i + 64];
        Transform(state, block);
        i := i + 64;
      }
    }

    /** cs_sha1_update, for any length a uint32_t can hold.  When the 32-bit sum j + len wraps, the
      short branch copies past the end of the buffer: the method stops there and reports it. */
    method Update(data: seq<bv8>) returns (inBounds: bool)
      requires Valid() && |data| < WORD
      modifies this`count0, this`count1, this`message, state, buffer
      ensures inBounds <==> old(|message|) % 64 + |data| < WORD
      ensures inBounds ==> Valid() && message == old(message) + data
    {
      hide Absorb, Compress, Residue, AddBits, Counts;
      var j := count0 / 8 % 64;
      BlockPosition(count0, count1, |message|);
      AddBitsCounts(count0, count1, |data|, |message|);
      UpdateBranchExact(j, |data|);
      var i := 0;
      if TakesBlocks(j, |data|) {
        i := UpdateBlocks(data, j);
        j := 0;
      } else if j + |data| > 64 {
        return false;
      }
      var bits := AddBits(count0, count1, |data|);
      ghost var done := message + data[..i];
      assert done + data[i..] == message + data;
      if i == 0 {
        assert done == message;
      }
      assert buffer[..j] == Residue(done);
      AbsorbShort(Compress, INIT, done, data[i..]);
      Fill(j, data[i..]);
      assert buffer[..j + |data[i..]|] == Residue(done) + data[i..];
      count0, count1, message := bits.0, bits.1, message + data;
      inBounds := true;
    }

    /** The first half of cs_sha1_final: pad through Update, one zero byte at a time. */
    method PadOut()
      requires Valid()
      modifies this`count0, this`count1, this`message, state, buffer
      ensures Valid() && message == Pad(old(message))
    {
      hide Absorb, Compress, Residue, Counts, FinalCountByte, CountByte, ZeroCount;
      ghost var m := message;
      var lo, hi := count0, count1;
      var finalcount := seq(8, i requires 0 <= i < 8 => FinalCountByte(lo, hi, i));
      FinalCountIsCountBytes(lo, hi, |m|);
      var _ := Update([0x80]);
      ghost var n := 0;
      assert m + [0x80] == m + [0x80] + Zeros(0);
      BlockPosition(count0, count1, |message|);
      while count0 / 8 % 64 * 8 != 448
        invariant Valid() && 0 <= n <= ZeroCount(|m|) && message == m + [0x80] + Zeros(n)
        invariant count0 / 8 % 64 == |message| % 64
        decreases ZeroCount(|m|) - n
      {
        var _ := Update([0]);
        assert Zeros(n) + [0] == Zeros(n + 1);
        n := n + 1;
        assert message == m + [0x80] + Zeros(n);
        BlockPosition(count0, count1, |message|);
      }
      ZeroCountUnique(|m|, n);
      var _ := Update(finalcount);
    }

    /** cs_sha1_final: the digest, and a context erased to zeros. */
    method Final(digest: array<bv8>)
      requires Valid() && digest.Length == 20 && digest != buffer
      modifies this`count0, this`count1, this`message, state, buffer, digest
      ensures digest[..] == Digest(old(message))
      ensures forall k :: 0 <= k < 5 ==>
                BigEndian(digest[..], k) == Register(Absorb(Compress, INIT, Pad(old(message))), k)
      ensures count0 == count1 == 0 && StateOf(state) == State(0, 0, 0, 0, 0) && buffer[..] == Zeros(64)
    {
      hide Absorb, Compress, Residue, Counts, WordByte, Pad, BigEndian, Register;
      PadOut();
      forall i | 0 <= i < 20 {
        digest[i] := WordByte(state[i / 4], i % 4);
      }
      assert digest[..] == DigestBytes(StateOf(state));
      ghost var result, chained := digest[..], StateOf(state);
      forall k | 0 <= k < 5
        ensures BigEndian(result, k) == Register(chained, k)
      {
        DigestWords(chained, k);
      }
      forall i | 0 <= i < 5 {
        state[i] := 0;
      }
      forall i | 0 <= i < 64 {
        buffer[i] := 0;
      }
      count0, count1 := 0, 0;
      assert digest[..] == result;
    }
  }

  /** finalcount[i]: byte 3 - i % 4 of the high word, then of the low word. */
  function FinalCountByte(count0: nat, count1: nat, i: nat): bv8
    requires i < 8
  {
    CountByte(if i >= 4 then count0 else count1, 3 - i % 4)
  }

  lemma FinalCountIsCountBytes(count0: nat, count1: nat, total: nat)
    requires Counts(count0, count1, total)
    ensures CountBytes(8 * total % COUNTER) == seq(8, i requires 0 <= i < 8 => FinalCountByte(count0, count1, i))
  {
    hide CountByte, FinalCountByte;
    var bits := 8 * total % COUNTER;
    assert bits == count0 + count1 * WORD;
    FinalCountByteAt(count0, count1, 0);
    FinalCountByteAt(count0, count1, 1);
    FinalCountByteAt(count0, count1, 2);
    FinalCountByteAt(count0, count1, 3);
    FinalCountByteAt(count0, count1, 4);
    FinalCountByteAt(count0, count1, 5);
    FinalCountByteAt(count0, count1, 6);
    FinalCountByteAt(count0, count1, 7);
  }

  lemma FinalCountByteAt(count0: nat, count1: nat, i: nat)
    requires count0 < WORD && count1 < WORD && i < 8
    ensures CountByte(count0 + count1 * WORD, 7 - i) == FinalCountByte(count0, count1, i)
  {
    CountByteSplit(count0, count1, 3 - i % 4);
  }

  /** Piece i fits: with the bytes pending when it comes, its length stays below 2^32. */
  ghost predicate Fits(pieces: seq<seq<bv8>>, i: nat)
    requires i < |pieces|
  {
    |Joined(pieces[..i])| % 64 + |pieces[i]| < WORD
  }

  ghost predicate AllFit(pieces: seq<seq<bv8>>) {
    forall i :: 0 <= i < |pieces| ==> Fits(pieces, i)
  }

  lemma ConcatNext(pieces: seq<seq<bv8>>, i: nat)
    requires i < |pieces|
    ensures Joined(pieces[..i + 1]) == Joined(pieces[..i]) + pieces[i]
  {
    assert pieces[..i + 1][..i] == pieces[..i];
  }

  method FeedPieces(ctx: Context, pieces: seq<seq<bv8>>) returns (inBounds: bool)
    requires ctx.Valid() && ctx.message == [] && forall i :: 0 <= i < |pieces| ==> |pieces[i]| < WORD
    modifies ctx, ctx.state, ctx.buffer
    ensures inBounds <==> AllFit(pieces)
    ensures inBounds ==> ctx.Valid() && ctx.message == Joined(pieces)
  {
    hide Absorb, Compress, Residue, Counts, StateOf;
    var i := 0;
    while i < |pieces|
      invariant 0 <= i <= |pieces|
      invariant ctx.Valid() && ctx.message == Joined(pieces[..i])
      invariant forall k :: 0 <= k < i ==> Fits(pieces, k)
    {
      inBounds := ctx.Update(pieces[i]);
      assert inBounds <==> Fits(pieces, i);
      if !inBounds {
        return;
      }
      ConcatNext(pieces, i);
      i := i + 1;
    }
    assert pieces[..i] == pieces;
    inBounds := true;
  }

  /** Splitting does not matter: feeding any pieces one update at a time stays in bounds exactly when
    each of them fits, and then gives the digest of their concatenation. */
  method HashPieces(pieces: seq<seq<bv8>>) returns (inBounds: bool, digest: seq<bv8>)
    requires forall i :: 0 <= i < |pieces| ==> |pieces[i]| < WORD
    ensures inBounds <==> AllFit(pieces)
    ensures inBounds ==> digest == Digest(Joined(pieces))
  {
    hide Digest, AllFit, Joined, Absorb, Compress, Residue, Counts;
    var ctx := new Context();
    inBounds := FeedPieces(ctx, pieces);
    digest := [];
    if inBounds {
      var out := new bv8[20];
      ctx.Final(out);
      digest := out[..];
    }
  }

  /** A first piece of 63 bytes and a second of 2^32 - 1: the sum wraps to 62, and the second is
    taken for one that fits the pending block. */
  lemma WrappingPieces(pieces: seq<seq<bv8>>)
    requires |pieces| == 2 && |pieces[0]| == 63 && |pieces[1]| == WORD - 1
    ensures !AllFit(pieces) && !TakesBlocks(63, WORD - 1)
  {
    assert pieces[..1][..0] == [];
    assert |Joined(pieces[..1])| == 63;
    assert !Fits(pieces, 1);
  }
}
