/** What the two digest engines of dev/svr/3rd/mongoose.c share: a message consumed in
  64-byte blocks, a partial block kept back, and a bit counter in two 32-bit halves. */
module BlockStream {
  import opened Common
  import opened Numerals

  const WORD: nat := 0x1_0000_0000
  const COUNTER: nat := 0x1_0000_0000_0000_0000

  /** The block function folded over every full 64-byte block of m. */
  function Absorb<S>(f: (S, seq<bv8>) -> S, s: S, m: seq<bv8>): S
    decreases |m|
  {
    if |m| < 64 then s else Absorb(f, f(s, m[..64]), m[64..])
  }

  /** The bytes after the last full block. */
  function Residue(m: seq<bv8>): (r: seq<bv8>)
    ensures |r| == |m| % 64
  {
    m[|m| - |m| % 64..]
  }

  function FullBlocks(m: seq<bv8>): (r: seq<bv8>)
    ensures |r| % 64 == 0 && |r| <= |m|
  {
    m[..|m| - |m| % 64]
  }

  lemma ShortSplit(m: seq<bv8>, d: seq<bv8>)
    requires |m| % 64 + |d| < 64
    ensures FullBlocks(m + d) == FullBlocks(m) && Residue(m + d) == Residue(m) + d
  {
    var r, q := |m| % 64, |m| / 64;
    assert |m| == 64 * q + r;
    assert |m + d| % 64 == r + |d|;
    assert |m + d| - |m + d| % 64 == |m| - |m| % 64;
  }

  lemma {:induction false} AbsorbConcat<S>(f: (S, seq<bv8>) -> S, s: S, a: seq<bv8>, b: seq<bv8>)
    requires |a| % 64 == 0
    ensures Absorb(f, s, a + b) == Absorb(f, Absorb(f, s, a), b)
    decreases |a|
  {
    if a == [] {
      assert a + b == b;
    } else {
      assert (a + b)[..64] == a[..64];
      assert (a + b)[64..] == a[64..] + b;
      AbsorbConcat(f, f(s, a[..64]), a[64..], b);
    }
  }

  lemma Halves(m: seq<bv8>)
    ensures m == FullBlocks(m) + Residue(m)
  {
  }

  /** The residue does not reach the block function. */
  lemma AbsorbFull<S>(f: (S, seq<bv8>) -> S, s: S, m: seq<bv8>)
    ensures Absorb(f, s, m) == Absorb(f, s, FullBlocks(m))
  {
    Halves(m);
    AbsorbConcat(f, s, FullBlocks(m), Residue(m));
  }

  /** Bytes that do not complete a block only lengthen the residue. */
  lemma AbsorbShort<S>(f: (S, seq<bv8>) -> S, s: S, m: seq<bv8>, d: seq<bv8>)
    requires |m| % 64 + |d| < 64
    ensures Absorb(f, s, m + d) == Absorb(f, s, m)
    ensures Residue(m + d) == Residue(m) + d
  {
    hide Absorb;
    ShortSplit(m, d);
    AbsorbFull(f, s, m);
    AbsorbFull(f, s, m + d);
  }

  /** Completing the pending block feeds exactly residue + d to the block function. */
  lemma AbsorbBlock<S>(f: (S, seq<bv8>) -> S, s: S, m: seq<bv8>, d: seq<bv8>)
    requires |m| % 64 + |d| == 64
    ensures Absorb(f, s, m + d) == f(Absorb(f, s, m), Residue(m) + d)
    ensures |m + d| % 64 == 0
  {
    hide *;
    var full, block := FullBlocks(m), Residue(m) + d;
    JoinedLength(m, d);
    Halves(m);
    Associates(full, Residue(m), d);
    AbsorbFull(f, s, m);
    AbsorbConcat(f, s, full, block);
    AbsorbOne(f, Absorb(f, s, full), block);
  }

  lemma JoinedLength(m: seq<bv8>, d: seq<bv8>)
    requires |m| % 64 + |d| == 64
    ensures |m + d| % 64 == 0
  {
    var q := |m| / 64;
    assert |m + d| == 64 * (q + 1);
  }

  lemma AbsorbOne<S>(f: (S, seq<bv8>) -> S, s: S, block: seq<bv8>)
    requires |block| == 64
    ensures Absorb(f, s, block) == f(s, block)
  {
    assert block[..64] == block && block[64..] == [];
  }

  function Zeros(n: nat): (z: seq<bv8>)
    ensures |z| == n
  {
    seq(n, _ => 0)
  }

  /** The number of zero bytes that bring a message of n bytes plus the marker byte to 56 modulo 64. */
  function ZeroCount(n: nat): (k: nat)
    ensures (n + 1 + k) % 64 == 56
    ensures k < 64
  {
    if n % 64 <= 55 then 55 - n % 64 else 119 - n % 64
  }

  lemma ZeroCountUnique(n: nat, k: nat)
    requires k <= ZeroCount(n) && (n + 1 + k) % 64 == 56
    ensures k == ZeroCount(n)
  {
  }

  // ---- the two-word bit counter --------------------------------------------

  /** The pair holds 8 * total modulo 2^64. */
  predicate Counts(lo: nat, hi: nat, total: nat) {
    lo < WORD && hi < WORD && lo + hi * WORD == 8 * total % COUNTER
  }

  /** One counter update: add len * 8 to the pair (lo, hi), the carry found by comparing
    the new low word with the old one. */
  function AddBits(lo: nat, hi: nat, len: nat): (nat, nat) {
    var lo' := (lo + (len * 8) % WORD) % WORD;
    var hi' := if lo' < lo then (hi + 1) % WORD else hi;
    (lo', (hi' + len / 0x2000_0000) % WORD)
  }

  /** For a 32-bit len the pair counts bits modulo 2^64. */
  lemma AddBitsCounts(lo: nat, hi: nat, len: nat, total: nat)
    requires Counts(lo, hi, total) && len < WORD
    ensures Counts(AddBits(lo, hi, len).0, AddBits(lo, hi, len).1, total + len)
  {
    var low, high := (len * 8) % WORD, len / 0x2000_0000;
    var carry := if lo + low >= WORD then 1 else 0;
    var r := AddBits(lo, hi, len);
    LowHalf(len);
    LowCarry(lo, low);
    ModWrap(hi + carry, high);
    assert r.1 == (hi + carry + high) % WORD;
    var q, p := 8 * total / COUNTER, (hi + carry + high) / WORD;
    CounterSum(lo, hi, low, high, carry, q, p, r.0, r.1);
    ModUnique(8 * (total + len), q + p, r.0 + r.1 * WORD);
  }

  lemma LowHalf(len: nat)
    requires len < WORD
    ensures len * 8 == (len * 8) % WORD + len / 0x2000_0000 * WORD
  {
  }

  lemma LowCarry(lo: nat, low: nat)
    requires lo < WORD && low < WORD
    ensures lo + low >= WORD ==> (lo + low) % WORD == lo + low - WORD < lo
    ensures lo + low < WORD ==> (lo + low) % WORD == lo + low
  {
  }

  lemma CounterSum(lo: nat, hi: nat, low: nat, high: nat, carry: nat, q: nat, p: nat, r0: nat, r1: nat)
    requires lo + low == r0 + carry * WORD
    requires hi + carry + high == r1 + p * WORD
    ensures q * COUNTER + (lo + hi * WORD) + (low + high * WORD) == (q + p) * COUNTER + (r0 + r1 * WORD)
  {
  }

  lemma ModWrap(a: nat, b: nat)
    ensures (a % WORD + b) % WORD == (a + b) % WORD
  {
    var q := a / WORD;
    assert a == q * WORD + a % WORD;
    var r := (a % WORD + b) / WORD;
    assert a + b == (q + r) * WORD + (a % WORD + b) % WORD;
  }

  lemma ModUnique(x: nat, q: nat, r: nat)
    requires x == q * COUNTER + r && r < COUNTER
    ensures x % COUNTER == r
  {
  }

  /** The byte position in the pending block is readable off the low word. */
  lemma BlockPosition(lo: nat, hi: nat, total: nat)
    requires Counts(lo, hi, total)
    ensures (lo / 8) % 64 == total % 64
  {
    var q := 8 * total / COUNTER;
    PositionFromSum(lo, q * 0x80_0000_0000_0000 + hi * 0x80_0000, total);
  }

  lemma PositionFromSum(lo: nat, k: nat, total: nat)
    requires 8 * total == 512 * k + lo
    ensures (lo / 8) % 64 == total % 64
  {
    assert lo / 8 == total - 64 * k;
  }

  // ---- the counter as bytes ------------------------------------------------

  /** x shifted right by n bytes. */
  function ShiftBytes(x: nat, n: nat): nat {
    if n == 0 then x else ShiftBytes(x, n - 1) / 256
  }

  /** Byte number `place` of the count, place 0 being the lowest. */
  function CountByte(bits: nat, place: nat): bv8 {
    (ShiftBytes(bits, place) % 256) as bv8
  }

  lemma DropMultiple(x: nat, k: nat)
    ensures (x + k * 256) % 256 == x % 256 && (x + k * 256) / 256 == x / 256 + k
  {
  }

  /** The four low bytes of the count come from the low word, the four high ones from the high word. */
  lemma CountByteSplit(lo: nat, hi: nat, place: nat)
    requires lo < WORD && hi < WORD && place < 4
    ensures CountByte(lo + hi * WORD, place) == CountByte(lo, place)
    ensures CountByte(lo + hi * WORD, place + 4) == CountByte(hi, place)
  {
    hide ShiftBytes;
    LowByte(lo, hi, place);
    ShiftPair(lo, hi);
    ShiftFrom(lo + hi * WORD, 4, place);
  }

  lemma LowByte(lo: nat, hi: nat, place: nat)
    requires lo < WORD && place < 4
    ensures ShiftBytes(lo + hi * WORD, place) % 256 == ShiftBytes(lo, place) % 256
  {
    hide ShiftBytes;
    ShiftPair(lo, hi);
    if place == 0 {
      ShiftNone(lo);
      ShiftNone(lo + hi * WORD);
      DropMultiple(lo, hi * 0x100_0000);
    } else if place == 1 {
      DropMultiple(ShiftBytes(lo, 1), hi * 0x1_0000);
    } else if place == 2 {
      DropMultiple(ShiftBytes(lo, 2), hi * 0x100);
    } else {
      DropMultiple(ShiftBytes(lo, 3), hi);
    }
  }

  lemma ShiftNone(x: nat)
    ensures ShiftBytes(x, 0) == x
  {
  }

  lemma ShiftPair(lo: nat, hi: nat)
    requires lo < WORD
    ensures ShiftBytes(lo + hi * WORD, 1) == ShiftBytes(lo, 1) + hi * 0x100_0000
    ensures ShiftBytes(lo + hi * WORD, 2) == ShiftBytes(lo, 2) + hi * 0x1_0000
    ensures ShiftBytes(lo + hi * WORD, 3) == ShiftBytes(lo, 3) + hi * 0x100
    ensures ShiftBytes(lo + hi * WORD, 4) == hi
  {
    DropMultiple(lo, hi * 0x100_0000);
    DropMultiple(lo / 256, hi * 0x1_0000);
    DropMultiple(lo / 256 / 256, hi * 0x100);
    DropMultiple(lo / 256 / 256 / 256, hi);
    assert ShiftBytes(lo, 1) == lo / 256 < 0x100_0000;
    assert ShiftBytes(lo, 2) == lo / 256 / 256 < 0x1_0000;
    assert ShiftBytes(lo, 3) == lo / 256 / 256 / 256 < 256;
  }

  lemma {:induction false} ShiftFrom(x: nat, m: nat, n: nat)
    ensures ShiftBytes(x, m + n) == ShiftBytes(ShiftBytes(x, m), n)
  {
    if n > 0 { ShiftFrom(x, m, n - 1); }
  }

  /** The number that n bytes make, the lowest first. */
  function Assembled(x: nat, n: nat): nat {
    if n == 0 then 0 else x % 256 + 256 * Assembled(x / 256, n - 1)
  }

  lemma {:induction false} AssembledAll(x: nat, n: nat)
    requires x < Power256(n)
    ensures Assembled(x, n) == x
  {
    if n > 0 { AssembledAll(x / 256, n - 1); }
  }

  lemma {:induction false} SameBytesSameNumber(a: nat, b: nat, n: nat)
    requires forall k: nat :: k < n ==> CountByte(a, k) == CountByte(b, k)
    ensures Assembled(a, n) == Assembled(b, n)
  {
    if n > 0 {
      ByteMatches(a, b, 0);
      forall k: nat | k < n - 1
        ensures CountByte(a / 256, k) == CountByte(b / 256, k)
      {
        ShiftFrom(a, 1, k);
        ShiftFrom(b, 1, k);
        assert ShiftBytes(a, 1) == a / 256 && ShiftBytes(b, 1) == b / 256;
        assert CountByte(a, k + 1) == CountByte(b, k + 1);
      }
      SameBytesSameNumber(a / 256, b / 256, n - 1);
    }
  }

  lemma ByteMatches(a: nat, b: nat, k: nat)
    requires CountByte(a, k) == CountByte(b, k)
    ensures ShiftBytes(a, k) % 256 == ShiftBytes(b, k) % 256
  {
    hide CountByte, ShiftBytes;
    CountByteValue(a, k);
    CountByteValue(b, k);
  }

  lemma CountByteValue(bits: nat, k: nat)
    ensures CountByte(bits, k) as int == ShiftBytes(bits, k) % 256
  {
    hide ShiftBytes;
    ByteValue(ShiftBytes(bits, k) % 256);
  }

  /** A byte made of a number below 256 has that value. */
  lemma ByteValue(x: int)
    requires 0 <= x < 256
    ensures (x as bv8) as int == x
  {
    var b := ByteWith(x);
    ByteBack(b, x);
  }

  lemma {:induction false} ByteWith(x: int) returns (b: bv8)
    requires 0 <= x < 256
    ensures b as int == x
  {
    if x == 0 {
      b := 0;
    } else {
      var below := ByteWith(x - 1);
      ByteAfter(below);
      b := below + 1;
    }
  }

  lemma ByteAfter(b: bv8)
    requires b as int != 255
    ensures (b + 1) as int == b as int + 1
  {
  }

  lemma ByteBack(b: bv8, x: int)
    requires b as int == x
    ensures 0 <= x < 256 && x as bv8 == b
  {
  }

  /** Eight bytes hold a count below 2^64 without loss. */
  lemma BytesMakeCount(x: nat)
    requires x < COUNTER
    ensures Assembled(x, 8) == x
  {
    hide Assembled;
    assert Power256(8) == COUNTER by {
      assert Power256(2) == 0x1_0000 && Power256(4) == WORD && Power256(6) == 0x1_0000 * WORD;
    }
    AssembledAll(x, 8);
  }
}
