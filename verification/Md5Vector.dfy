/** The MD5 digest of "abc" in the test suite of RFC 1321, appendix A.5, followed through every step. */
module Md5Vector {
  import opened BlockStream
  import opened Common
  import opened Md5

  /** The message "abc" with its padding: one block. */
  predicate Padded(block: seq<bv8>) {
    && |block| == 64 && block[0] == 0x61 && block[1] == 0x62 && block[2] == 0x63 && block[3] == 0x80
    && block[56] == 24 && forall k :: 4 <= k < 64 && k != 56 ==> block[k] == 0
  }

  function Given(k: nat): bv32 {
    if k == 0 then 0x80636261 else if k == 14 then 24 else 0
  }

  lemma Words(block: seq<bv8>, k: nat)
    requires Padded(block) && k < 16
    ensures Word(block, k) == Given(k)
  {
    if k != 0 && k != 14 {
      assert block[4 * k] == 0 && block[4 * k + 1] == 0 && block[4 * k + 2] == 0 && block[4 * k + 3] == 0;
    }
  }

  /** One step with its terms worked out. */
  lemma Next(block: seq<bv8>, i: nat, s: State, f: bv32, x: bv32, t: bv32, n: bv6)
    requires Padded(block) && i < 64 && n < 32 && Steps(block, i, INIT) == s
    requires Auxiliary(i, s.b, s.c, s.d) == f && Given(WordIndex(i)) == x && Sine(i) == t && Shift(i) == n
    ensures Steps(block, i + 1, INIT) == State(s.d, Add(s.b, Rol(Sum4(s.a, f, x, t), n)), s.b, s.c)
  {
    assert |block| == 64;
    hide Steps, Word, Sine, Shift, Rol, Auxiliary, Add, Sum4, WordIndex, Padded, Given;
    StepsStep(block, i, INIT);
    Words(block, WordIndex(i));
  }

  lemma Round1(block: seq<bv8>)
    requires Padded(block) && Steps(block, 0, INIT) == State(0x67452301, 0xefcdab89, 0x98badcfe, 0x10325476)
    ensures Steps(block, 16, INIT) == State(0xdda9b9a6, 0x72aff2e0, 0xe396856b, 0xa1051895)
  {
    hide Steps, Padded, Word, Operation;
    Next(block, 0, State(0x67452301, 0xefcdab89, 0x98badcfe, 0x10325476), 0x98badcfe, 0x80636261, 0xd76aa478, 7);
    Next(block, 1, State(0x10325476, 0xd6d117b4, 0xefcdab89, 0x98badcfe), 0xceebcbca, 0, 0xe8c7b756, 12);
    Next(block, 2, State(0x98badcfe, 0x344a8432, 0xd6d117b4, 0xefcdab89), 0xdfc52fb9, 0, 0x242070db, 17);
    Next(block, 3, State(0xefcdab89, 0x2f6fbd72, 0x344a8432, 0xd6d117b4), 0xf4da86b6, 0, 0xc1bdceee, 22);
    Next(block, 4, State(0xd6d117b4, 0x7ad956f2, 0x2f6fbd72, 0x344a8432), 0x2e4b9472, 0, 0xf57c0faf, 7);
    Next(block, 5, State(0x344a8432, 0xc73741ef, 0x7ad956f2, 0x2f6fbd72), 0x6a59fcf2, 0, 0x4787c62a, 12);
    Next(block, 6, State(0x2f6fbd72, 0x8bac3051, 0xc73741ef, 0x7ad956f2), 0xf37546e3, 0, 0xa8304613, 17);
    Next(block, 7, State(0x7ad956f2, 0x207dc67b, 0x8bac3051, 0xc73741ef), 0xc72e01d5, 0, 0xfd469501, 22);
    Next(block, 8, State(0xc73741ef, 0x928d99f6, 0x207dc67b, 0x8bac3051), 0x092da073, 0, 0x698098d8, 7);
    Next(block, 9, State(0x8bac3051, 0x854b3712, 0x928d99f6, 0x207dc67b), 0xa03dd17b, 0, 0x8b44f7af, 12);
    Next(block, 10, State(0x207dc67b, 0x74e2f284, 0x854b3712, 0x928d99f6), 0x864f3b72, 0, 0xffff5bb1, 17);
    Next(block, 11, State(0x928d99f6, 0x3020401c, 0x74e2f284, 0x854b3712), 0xb56b7706, 0, 0x895cd7be, 22);
    Next(block, 12, State(0x854b3712, 0x5ed49596, 0x3020401c, 0x74e2f284), 0x30226214, 0, 0x6b901122, 7);
    Next(block, 13, State(0x74e2f284, 0xdda9b9a6, 0x5ed49596, 0x3020401c), 0x7c80d19e, 0, 0xfd987193, 12);
    Next(block, 14, State(0x3020401c, 0xa1051895, 0xdda9b9a6, 0x5ed49596), 0xdfd19d86, 24, 0xa679438e, 17);
    Next(block, 15, State(0x5ed49596, 0xe396856b, 0xa1051895, 0xdda9b9a6), 0xbd2d3885, 0, 0x49b40821, 22);
  }

  lemma Round2(block: seq<bv8>)
    requires Padded(block) && Steps(block, 16, INIT) == State(0xdda9b9a6, 0x72aff2e0, 0xe396856b, 0xa1051895)
    ensures Steps(block, 32, INIT) == State(0x790a77fb, 0x726342d3, 0xa62884aa, 0x9f47e4f8)
  {
    hide Steps, Padded, Word, Operation;
    Next(block, 16, State(0xdda9b9a6, 0x72aff2e0, 0xe396856b, 0xa1051895), 0x629795ea, 0, 0xf61e2562, 5);
    Next(block, 17, State(0xa1051895, 0x3e9e9126, 0x72aff2e0, 0xe396856b), 0x32bff3a2, 0, 0xc040b340, 9);
    Next(block, 18, State(0xe396856b, 0x4a1d804e, 0x3e9e9126, 0x72aff2e0), 0x4e1d8146, 0, 0x265e5a51, 14);
    Next(block, 19, State(0x72aff2e0, 0xe25e1652, 0x4a1d804e, 0x3e9e9126), 0x621f104a, 0x80636261, 0xe9b6c7aa, 20);
    Next(block, 20, State(0x3e9e9126, 0xb5b204e4, 0xe25e1652, 0x4a1d804e), 0xa0521654, 0, 0xd62f105d, 5);
    Next(block, 21, State(0x4a1d804e, 0x59a8ffda, 0xb5b204e4, 0xe25e1652), 0x55a816f6, 0, 0x02441453, 9);
    Next(block, 22, State(0xe25e1652, 0x6d002f1e, 0x59a8ffda, 0xb5b204e4), 0x6d08ff1e, 0, 0xd8a1e681, 14);
    Next(block, 23, State(0xb5b204e4, 0xabfc7920, 0x6d002f1e, 0x59a8ffda), 0x2da87904, 0, 0xe7d3fbc8, 20);
    Next(block, 24, State(0x59a8ffda, 0x47092c07, 0xabfc7920, 0x6d002f1e), 0xc7fc7c26, 0, 0x21e1cde6, 5);
    Next(block, 25, State(0x6d002f1e, 0xb7f268cf, 0x47092c07, 0xabfc7920), 0xe7f16c07, 24, 0xc33707d6, 9);
    Next(block, 26, State(0xabfc7920, 0x09388eff, 0xb7f268cf, 0x47092c07), 0xb1fa4ccf, 0, 0xf4d50d87, 14);
    Next(block, 27, State(0x47092c07, 0xfe1623b1, 0x09388eff, 0xb7f268cf), 0xbe1aa6b1, 0, 0x455a14ed, 20);
    Next(block, 28, State(0xb7f268cf, 0x786acb8f, 0xfe1623b1, 0x09388eff), 0xfe2eab8f, 0, 0xa9e3e905, 5);
    Next(block, 29, State(0x09388eff, 0x790a77fb, 0x786acb8f, 0xfe1623b1), 0x786aebbf, 0, 0xfcefa3f8, 9);
    Next(block, 30, State(0xfe1623b1, 0x9f47e4f8, 0x790a77fb, 0x786acb8f), 0x1942f4f8, 0, 0x676f02d9, 14);
    Next(block, 31, State(0x786acb8f, 0xa62884aa, 0x9f47e4f8, 0x790a77fb), 0xa64d84aa, 0, 0x8d2a4c8a, 20);
  }

  lemma Round3(block: seq<bv8>)
    requires Padded(block) && Steps(block, 32, INIT) == State(0x790a77fb, 0x726342d3, 0xa62884aa, 0x9f47e4f8)
    ensures Steps(block, 48, INIT) == State(0x7f2e507b, 0x7beb9700, 0x8fae6399, 0x99d9679d)
  {
    hide Steps, Padded, Word, Operation;
    Next(block, 32, State(0x790a77fb, 0x726342d3, 0xa62884aa, 0x9f47e4f8), 0x4b0c2281, 0, 0xfffa3942, 4);
    Next(block, 33, State(0x9f47e4f8, 0xb3707ebf, 0x726342d3, 0xa62884aa), 0x673bb8c6, 0, 0x8771f681, 11);
    Next(block, 34, State(0xa62884aa, 0x60127b2e, 0xb3707ebf, 0x726342d3), 0xa1014742, 0, 0x6d9d6122, 16);
    Next(block, 35, State(0x726342d3, 0x8d212ff5, 0x60127b2e, 0xb3707ebf), 0x5e432a64, 24, 0xfde5380c, 23);
    Next(block, 36, State(0xb3707ebf, 0x3b0875c7, 0x8d212ff5, 0x60127b2e), 0xd63b211c, 0, 0xa4beea44, 4);
    Next(block, 37, State(0x60127b2e, 0x21b117b9, 0x3b0875c7, 0x8d212ff5), 0x97984d8b, 0, 0x4bdecfa9, 11);
    Next(block, 38, State(0x8d212ff5, 0x6e7429d5, 0x21b117b9, 0x3b0875c7), 0x74cd4bab, 0, 0xf6bb4b60, 16);
    Next(block, 39, State(0x3b0875c7, 0x3575227e, 0x6e7429d5, 0x21b117b9), 0x7ab01c12, 0, 0xbebfbc70, 23);
    Next(block, 40, State(0x21b117b9, 0x5a2f5ea5, 0x3575227e, 0x6e7429d5), 0x012e550e, 0, 0x289b7ec6, 4);
    Next(block, 41, State(0x6e7429d5, 0x11de1779, 0x5a2f5ea5, 0x3575227e), 0x7e846ba2, 0x80636261, 0xeaa127fa, 11);
    Next(block, 42, State(0x3575227e, 0xfadcaa38, 0x11de1779, 0x5a2f5ea5), 0xb12de3e4, 0, 0xd4ef3085, 16);
    Next(block, 43, State(0x5a2f5ea5, 0x31c465ca, 0xfadcaa38, 0x11de1779), 0xdac6d88b, 0, 0x04881d05, 23);
    Next(block, 44, State(0x11de1779, 0x4c6124f4, 0x31c465ca, 0xfadcaa38), 0x8779eb06, 0, 0xd9d4d039, 4);
    Next(block, 45, State(0xfadcaa38, 0x7f2e507b, 0x4c6124f4, 0x31c465ca), 0x028b1145, 0, 0xe6db99e5, 11);
    Next(block, 46, State(0x31c465ca, 0x99d9679d, 0x7f2e507b, 0x4c6124f4), 0xaa961312, 0, 0x1fa27cf8, 16);
    Next(block, 47, State(0x4c6124f4, 0x8fae6399, 0x99d9679d, 0x7f2e507b), 0x6959547f, 0, 0xc4ac5665, 23);
  }

  lemma Round4(block: seq<bv8>)
    requires Padded(block) && Steps(block, 48, INIT) == State(0x7f2e507b, 0x7beb9700, 0x8fae6399, 0x99d9679d)
    ensures Steps(block, 64, INIT) == State(0x310ade8f, 0xc08226b3, 0xe484b9d8, 0x624d8cb2)
  {
    hide Steps, Padded, Word, Operation;
    Next(block, 48, State(0x7f2e507b, 0x7beb9700, 0x8fae6399, 0x99d9679d), 0xf041fcfb, 0x80636261, 0xf4292244, 6);
    Next(block, 49, State(0x99d9679d, 0x7b201df8, 0x7beb9700, 0x8fae6399), 0x009a0afe, 0, 0x432aff97, 10);
    Next(block, 50, State(0x8fae6399, 0xf4e8e96e, 0x7b201df8, 0x7beb9700), 0x8fdcf407, 24, 0xab9423a7, 15);
    Next(block, 51, State(0x7beb9700, 0xb298cefd, 0xf4e8e96e, 0x7b201df8), 0x42370791, 0, 0xfc93a039, 21);
    Next(block, 52, State(0x7b201df8, 0x8bf025c4, 0xb298cefd, 0xf4e8e96e), 0x396ff928, 0, 0x655b59c3, 6);
    Next(block, 53, State(0xf4e8e96e, 0x06cc5e8a, 0x8bf025c4, 0xb298cefd), 0xc41f5a4e, 0, 0x8f0ccc92, 10);
    Next(block, 54, State(0xb298cefd, 0x5b0d97aa, 0x06cc5e8a, 0x8bf025c4), 0x79c38131, 0, 0xffeff47d, 15);
    Next(block, 55, State(0x8bf025c4, 0x7d632dd0, 0x5b0d97aa, 0x06cc5e8a), 0xa67e3a5f, 0, 0x85845dd1, 21);
    Next(block, 56, State(0x06cc5e8a, 0x3bfa2c27, 0x7d632dd0, 0x5b0d97aa), 0xc29941a7, 0, 0x6fa87e4f, 6);
    Next(block, 57, State(0x5b0d97aa, 0x7f81cc35, 0x3bfa2c27, 0x7d632dd0), 0xc467f218, 0, 0xfe2ce6e0, 10);
    Next(block, 58, State(0x7d632dd0, 0x094454ab, 0x7f81cc35, 0x3bfa2c27), 0xb2c41bce, 0, 0xa3014314, 15);
    Next(block, 59, State(0x3bfa2c27, 0x4f9dbe3f, 0x094454ab, 0x7f81cc35), 0xc6bbeb54, 0, 0x4e0811a1, 21);
    Next(block, 60, State(0x7f81cc35, 0x7327d604, 0x4f9dbe3f, 0x094454ab), 0xb822416b, 0, 0xf7537e82, 6);
    Next(block, 61, State(0x094454ab, 0x310ade8f, 0x7327d604, 0x4f9dbe3f), 0xc24d09cb, 0, 0xbd3af235, 10);
    Next(block, 62, State(0x4f9dbe3f, 0x624d8cb2, 0x310ade8f, 0x7327d604), 0xdfd77374, 0, 0x2ad7d2bb, 15);
    Next(block, 63, State(0x7327d604, 0xe484b9d8, 0x624d8cb2, 0x310ade8f), 0x8cb8354a, 0, 0xeb86d391, 21);
  }

  lemma Chained(block: seq<bv8>)
    requires Padded(block)
    ensures Compress(INIT, block) == State(0x98500190, 0xb04fd23c, 0x7d3f96d6, 0x727fe128)
  {
    assert |block| == 64;
    hide Steps, Padded;
    StepsStep(block, 0, INIT);
    Round1(block);
    Round2(block);
    Round3(block);
    Round4(block);
  }

  lemma PaddedMessage(m: seq<bv8>)
    requires m == [0x61, 0x62, 0x63]
    ensures Padded(Pad(m))
  {
    assert 8 * |m| % COUNTER == 24 && ZeroCount(|m|) == 52;
    CountOf24();
    hide CountBytes, ZeroCount;
  }

  lemma CountOf24()
    ensures CountBytes(24) == [24, 0, 0, 0, 0, 0, 0, 0]
  {
    assert ShiftBytes(24, 0) == 24 && ShiftBytes(24, 1) == 0;
    assert ShiftBytes(24, 2) == 0 && ShiftBytes(24, 3) == 0 && ShiftBytes(24, 4) == 0;
    assert ShiftBytes(24, 5) == 0 && ShiftBytes(24, 6) == 0 && ShiftBytes(24, 7) == 0;
  }

  lemma Bytes()
    ensures DigestBytes(State(0x98500190, 0xb04fd23c, 0x7d3f96d6, 0x727fe128))
         == [0x90, 0x01, 0x50, 0x98, 0x3c, 0xd2, 0x4f, 0xb0,
             0xd6, 0x96, 0x3f, 0x7d, 0x28, 0xe1, 0x7f, 0x72]
  {
  }

  /** MD5 ("abc") = 900150983cd24fb0d6963f7d28e17f72 */
  lemma DigestOfAbc(m: seq<bv8>)
    requires m == [0x61, 0x62, 0x63]
    ensures DigestOf(Pad(m))
         == [0x90, 0x01, 0x50, 0x98, 0x3c, 0xd2, 0x4f, 0xb0,
             0xd6, 0x96, 0x3f, 0x7d, 0x28, 0xe1, 0x7f, 0x72]
  {
    hide Compress, Pad, DigestBytes;
    PaddedMessage(m);
    Chained(Pad(m));
    AbsorbOne(Compress, INIT, Pad(m));
    Bytes();
  }
}
