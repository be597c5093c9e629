/** The SHA-1 digest of "abc" in the test driver of RFC 3174, section 7.3, followed through every round. */
module Sha1Vector {
  import opened BlockStream
  import opened Common
  import opened Sha1

  /** The message "abc" with its padding: one block. */
  predicate Padded(block: seq<bv8>) {
    && |block| == 64 && block[0] == 0x61 && block[1] == 0x62 && block[2] == 0x63 && block[3] == 0x80
    && block[63] == 24 && forall k :: 4 <= k < 63 ==> block[k] == 0
  }

  /** Sixteen schedule words from t on. */
  predicate Row(block: seq<bv8>, t: nat,
                w0: bv32, w1: bv32, w2: bv32, w3: bv32, w4: bv32, w5: bv32, w6: bv32, w7: bv32,
                w8: bv32, w9: bv32, w10: bv32, w11: bv32, w12: bv32, w13: bv32, w14: bv32, w15: bv32)
    requires |block| == 64
  {
    && W(block, t) == w0 && W(block, t + 1) == w1 && W(block, t + 2) == w2 && W(block, t + 3) == w3
    && W(block, t + 4) == w4 && W(block, t + 5) == w5 && W(block, t + 6) == w6 && W(block, t + 7) == w7
    && W(block, t + 8) == w8 && W(block, t + 9) == w9 && W(block, t + 10) == w10 && W(block, t + 11) == w11
    && W(block, t + 12) == w12 && W(block, t + 13) == w13 && W(block, t + 14) == w14 && W(block, t + 15) == w15
  }

  lemma FirstWord(block: seq<bv8>, t: nat)
    requires Padded(block) && t < 16
    ensures W(block, t) == if t == 0 then 0x61626380 else if t == 15 then 24 else 0
  {
    if 0 < t < 15 {
      assert block[4 * t] == 0 && block[4 * t + 1] == 0 && block[4 * t + 2] == 0 && block[4 * t + 3] == 0;
    }
  }

  lemma Mixed(block: seq<bv8>, t: nat, p: bv32, q: bv32, r: bv32, s: bv32)
    requires |block| == 64 && 16 <= t
    requires W(block, t - 3) == p && W(block, t - 8) == q && W(block, t - 14) == r && W(block, t - 16) == s
    ensures W(block, t) == Mix(p, q, r, s)
  {
  }

  /** One round with its terms worked out. */
  lemma Next(block: seq<bv8>, t: nat, s: State, f: bv32, w: bv32, k: bv32)
    requires |block| == 64 && Rounds(block, t, INIT) == s
    requires F(t, s.b, s.c, s.d) == f && W(block, t) == w && K(t) == k
    ensures Rounds(block, t + 1, INIT) == State(Sum5(Rol5(s.a), f, s.e, w, k), s.a, Rol30(s.b), s.c, s.d)
  {
    hide Rounds, W, F, K, Rol5, Rol30, Sum5;
    RoundsStep(block, t, INIT);
  }

  lemma Row1(block: seq<bv8>)
    requires Padded(block)
    ensures Row(block, 0,
                 0x61626380, 0, 0, 0, 0, 0, 0, 0,
                 0, 0, 0, 0, 0, 0, 0, 24)
  {
    assert |block| == 64;
    hide Padded, W;
    FirstWord(block, 0);
    FirstWord(block, 1);
    FirstWord(block, 2);
    FirstWord(block, 3);
    FirstWord(block, 4);
    FirstWord(block, 5);
    FirstWord(block, 6);
    FirstWord(block, 7);
    FirstWord(block, 8);
    FirstWord(block, 9);
    FirstWord(block, 10);
    FirstWord(block, 11);
    FirstWord(block, 12);
    FirstWord(block, 13);
    FirstWord(block, 14);
    FirstWord(block, 15);
  }

  lemma Row2(block: seq<bv8>)
    requires |block| == 64
    requires Row(block, 0,
                 0x61626380, 0, 0, 0, 0, 0, 0, 0,
                 0, 0, 0, 0, 0, 0, 0, 24)
    ensures Row(block, 16,
                 0xc2c4c700, 0, 48, 0x85898e01, 0, 96, 0x0b131c03, 48,
                 0x85898ec1, 0x16263806, 0, 0x00000180, 0x2c4c700c, 0x000000f0, 0x93afb507, 0x5898e048)
  {
    hide W;
    Mixed(block, 16, 0, 0, 0, 0x61626380);
    Mixed(block, 17, 0, 0, 0, 0);
    Mixed(block, 18, 24, 0, 0, 0);
    Mixed(block, 19, 0xc2c4c700, 0, 0, 0);
    Mixed(block, 20, 0, 0, 0, 0);
    Mixed(block, 21, 48, 0, 0, 0);
    Mixed(block, 22, 0x85898e01, 0, 0, 0);
    Mixed(block, 23, 0, 24, 0, 0);
    Mixed(block, 24, 96, 0xc2c4c700, 0, 0);
    Mixed(block, 25, 0x0b131c03, 0, 0, 0);
    Mixed(block, 26, 48, 48, 0, 0);
    Mixed(block, 27, 0x85898ec1, 0x85898e01, 0, 0);
    Mixed(block, 28, 0x16263806, 0, 0, 0);
    Mixed(block, 29, 0, 96, 24, 0);
    Mixed(block, 30, 0x00000180, 0x0b131c03, 0xc2c4c700, 0);
    Mixed(block, 31, 0x2c4c700c, 48, 0, 24);
  }

  lemma Row3(block: seq<bv8>)
    requires |block| == 64
    requires Row(block, 16,
                 0xc2c4c700, 0, 48, 0x85898e01, 0, 96, 0x0b131c03, 48,
                 0x85898ec1, 0x16263806, 0, 0x00000180, 0x2c4c700c, 0x000000f0, 0x93afb507, 0x5898e048)
    ensures Row(block, 32,
                 0x8e9a9202, 0x00000600, 0xb131c0f0, 0x16263bc6, 0x4ebed41e, 0x626380a1, 0x16263806, 0x000018c0,
                 0xd2e138c4, 0x00000f00, 0x3afb5079, 0x898e04e5, 0xe2ba3c2b, 0x000060c0, 0x053a37cd, 0x74458547)
  {
    hide W;
    Mixed(block, 32, 0x000000f0, 0x85898ec1, 48, 0xc2c4c700);
    Mixed(block, 33, 0x93afb507, 0x16263806, 0x85898e01, 0);
    Mixed(block, 34, 0x5898e048, 0, 0, 48);
    Mixed(block, 35, 0x8e9a9202, 0x00000180, 96, 0x85898e01);
    Mixed(block, 36, 0x00000600, 0x2c4c700c, 0x0b131c03, 0);
    Mixed(block, 37, 0xb131c0f0, 0x000000f0, 48, 96);
    Mixed(block, 38, 0x16263bc6, 0x93afb507, 0x85898ec1, 0x0b131c03);
    Mixed(block, 39, 0x4ebed41e, 0x5898e048, 0x16263806, 48);
    Mixed(block, 40, 0x626380a1, 0x8e9a9202, 0, 0x85898ec1);
    Mixed(block, 41, 0x16263806, 0x00000600, 0x00000180, 0x16263806);
    Mixed(block, 42, 0x000018c0, 0xb131c0f0, 0x2c4c700c, 0);
    Mixed(block, 43, 0xd2e138c4, 0x16263bc6, 0x000000f0, 0x00000180);
    Mixed(block, 44, 0x00000f00, 0x4ebed41e, 0x93afb507, 0x2c4c700c);
    Mixed(block, 45, 0x3afb5079, 0x626380a1, 0x5898e048, 0x000000f0);
    Mixed(block, 46, 0x898e04e5, 0x16263806, 0x8e9a9202, 0x93afb507);
    Mixed(block, 47, 0xe2ba3c2b, 0x000018c0, 0x00000600, 0x5898e048);
  }

  lemma Row4(block: seq<bv8>)
    requires |block| == 64
    requires Row(block, 32,
                 0x8e9a9202, 0x00000600, 0xb131c0f0, 0x16263bc6, 0x4ebed41e, 0x626380a1, 0x16263806, 0x000018c0,
                 0xd2e138c4, 0x00000f00, 0x3afb5079, 0x898e04e5, 0xe2ba3c2b, 0x000060c0, 0x053a37cd, 0x74458547)
    ensures Row(block, 48,
                 0xda9415ed, 0x26380a16, 0x626383a1, 0x4ebf54de, 0x3835b44b, 0x0000f600, 0x1e84c7a3, 0x98e04d98,
                 0x651d16a0, 0x62658ca1, 0x458544d6, 0x44584cb7, 0x7ba06619, 0x6380aea2, 0x0ae55269, 0x627b49a1)
  {
    hide W;
    Mixed(block, 48, 0x000060c0, 0xd2e138c4, 0xb131c0f0, 0x8e9a9202);
    Mixed(block, 49, 0x053a37cd, 0x00000f00, 0x16263bc6, 0x00000600);
    Mixed(block, 50, 0x74458547, 0x3afb5079, 0x4ebed41e, 0xb131c0f0);
    Mixed(block, 51, 0xda9415ed, 0x898e04e5, 0x626380a1, 0x16263bc6);
    Mixed(block, 52, 0x26380a16, 0xe2ba3c2b, 0x16263806, 0x4ebed41e);
    Mixed(block, 53, 0x626383a1, 0x000060c0, 0x000018c0, 0x626380a1);
    Mixed(block, 54, 0x4ebf54de, 0x053a37cd, 0xd2e138c4, 0x16263806);
    Mixed(block, 55, 0x3835b44b, 0x74458547, 0x00000f00, 0x000018c0);
    Mixed(block, 56, 0x0000f600, 0xda9415ed, 0x3afb5079, 0xd2e138c4);
    Mixed(block, 57, 0x1e84c7a3, 0x26380a16, 0x898e04e5, 0x00000f00);
    Mixed(block, 58, 0x98e04d98, 0x626383a1, 0xe2ba3c2b, 0x3afb5079);
    Mixed(block, 59, 0x651d16a0, 0x4ebf54de, 0x000060c0, 0x898e04e5);
    Mixed(block, 60, 0x62658ca1, 0x3835b44b, 0x053a37cd, 0xe2ba3c2b);
    Mixed(block, 61, 0x458544d6, 0x0000f600, 0x74458547, 0x000060c0);
    Mixed(block, 62, 0x44584cb7, 0x1e84c7a3, 0xda9415ed, 0x053a37cd);
    Mixed(block, 63, 0x7ba06619, 0x98e04d98, 0x26380a16, 0x74458547);
  }

  lemma Row5(block: seq<bv8>)
    requires |block| == 64
    requires Row(block, 48,
                 0xda9415ed, 0x26380a16, 0x626383a1, 0x4ebf54de, 0x3835b44b, 0x0000f600, 0x1e84c7a3, 0x98e04d98,
                 0x651d16a0, 0x62658ca1, 0x458544d6, 0x44584cb7, 0x7ba06619, 0x6380aea2, 0x0ae55269, 0x627b49a1)
    ensures Row(block, 64,
                 0x7cd45c9d, 0x000f0000, 0xfb50753a, 0xec6765e8, 0xba3c2be2, 0x0060c000, 0x3a37cd05, 0x458546f4,
                 0xb8599dd6, 0x380a1a26, 0x01e02203, 0xe7cc3456, 0xe6e60b69, 0x00f60a00, 0x5795ef4f, 0x822e0879)
  {
    hide W;
    Mixed(block, 64, 0x6380aea2, 0x651d16a0, 0x626383a1, 0xda9415ed);
    Mixed(block, 65, 0x0ae55269, 0x62658ca1, 0x4ebf54de, 0x26380a16);
    Mixed(block, 66, 0x627b49a1, 0x458544d6, 0x3835b44b, 0x626383a1);
    Mixed(block, 67, 0x7cd45c9d, 0x44584cb7, 0x0000f600, 0x4ebf54de);
    Mixed(block, 68, 0x000f0000, 0x7ba06619, 0x1e84c7a3, 0x3835b44b);
    Mixed(block, 69, 0xfb50753a, 0x6380aea2, 0x98e04d98, 0x0000f600);
    Mixed(block, 70, 0xec6765e8, 0x0ae55269, 0x651d16a0, 0x1e84c7a3);
    Mixed(block, 71, 0xba3c2be2, 0x627b49a1, 0x62658ca1, 0x98e04d98);
    Mixed(block, 72, 0x0060c000, 0x7cd45c9d, 0x458544d6, 0x651d16a0);
    Mixed(block, 73, 0x3a37cd05, 0x000f0000, 0x44584cb7, 0x62658ca1);
    Mixed(block, 74, 0x458546f4, 0xfb50753a, 0x7ba06619, 0x458544d6);
    Mixed(block, 75, 0xb8599dd6, 0xec6765e8, 0x6380aea2, 0x44584cb7);
    Mixed(block, 76, 0x380a1a26, 0xba3c2be2, 0x0ae55269, 0x7ba06619);
    Mixed(block, 77, 0x01e02203, 0x0060c000, 0x627b49a1, 0x6380aea2);
    Mixed(block, 78, 0xe7cc3456, 0x3a37cd05, 0x7cd45c9d, 0x0ae55269);
    Mixed(block, 79, 0xe6e60b69, 0x458546f4, 0x000f0000, 0x627b49a1);
  }

  lemma Rounds1(block: seq<bv8>)
    requires |block| == 64
    requires Row(block, 0,
                 0x61626380, 0, 0, 0, 0, 0, 0, 0,
                 0, 0, 0, 0, 0, 0, 0, 24)
    requires Rounds(block, 0, INIT)
          == State(0x67452301, 0xefcdab89, 0x98badcfe, 0x10325476, 0xc3d2e1f0)
    ensures Rounds(block, 16, INIT)
         == State(0x20bdd62f, 0x196bee77, 0x644a3da5, 0x1181ed99, 0x18c623f9)
  {
    hide W, Rounds;
    Next(block, 0, State(0x67452301, 0xefcdab89, 0x98badcfe, 0x10325476, 0xc3d2e1f0),
         0x98badcfe, 0x61626380, 0x5a827999);
    Next(block, 1, State(0x0116fc33, 0x67452301, 0x7bf36ae2, 0x98badcfe, 0x10325476),
         0xfbfbfefe, 0, 0x5a827999);
    Next(block, 2, State(0x8990536d, 0x0116fc33, 0x59d148c0, 0x7bf36ae2, 0x98badcfe),
         0x7bf14ac0, 0, 0x5a827999);
    Next(block, 3, State(0xa1390f08, 0x8990536d, 0xc045bf0c, 0x59d148c0, 0x7bf36ae2),
         0xd0411b8c, 0, 0x5a827999);
    Next(block, 4, State(0xcdd8e11b, 0xa1390f08, 0x626414db, 0xc045bf0c, 0x59d148c0),
         0x6064b40c, 0, 0x5a827999);
    Next(block, 5, State(0xcfd499de, 0xcdd8e11b, 0x284e43c2, 0x626414db, 0xc045bf0c),
         0x2a6c55c2, 0, 0x5a827999);
    Next(block, 6, State(0x3fc7ca40, 0xcfd499de, 0xf3763846, 0x284e43c2, 0x626414db),
         0xe35e5a46, 0, 0x5a827999);
    Next(block, 7, State(0x993e30c1, 0x3fc7ca40, 0xb3f52677, 0xf3763846, 0x284e43c2),
         0xf3f53246, 0, 0x5a827999);
    Next(block, 8, State(0x9e8c07d4, 0x993e30c1, 0x0ff1f290, 0xb3f52677, 0xf3763846),
         0x2bf136b6, 0, 0x5a827999);
    Next(block, 9, State(0x4b6ae328, 0x9e8c07d4, 0x664f8c30, 0x0ff1f290, 0xb3f52677),
         0x077df410, 0, 0x5a827999);
    Next(block, 10, State(0x8351f929, 0x4b6ae328, 0x27a301f5, 0x664f8c30, 0x0ff1f290),
         0x27270d30, 0, 0x5a827999);
    Next(block, 11, State(0xfbda9e89, 0x8351f929, 0x12dab8ca, 0x27a301f5, 0x664f8c30),
         0x26f2b8dc, 0, 0x5a827999);
    Next(block, 12, State(0x63188fe4, 0xfbda9e89, 0x60d47e4a, 0x12dab8ca, 0x27a301f5),
         0x60d03e4a, 0, 0x5a827999);
    Next(block, 13, State(0x4607b664, 0x63188fe4, 0x7ef6a7a2, 0x60d47e4a, 0x12dab8ca),
         0x62d4f7aa, 0, 0x5a827999);
    Next(block, 14, State(0x9128f695, 0x4607b664, 0x18c623f9, 0x7ef6a7a2, 0x60d47e4a),
         0x38f623e2, 0, 0x5a827999);
    Next(block, 15, State(0x196bee77, 0x9128f695, 0x1181ed99, 0x18c623f9, 0x7ef6a7a2),
         0x19c6e5f9, 24, 0x5a827999);
  }

  lemma Rounds2(block: seq<bv8>)
    requires |block| == 64
    requires Row(block, 16,
                 0xc2c4c700, 0, 48, 0x85898e01, 0, 96, 0x0b131c03, 48,
                 0x85898ec1, 0x16263806, 0, 0x00000180, 0x2c4c700c, 0x000000f0, 0x93afb507, 0x5898e048)
    requires Rounds(block, 16, INIT)
          == State(0x20bdd62f, 0x196bee77, 0x644a3da5, 0x1181ed99, 0x18c623f9)
    ensures Rounds(block, 32, INIT)
         == State(0x3b845d33, 0x1267b407, 0x717eebd7, 0xa0dc2d4b, 0xd2aa1365)
  {
    hide W, Rounds;
    Next(block, 16, State(0x20bdd62f, 0x196bee77, 0x644a3da5, 0x1181ed99, 0x18c623f9),
         0x00ca2dad, 0xc2c4c700, 0x5a827999);
    Next(block, 17, State(0x4e925823, 0x20bdd62f, 0xc65afb9d, 0x644a3da5, 0x1181ed99),
         0x445afb8d, 0, 0x5a827999);
    Next(block, 18, State(0x82aa6728, 0x4e925823, 0xc82f758b, 0xc65afb9d, 0x644a3da5),
         0xc84af39f, 48, 0x5a827999);
    Next(block, 19, State(0xdc64901d, 0x82aa6728, 0xd3a49608, 0xc82f758b, 0xc65afb9d),
         0xcaa5168b, 0x85898e01, 0x5a827999);
    Next(block, 20, State(0xfd9e1d7d, 0xdc64901d, 0x20aa99ca, 0xd3a49608, 0xc82f758b),
         0x2f6a9fdf, 0, 0x6ed9eba1);
    Next(block, 21, State(0x1a37b0ca, 0xfd9e1d7d, 0x77192407, 0x20aa99ca, 0xd3a49608),
         0xaa2da0b0, 96, 0x6ed9eba1);
    Next(block, 22, State(0x33a23bfc, 0x1a37b0ca, 0x7f67875f, 0x77192407, 0x20aa99ca),
         0x12491392, 0x0b131c03, 0x6ed9eba1);
    Next(block, 23, State(0x21283486, 0x33a23bfc, 0x868dec32, 0x7f67875f, 0x77192407),
         0xca485091, 48, 0x6ed9eba1);
    Next(block, 24, State(0xd541f12d, 0x21283486, 0x0ce88eff, 0x868dec32, 0x7f67875f),
         0xab4d564b, 0x85898ec1, 0x6ed9eba1);
    Next(block, 25, State(0xc7567dc6, 0xd541f12d, 0x884a0d21, 0x0ce88eff, 0x868dec32),
         0x51e372f3, 0x16263806, 0x6ed9eba1);
    Next(block, 26, State(0x48413ba4, 0xc7567dc6, 0x75507c4b, 0x884a0d21, 0x0ce88eff),
         0x3a4c0cac, 0, 0x6ed9eba1);
    Next(block, 27, State(0xbe35fbd5, 0x48413ba4, 0xb1d59f71, 0x75507c4b, 0x884a0d21),
         0x8cc4d89e, 0x00000180, 0x6ed9eba1);
    Next(block, 28, State(0x4aa84d97, 0xbe35fbd5, 0x12104ee9, 0xb1d59f71, 0x75507c4b),
         0x1df02a4d, 0x2c4c700c, 0x6ed9eba1);
    Next(block, 29, State(0x8370b52e, 0x4aa84d97, 0x6f8d7ef5, 0x12104ee9, 0xb1d59f71),
         0x37357d8b, 0x000000f0, 0x6ed9eba1);
    Next(block, 30, State(0xc5fbaf5d, 0x8370b52e, 0xd2aa1365, 0x6f8d7ef5, 0x12104ee9),
         0x3e57d8be, 0x93afb507, 0x6ed9eba1);
    Next(block, 31, State(0x1267b407, 0xc5fbaf5d, 0xa0dc2d4b, 0xd2aa1365, 0x6f8d7ef5),
         0xb78d9173, 0x5898e048, 0x6ed9eba1);
  }

  lemma Rounds3(block: seq<bv8>)
    requires |block| == 64
    requires Row(block, 32,
                 0x8e9a9202, 0x00000600, 0xb131c0f0, 0x16263bc6, 0x4ebed41e, 0x626380a1, 0x16263806, 0x000018c0,
                 0xd2e138c4, 0x00000f00, 0x3afb5079, 0x898e04e5, 0xe2ba3c2b, 0x000060c0, 0x053a37cd, 0x74458547)
    requires Rounds(block, 32, INIT)
          == State(0x3b845d33, 0x1267b407, 0x717eebd7, 0xa0dc2d4b, 0xd2aa1365)
    ensures Rounds(block, 48, INIT)
         == State(0xbead02ca, 0xa01b846c, 0x8714787c, 0x503ca382, 0xfb86c6ab)
  {
    hide W, Rounds;
    Next(block, 32, State(0x3b845d33, 0x1267b407, 0x717eebd7, 0xa0dc2d4b, 0xd2aa1365),
         0xc3c5729b, 0x8e9a9202, 0x6ed9eba1);
    Next(block, 33, State(0x046faa0a, 0x3b845d33, 0xc499ed01, 0x717eebd7, 0xa0dc2d4b),
         0x8e635be5, 0x00000600, 0x6ed9eba1);
    Next(block, 34, State(0x2c0ebc11, 0x046faa0a, 0xcee1174c, 0xc499ed01, 0x717eebd7),
         0x0e175047, 0xb131c0f0, 0x6ed9eba1);
    Next(block, 35, State(0x21796ad4, 0x2c0ebc11, 0x811bea82, 0xcee1174c, 0xc499ed01),
         0x63f441df, 0x16263bc6, 0x6ed9eba1);
    Next(block, 36, State(0xdcbbb0cb, 0x21796ad4, 0x4b03af04, 0x811bea82, 0xcee1174c),
         0xeb612f52, 0x4ebed41e, 0x6ed9eba1);
    Next(block, 37, State(0x0f511fd8, 0xdcbbb0cb, 0x085e5ab5, 0x4b03af04, 0x811bea82),
         0x9fe6457a, 0x626380a1, 0x6ed9eba1);
    Next(block, 38, State(0xdc63973f, 0x0f511fd8, 0xf72eec32, 0x085e5ab5, 0x4b03af04),
         0xf021a95f, 0x16263806, 0x6ed9eba1);
    Next(block, 39, State(0x4c986405, 0xdc63973f, 0x03d447f6, 0xf72eec32, 0x085e5ab5),
         0x28993cfb, 0x000018c0, 0x6ed9eba1);
    Next(block, 40, State(0x32de1cba, 0x4c986405, 0xf718e5cf, 0x03d447f6, 0xf72eec32),
         0x479865c7, 0xd2e138c4, 0x8f1bbcdc);
    Next(block, 41, State(0xfc87dedf, 0x32de1cba, 0x53261901, 0xf718e5cf, 0x03d447f6),
         0x731e1d8b, 0x00000f00, 0x8f1bbcdc);
    Next(block, 42, State(0x970a0d5c, 0xfc87dedf, 0x8cb7872e, 0x53261901, 0xf718e5cf),
         0xdca79f0f, 0x3afb5079, 0x8f1bbcdc);
    Next(block, 43, State(0x7f193dc5, 0x970a0d5c, 0xff21f7b7, 0x8cb7872e, 0x53261901),
         0x9f23873e, 0x898e04e5, 0x8f1bbcdc);
    Next(block, 44, State(0xee1b1aaf, 0x7f193dc5, 0x25c28357, 0xff21f7b7, 0x8cb7872e),
         0x7f01b7d7, 0xe2ba3c2b, 0x8f1bbcdc);
    Next(block, 45, State(0x40f28e09, 0xee1b1aaf, 0x5fc64f71, 0x25c28357, 0xff21f7b7),
         0x6fc20b77, 0x000060c0, 0x8f1bbcdc);
    Next(block, 46, State(0x1c51e1f2, 0x40f28e09, 0xfb86c6ab, 0x5fc64f71, 0x25c28357),
         0x5bc6ce29, 0x053a37cd, 0x8f1bbcdc);
    Next(block, 47, State(0xa01b846c, 0x1c51e1f2, 0x503ca382, 0xfb86c6ab, 0x5fc64f71),
         0x5814e3a2, 0x74458547, 0x8f1bbcdc);
  }

  lemma Rounds4(block: seq<bv8>)
    requires |block| == 64
    requires Row(block, 48,
                 0xda9415ed, 0x26380a16, 0x626383a1, 0x4ebf54de, 0x3835b44b, 0x0000f600, 0x1e84c7a3, 0x98e04d98,
                 0x651d16a0, 0x62658ca1, 0x458544d6, 0x44584cb7, 0x7ba06619, 0x6380aea2, 0x0ae55269, 0x627b49a1)
    requires Rounds(block, 48, INIT)
          == State(0xbead02ca, 0xa01b846c, 0x8714787c, 0x503ca382, 0xfb86c6ab)
    ensures Rounds(block, 64, INIT)
         == State(0x6b61c9e1, 0xb66c020b, 0x9523272c, 0xf5d5b051, 0x8fd4b796)
  {
    hide W, Rounds;
    Next(block, 48, State(0xbead02ca, 0xa01b846c, 0x8714787c, 0x503ca382, 0xfb86c6ab),
         0x801ca06c, 0xda9415ed, 0x8f1bbcdc);
    Next(block, 49, State(0xbaf39337, 0xbead02ca, 0x2806e11b, 0x8714787c, 0x503ca382),
         0xae04605a, 0x26380a16, 0x8f1bbcdc);
    Next(block, 50, State(0x120731c5, 0xbaf39337, 0xafab40b2, 0x2806e11b, 0x8714787c),
         0xaaa3c133, 0x626383a1, 0x8f1bbcdc);
    Next(block, 51, State(0x641db2ce, 0x120731c5, 0xeebce4cd, 0xafab40b2, 0x2806e11b),
         0xaeaf60c5, 0x4ebf54de, 0x8f1bbcdc);
    Next(block, 52, State(0x3847ad66, 0x641db2ce, 0x4481cc71, 0xeebce4cd, 0xafab40b2),
         0x649de4cd, 0x3835b44b, 0x8f1bbcdc);
    Next(block, 53, State(0xe490436d, 0x3847ad66, 0x99076cb3, 0x4481cc71, 0xeebce4cd),
         0x1807ec73, 0x0000f600, 0x8f1bbcdc);
    Next(block, 54, State(0x27e9f1d8, 0xe490436d, 0x8e11eb59, 0x99076cb3, 0x4481cc71),
         0x8c116b79, 0x1e84c7a3, 0x8f1bbcdc);
    Next(block, 55, State(0x7b71f76d, 0x27e9f1d8, 0x792410db, 0x8e11eb59, 0x99076cb3),
         0x2f21f1d9, 0x98e04d98, 0x8f1bbcdc);
    Next(block, 56, State(0x5e6456af, 0x7b71f76d, 0x09fa7c76, 0x792410db, 0x8e11eb59),
         0x7970747f, 0x651d16a0, 0x8f1bbcdc);
    Next(block, 57, State(0xc846093f, 0x5e6456af, 0x5edc7ddb, 0x09fa7c76, 0x792410db),
         0x5efc7cff, 0x62658ca1, 0x8f1bbcdc);
    Next(block, 58, State(0xd262ff50, 0xc846093f, 0xd79915ab, 0x5edc7ddb, 0x09fa7c76),
         0xdedc1dbb, 0x458544d6, 0x8f1bbcdc);
    Next(block, 59, State(0x09d785fd, 0xd262ff50, 0xf211824f, 0xd79915ab, 0x5edc7ddb),
         0xd211974b, 0x44584cb7, 0x8f1bbcdc);
    Next(block, 60, State(0x3f52de5a, 0x09d785fd, 0x3498bfd4, 0xf211824f, 0xd79915ab),
         0xcf5eb866, 0x7ba06619, 0xca62c1d6);
    Next(block, 61, State(0xd756c147, 0x3f52de5a, 0x4275e17f, 0x3498bfd4, 0xf211824f),
         0x49bf80f1, 0x6380aea2, 0xca62c1d6);
    Next(block, 62, State(0x548c9cb2, 0xd756c147, 0x8fd4b796, 0x4275e17f, 0x3498bfd4),
         0x1af797ae, 0x0ae55269, 0xca62c1d6);
    Next(block, 63, State(0xb66c020b, 0x548c9cb2, 0xf5d5b051, 0x8fd4b796, 0x4275e17f),
         0x2e8d9b75, 0x627b49a1, 0xca62c1d6);
  }

  lemma Rounds5(block: seq<bv8>)
    requires |block| == 64
    requires Row(block, 64,
                 0x7cd45c9d, 0x000f0000, 0xfb50753a, 0xec6765e8, 0xba3c2be2, 0x0060c000, 0x3a37cd05, 0x458546f4,
                 0xb8599dd6, 0x380a1a26, 0x01e02203, 0xe7cc3456, 0xe6e60b69, 0x00f60a00, 0x5795ef4f, 0x822e0879)
    requires Rounds(block, 64, INIT)
          == State(0x6b61c9e1, 0xb66c020b, 0x9523272c, 0xf5d5b051, 0x8fd4b796)
    ensures Rounds(block, 80, INIT)
         == State(0x42541b35, 0x5738d5e1, 0x21834873, 0x681e6df6, 0xd8fdf6ad)
  {
    hide W, Rounds;
    Next(block, 64, State(0x6b61c9e1, 0xb66c020b, 0x9523272c, 0xf5d5b051, 0x8fd4b796),
         0xd69a9576, 0x7cd45c9d, 0xca62c1d6);
    Next(block, 65, State(0x19dfa7ac, 0x6b61c9e1, 0xed9b0082, 0x9523272c, 0xf5d5b051),
         0x13d9ee4f, 0x000f0000, 0xca62c1d6);
    Next(block, 66, State(0x101655f9, 0x19dfa7ac, 0x5ad87278, 0xed9b0082, 0x9523272c),
         0xae9cd556, 0xfb50753a, 0xca62c1d6);
    Next(block, 67, State(0x0c3df2b4, 0x101655f9, 0x0677e9eb, 0x5ad87278, 0xed9b0082),
         0x4cb9ce6a, 0xec6765e8, 0xca62c1d6);
    Next(block, 68, State(0x78dd4d2b, 0x0c3df2b4, 0x4405957e, 0x0677e9eb, 0x5ad87278),
         0x4e4f8e21, 0xba3c2be2, 0xca62c1d6);
    Next(block, 69, State(0x497093c0, 0x78dd4d2b, 0x030f7cad, 0x4405957e, 0x0677e9eb),
         0x3fd7a4f8, 0x0060c000, 0xca62c1d6);
    Next(block, 70, State(0x3f2588c2, 0x497093c0, 0xde37534a, 0x030f7cad, 0x4405957e),
         0x9448bc27, 0x3a37cd05, 0xca62c1d6);
    Next(block, 71, State(0xc199f8c7, 0x3f2588c2, 0x125c24f0, 0xde37534a, 0x030f7cad),
         0xf34eff78, 0x458546f4, 0xca62c1d6);
    Next(block, 72, State(0x39859de7, 0xc199f8c7, 0x8fc96230, 0x125c24f0, 0xde37534a),
         0x5c0cbe07, 0xb8599dd6, 0xca62c1d6);
    Next(block, 73, State(0xedb42de4, 0x39859de7, 0xf0667e31, 0x8fc96230, 0x125c24f0),
         0x462a81e6, 0x380a1a26, 0xca62c1d6);
    Next(block, 74, State(0x11793f6f, 0xedb42de4, 0xce616779, 0xf0667e31, 0x8fc96230),
         0xd3b334ac, 0x01e02203, 0xca62c1d6);
    Next(block, 75, State(0x5ee76897, 0x11793f6f, 0x3b6d0b79, 0xce616779, 0xf0667e31),
         0xe475536f, 0xe7cc3456, 0xca62c1d6);
    Next(block, 76, State(0x63f7dab7, 0x5ee76897, 0xc45e4fdb, 0x3b6d0b79, 0xce616779),
         0xa1d42c35, 0xe6e60b69, 0xca62c1d6);
    Next(block, 77, State(0xa079b7d9, 0x63f7dab7, 0xd7b9da25, 0xc45e4fdb, 0x3b6d0b79),
         0x70104f49, 0x00f60a00, 0xca62c1d6);
    Next(block, 78, State(0x860d21cc, 0xa079b7d9, 0xd8fdf6ad, 0xd7b9da25, 0xc45e4fdb),
         0xaf3d9b51, 0x5795ef4f, 0xca62c1d6);
    Next(block, 79, State(0x5738d5e1, 0x860d21cc, 0x681e6df6, 0xd8fdf6ad, 0xd7b9da25),
         0x36eeba97, 0x822e0879, 0xca62c1d6);
  }

  lemma Chained(block: seq<bv8>)
    requires Padded(block)
    ensures Compress(INIT, block)
         == State(0xa9993e36, 0x4706816a, 0xba3e2571, 0x7850c26c, 0x9cd0d89d)
  {
    assert |block| == 64;
    hide Rounds, Padded, W, Row;
    RoundsStep(block, 0, INIT);
    Row1(block);
    Row2(block);
    Row3(block);
    Row4(block);
    Row5(block);
    Rounds1(block);
    Rounds2(block);
    Rounds3(block);
    Rounds4(block);
    Rounds5(block);
  }

  lemma PaddedMessage(m: seq<bv8>)
    requires m == [0x61, 0x62, 0x63]
    ensures Padded(Pad(m))
  {
    assert 8 * |m| % COUNTER == 24 && ZeroCount(|m|) == 52;
    CountOf24();
    hide CountBytes, ZeroCount;
  }

  lemma CountOf24()
    ensures CountBytes(24) == [0, 0, 0, 0, 0, 0, 0, 24]
  {
    assert ShiftBytes(24, 0) == 24 && ShiftBytes(24, 1) == 0;
    assert ShiftBytes(24, 2) == 0 && ShiftBytes(24, 3) == 0 && ShiftBytes(24, 4) == 0;
    assert ShiftBytes(24, 5) == 0 && ShiftBytes(24, 6) == 0 && ShiftBytes(24, 7) == 0;
  }

  lemma Bytes()
    ensures DigestBytes(State(0xa9993e36, 0x4706816a, 0xba3e2571, 0x7850c26c, 0x9cd0d89d))
         == [0xa9, 0x99, 0x3e, 0x36, 0x47, 0x06, 0x81, 0x6a, 0xba, 0x3e,
             0x25, 0x71, 0x78, 0x50, 0xc2, 0x6c, 0x9c, 0xd0, 0xd8, 0x9d]
  {
  }

  /** SHA-1 ("abc") = a9993e364706816aba3e25717850c26c9cd0d89d */
  lemma DigestOfAbc(m: seq<bv8>)
    requires m == [0x61, 0x62, 0x63]
    ensures Digest(m)
         == [0xa9, 0x99, 0x3e, 0x36, 0x47, 0x06, 0x81, 0x6a, 0xba, 0x3e,
             0x25, 0x71, 0x78, 0x50, 0xc2, 0x6c, 0x9c, 0xd0, 0xd8, 0x9d]
  {
    hide Compress, Pad, DigestBytes;
    PaddedMessage(m);
    Chained(Pad(m));
    AbsorbOne(Compress, INIT, Pad(m));
    Bytes();
  }
}
