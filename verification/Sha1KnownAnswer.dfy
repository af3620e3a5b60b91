/** A known answer: the digest of "abc", as the appendix of the standard and the repository's own test
    vectors have it. Every constant, rotation and index of the definition takes part in it. */
module Sha1KnownAnswer {
  import opened Bytes
  import opened Sha1Spec

  const ABC: seq<Byte> := [0x61, 0x62, 0x63]

  /** The one block the padded message consists of. */
  const BLOCK: seq<Byte> := ABC + [0x80] + Zeros(52) + [0, 0, 0, 0, 0, 0, 0, 24]

  /** The word of the schedule at `t` follows from four earlier ones. */
  lemma Next(t: nat, w3: Word, w8: Word, w14: Word, w16: Word)
    requires t >= 16 && |BLOCK| == 64
    requires W(BLOCK, t - 3) == w3 && W(BLOCK, t - 8) == w8 && W(BLOCK, t - 14) == w14 && W(BLOCK, t - 16) == w16
    ensures W(BLOCK, t) == Rotl(w3 ^ w8 ^ w14 ^ w16, 1)
  {
  }

  /** One round further. */
  lemma Step(t: nat, h: Hash, w: Word)
    requires |BLOCK| == 64 && Rounds(H0, BLOCK, t) == h && W(BLOCK, t) == w
    ensures Rounds(H0, BLOCK, t + 1) == Round(h, t, w)
  {
  }

  lemma Schedule0()
    ensures |BLOCK| == 64
    ensures W(BLOCK, 0) == 0x61626380 && W(BLOCK, 15) == 24
    ensures forall t :: 0 < t < 15 ==> W(BLOCK, t) == 0
  {
    forall t | 0 < t < 15 ensures W(BLOCK, t) == 0 {
      ZeroWord(t);
    }
  }

  lemma ZeroWord(t: nat)
    requires 0 < t < 15
    ensures |BLOCK| == 64 && W(BLOCK, t) == 0
  {
    hide BLOCK;
    ZeroByte(4 * t);
    ZeroByte(4 * t + 1);
    ZeroByte(4 * t + 2);
    ZeroByte(4 * t + 3);
  }

  lemma ZeroByte(k: nat)
    requires 4 <= k < 60
    ensures |BLOCK| == 64 && BLOCK[k] == 0
  {
  }

  lemma Schedule1()
    ensures |BLOCK| == 64
    ensures W(BLOCK, 16) == 0xc2c4c700
    ensures W(BLOCK, 17) == 0x00000000
    ensures W(BLOCK, 18) == 0x00000030
    ensures W(BLOCK, 19) == 0x85898e01
    ensures W(BLOCK, 20) == 0x00000000
    ensures W(BLOCK, 21) == 0x00000060
    ensures W(BLOCK, 22) == 0x0b131c03
    ensures W(BLOCK, 23) == 0x00000030
    ensures W(BLOCK, 24) == 0x85898ec1
    ensures W(BLOCK, 25) == 0x16263806
    ensures W(BLOCK, 26) == 0x00000000
    ensures W(BLOCK, 27) == 0x00000180
    ensures W(BLOCK, 28) == 0x2c4c700c
    ensures W(BLOCK, 29) == 0x000000f0
    ensures W(BLOCK, 30) == 0x93afb507
    ensures W(BLOCK, 31) == 0x5898e048
  {
    Schedule0();
    hide W;
    Next(16, 0x00000000, 0x00000000, 0x00000000, 0x61626380);
    Next(17, 0x00000000, 0x00000000, 0x00000000, 0x00000000);
    Next(18, 0x00000018, 0x00000000, 0x00000000, 0x00000000);
    Next(19, 0xc2c4c700, 0x00000000, 0x00000000, 0x00000000);
    Next(20, 0x00000000, 0x00000000, 0x00000000, 0x00000000);
    Next(21, 0x00000030, 0x00000000, 0x00000000, 0x00000000);
    Next(22, 0x85898e01, 0x00000000, 0x00000000, 0x00000000);
    Next(23, 0x00000000, 0x00000018, 0x00000000, 0x00000000);
    Next(24, 0x00000060, 0xc2c4c700, 0x00000000, 0x00000000);
    Next(25, 0x0b131c03, 0x00000000, 0x00000000, 0x00000000);
    Next(26, 0x00000030, 0x00000030, 0x00000000, 0x00000000);
    Next(27, 0x85898ec1, 0x85898e01, 0x00000000, 0x00000000);
    Next(28, 0x16263806, 0x00000000, 0x00000000, 0x00000000);
    Next(29, 0x00000000, 0x00000060, 0x00000018, 0x00000000);
    Next(30, 0x00000180, 0x0b131c03, 0xc2c4c700, 0x00000000);
    Next(31, 0x2c4c700c, 0x00000030, 0x00000000, 0x00000018);
  }

  lemma Schedule2()
    ensures |BLOCK| == 64
    ensures W(BLOCK, 32) == 0x8e9a9202
    ensures W(BLOCK, 33) == 0x00000600
    ensures W(BLOCK, 34) == 0xb131c0f0
    ensures W(BLOCK, 35) == 0x16263bc6
    ensures W(BLOCK, 36) == 0x4ebed41e
    ensures W(BLOCK, 37) == 0x626380a1
    ensures W(BLOCK, 38) == 0x16263806
    ensures W(BLOCK, 39) == 0x000018c0
    ensures W(BLOCK, 40) == 0xd2e138c4
    ensures W(BLOCK, 41) == 0x00000f00
    ensures W(BLOCK, 42) == 0x3afb5079
    ensures W(BLOCK, 43) == 0x898e04e5
    ensures W(BLOCK, 44) == 0xe2ba3c2b
    ensures W(BLOCK, 45) == 0x000060c0
    ensures W(BLOCK, 46) == 0x053a37cd
    ensures W(BLOCK, 47) == 0x74458547
  {
    Schedule1();
    hide W;
    Next(32, 0x000000f0, 0x85898ec1, 0x00000030, 0xc2c4c700);
    Next(33, 0x93afb507, 0x16263806, 0x85898e01, 0x00000000);
    Next(34, 0x5898e048, 0x00000000, 0x00000000, 0x00000030);
    Next(35, 0x8e9a9202, 0x00000180, 0x00000060, 0x85898e01);
    Next(36, 0x00000600, 0x2c4c700c, 0x0b131c03, 0x00000000);
    Next(37, 0xb131c0f0, 0x000000f0, 0x00000030, 0x00000060);
    Next(38, 0x16263bc6, 0x93afb507, 0x85898ec1, 0x0b131c03);
    Next(39, 0x4ebed41e, 0x5898e048, 0x16263806, 0x00000030);
    Next(40, 0x626380a1, 0x8e9a9202, 0x00000000, 0x85898ec1);
    Next(41, 0x16263806, 0x00000600, 0x00000180, 0x16263806);
    Next(42, 0x000018c0, 0xb131c0f0, 0x2c4c700c, 0x00000000);
    Next(43, 0xd2e138c4, 0x16263bc6, 0x000000f0, 0x00000180);
    Next(44, 0x00000f00, 0x4ebed41e, 0x93afb507, 0x2c4c700c);
    Next(45, 0x3afb5079, 0x626380a1, 0x5898e048, 0x000000f0);
    Next(46, 0x898e04e5, 0x16263806, 0x8e9a9202, 0x93afb507);
    Next(47, 0xe2ba3c2b, 0x000018c0, 0x00000600, 0x5898e048);
  }

  lemma Schedule3()
    ensures |BLOCK| == 64
    ensures W(BLOCK, 48) == 0xda9415ed
    ensures W(BLOCK, 49) == 0x26380a16
    ensures W(BLOCK, 50) == 0x626383a1
    ensures W(BLOCK, 51) == 0x4ebf54de
    ensures W(BLOCK, 52) == 0x3835b44b
    ensures W(BLOCK, 53) == 0x0000f600
    ensures W(BLOCK, 54) == 0x1e84c7a3
    ensures W(BLOCK, 55) == 0x98e04d98
    ensures W(BLOCK, 56) == 0x651d16a0
    ensures W(BLOCK, 57) == 0x62658ca1
    ensures W(BLOCK, 58) == 0x458544d6
    ensures W(BLOCK, 59) == 0x44584cb7
    ensures W(BLOCK, 60) == 0x7ba06619
    ensures W(BLOCK, 61) == 0x6380aea2
    ensures W(BLOCK, 62) == 0x0ae55269
    ensures W(BLOCK, 63) == 0x627b49a1
  {
    Schedule2();
    hide W;
    Next(48, 0x000060c0, 0xd2e138c4, 0xb131c0f0, 0x8e9a9202);
    Next(49, 0x053a37cd, 0x00000f00, 0x16263bc6, 0x00000600);
    Next(50, 0x74458547, 0x3afb5079, 0x4ebed41e, 0xb131c0f0);
    Next(51, 0xda9415ed, 0x898e04e5, 0x626380a1, 0x16263bc6);
    Next(52, 0x26380a16, 0xe2ba3c2b, 0x16263806, 0x4ebed41e);
    Next(53, 0x626383a1, 0x000060c0, 0x000018c0, 0x626380a1);
    Next(54, 0x4ebf54de, 0x053a37cd, 0xd2e138c4, 0x16263806);
    Next(55, 0x3835b44b, 0x74458547, 0x00000f00, 0x000018c0);
    Next(56, 0x0000f600, 0xda9415ed, 0x3afb5079, 0xd2e138c4);
    Next(57, 0x1e84c7a3, 0x26380a16, 0x898e04e5, 0x00000f00);
    Next(58, 0x98e04d98, 0x626383a1, 0xe2ba3c2b, 0x3afb5079);
    Next(59, 0x651d16a0, 0x4ebf54de, 0x000060c0, 0x898e04e5);
    Next(60, 0x62658ca1, 0x3835b44b, 0x053a37cd, 0xe2ba3c2b);
    Next(61, 0x458544d6, 0x0000f600, 0x74458547, 0x000060c0);
    Next(62, 0x44584cb7, 0x1e84c7a3, 0xda9415ed, 0x053a37cd);
    Next(63, 0x7ba06619, 0x98e04d98, 0x26380a16, 0x74458547);
  }

  lemma Schedule4()
    ensures |BLOCK| == 64
    ensures W(BLOCK, 64) == 0x7cd45c9d
    ensures W(BLOCK, 65) == 0x000f0000
    ensures W(BLOCK, 66) == 0xfb50753a
    ensures W(BLOCK, 67) == 0xec6765e8
    ensures W(BLOCK, 68) == 0xba3c2be2
    ensures W(BLOCK, 69) == 0x0060c000
    ensures W(BLOCK, 70) == 0x3a37cd05
    ensures W(BLOCK, 71) == 0x458546f4
    ensures W(BLOCK, 72) == 0xb8599dd6
    ensures W(BLOCK, 73) == 0x380a1a26
    ensures W(BLOCK, 74) == 0x01e02203
    ensures W(BLOCK, 75) == 0xe7cc3456
    ensures W(BLOCK, 76) == 0xe6e60b69
    ensures W(BLOCK, 77) == 0x00f60a00
    ensures W(BLOCK, 78) == 0x5795ef4f
    ensures W(BLOCK, 79) == 0x822e0879
  {
    Schedule3();
    hide W;
    Next(64, 0x6380aea2, 0x651d16a0, 0x626383a1, 0xda9415ed);
    Next(65, 0x0ae55269, 0x62658ca1, 0x4ebf54de, 0x26380a16);
    Next(66, 0x627b49a1, 0x458544d6, 0x3835b44b, 0x626383a1);
    Next(67, 0x7cd45c9d, 0x44584cb7, 0x0000f600, 0x4ebf54de);
    Next(68, 0x000f0000, 0x7ba06619, 0x1e84c7a3, 0x3835b44b);
    Next(69, 0xfb50753a, 0x6380aea2, 0x98e04d98, 0x0000f600);
    Next(70, 0xec6765e8, 0x0ae55269, 0x651d16a0, 0x1e84c7a3);
    Next(71, 0xba3c2be2, 0x627b49a1, 0x62658ca1, 0x98e04d98);
    Next(72, 0x0060c000, 0x7cd45c9d, 0x458544d6, 0x651d16a0);
    Next(73, 0x3a37cd05, 0x000f0000, 0x44584cb7, 0x62658ca1);
    Next(74, 0x458546f4, 0xfb50753a, 0x7ba06619, 0x458544d6);
    Next(75, 0xb8599dd6, 0xec6765e8, 0x6380aea2, 0x44584cb7);
    Next(76, 0x380a1a26, 0xba3c2be2, 0x0ae55269, 0x7ba06619);
    Next(77, 0x01e02203, 0x0060c000, 0x627b49a1, 0x6380aea2);
    Next(78, 0xe7cc3456, 0x3a37cd05, 0x7cd45c9d, 0x0ae55269);
    Next(79, 0xe6e60b69, 0x458546f4, 0x000f0000, 0x627b49a1);
  }

  lemma Rounds0()
    ensures |BLOCK| == 64 && Rounds(H0, BLOCK, 10) == Hash(0x8351f929, 0x4b6ae328, 0x27a301f5, 0x664f8c30, 0x0ff1f290)
  {
    Schedule0();
    assert Rounds(H0, BLOCK, 0) == H0;
    hide W, Rounds;
    Step(0, Hash(0x67452301, 0xefcdab89, 0x98badcfe, 0x10325476, 0xc3d2e1f0), 0x61626380);
    Step(1, Hash(0x0116fc33, 0x67452301, 0x7bf36ae2, 0x98badcfe, 0x10325476), 0x00000000);
    Step(2, Hash(0x8990536d, 0x0116fc33, 0x59d148c0, 0x7bf36ae2, 0x98badcfe), 0x00000000);
    Step(3, Hash(0xa1390f08, 0x8990536d, 0xc045bf0c, 0x59d148c0, 0x7bf36ae2), 0x00000000);
    Step(4, Hash(0xcdd8e11b, 0xa1390f08, 0x626414db, 0xc045bf0c, 0x59d148c0), 0x00000000);
    Step(5, Hash(0xcfd499de, 0xcdd8e11b, 0x284e43c2, 0x626414db, 0xc045bf0c), 0x00000000);
    Step(6, Hash(0x3fc7ca40, 0xcfd499de, 0xf3763846, 0x284e43c2, 0x626414db), 0x00000000);
    Step(7, Hash(0x993e30c1, 0x3fc7ca40, 0xb3f52677, 0xf3763846, 0x284e43c2), 0x00000000);
    Step(8, Hash(0x9e8c07d4, 0x993e30c1, 0x0ff1f290, 0xb3f52677, 0xf3763846), 0x00000000);
    Step(9, Hash(0x4b6ae328, 0x9e8c07d4, 0x664f8c30, 0x0ff1f290, 0xb3f52677), 0x00000000);
  }

  lemma Rounds1()
    ensures |BLOCK| == 64 && Rounds(H0, BLOCK, 20) == Hash(0xfd9e1d7d, 0xdc64901d, 0x20aa99ca, 0xd3a49608, 0xc82f758b)
  {
    Schedule0();
    Schedule1();
    Rounds0();
    hide W, Rounds;
    Step(10, Hash(0x8351f929, 0x4b6ae328, 0x27a301f5, 0x664f8c30, 0x0ff1f290), 0x00000000);
    Step(11, Hash(0xfbda9e89, 0x8351f929, 0x12dab8ca, 0x27a301f5, 0x664f8c30), 0x00000000);
    Step(12, Hash(0x63188fe4, 0xfbda9e89, 0x60d47e4a, 0x12dab8ca, 0x27a301f5), 0x00000000);
    Step(13, Hash(0x4607b664, 0x63188fe4, 0x7ef6a7a2, 0x60d47e4a, 0x12dab8ca), 0x00000000);
    Step(14, Hash(0x9128f695, 0x4607b664, 0x18c623f9, 0x7ef6a7a2, 0x60d47e4a), 0x00000000);
    Step(15, Hash(0x196bee77, 0x9128f695, 0x1181ed99, 0x18c623f9, 0x7ef6a7a2), 0x00000018);
    Step(16, Hash(0x20bdd62f, 0x196bee77, 0x644a3da5, 0x1181ed99, 0x18c623f9), 0xc2c4c700);
    Step(17, Hash(0x4e925823, 0x20bdd62f, 0xc65afb9d, 0x644a3da5, 0x1181ed99), 0x00000000);
    Step(18, Hash(0x82aa6728, 0x4e925823, 0xc82f758b, 0xc65afb9d, 0x644a3da5), 0x00000030);
    Step(19, Hash(0xdc64901d, 0x82aa6728, 0xd3a49608, 0xc82f758b, 0xc65afb9d), 0x85898e01);
  }

  lemma Rounds2()
    ensures |BLOCK| == 64 && Rounds(H0, BLOCK, 30) == Hash(0xc5fbaf5d, 0x8370b52e, 0xd2aa1365, 0x6f8d7ef5, 0x12104ee9)
  {
    Schedule1();
    Rounds1();
    hide W, Rounds;
    Step(20, Hash(0xfd9e1d7d, 0xdc64901d, 0x20aa99ca, 0xd3a49608, 0xc82f758b), 0x00000000);
    Step(21, Hash(0x1a37b0ca, 0xfd9e1d7d, 0x77192407, 0x20aa99ca, 0xd3a49608), 0x00000060);
    Step(22, Hash(0x33a23bfc, 0x1a37b0ca, 0x7f67875f, 0x77192407, 0x20aa99ca), 0x0b131c03);
    Step(23, Hash(0x21283486, 0x33a23bfc, 0x868dec32, 0x7f67875f, 0x77192407), 0x00000030);
    Step(24, Hash(0xd541f12d, 0x21283486, 0x0ce88eff, 0x868dec32, 0x7f67875f), 0x85898ec1);
    Step(25, Hash(0xc7567dc6, 0xd541f12d, 0x884a0d21, 0x0ce88eff, 0x868dec32), 0x16263806);
    Step(26, Hash(0x48413ba4, 0xc7567dc6, 0x75507c4b, 0x884a0d21, 0x0ce88eff), 0x00000000);
    Step(27, Hash(0xbe35fbd5, 0x48413ba4, 0xb1d59f71, 0x75507c4b, 0x884a0d21), 0x00000180);
    Step(28, Hash(0x4aa84d97, 0xbe35fbd5, 0x12104ee9, 0xb1d59f71, 0x75507c4b), 0x2c4c700c);
    Step(29, Hash(0x8370b52e, 0x4aa84d97, 0x6f8d7ef5, 0x12104ee9, 0xb1d59f71), 0x000000f0);
  }

  lemma Rounds3()
    ensures |BLOCK| == 64 && Rounds(H0, BLOCK, 40) == Hash(0x32de1cba, 0x4c986405, 0xf718e5cf, 0x03d447f6, 0xf72eec32)
  {
    Schedule1();
    Schedule2();
    Rounds2();
    hide W, Rounds;
    Step(30, Hash(0xc5fbaf5d, 0x8370b52e, 0xd2aa1365, 0x6f8d7ef5, 0x12104ee9), 0x93afb507);
    Step(31, Hash(0x1267b407, 0xc5fbaf5d, 0xa0dc2d4b, 0xd2aa1365, 0x6f8d7ef5), 0x5898e048);
    Step(32, Hash(0x3b845d33, 0x1267b407, 0x717eebd7, 0xa0dc2d4b, 0xd2aa1365), 0x8e9a9202);
    Step(33, Hash(0x046faa0a, 0x3b845d33, 0xc499ed01, 0x717eebd7, 0xa0dc2d4b), 0x00000600);
    Step(34, Hash(0x2c0ebc11, 0x046faa0a, 0xcee1174c, 0xc499ed01, 0x717eebd7), 0xb131c0f0);
    Step(35, Hash(0x21796ad4, 0x2c0ebc11, 0x811bea82, 0xcee1174c, 0xc499ed01), 0x16263bc6);
    Step(36, Hash(0xdcbbb0cb, 0x21796ad4, 0x4b03af04, 0x811bea82, 0xcee1174c), 0x4ebed41e);
    Step(37, Hash(0x0f511fd8, 0xdcbbb0cb, 0x085e5ab5, 0x4b03af04, 0x811bea82), 0x626380a1);
    Step(38, Hash(0xdc63973f, 0x0f511fd8, 0xf72eec32, 0x085e5ab5, 0x4b03af04), 0x16263806);
    Step(39, Hash(0x4c986405, 0xdc63973f, 0x03d447f6, 0xf72eec32, 0x085e5ab5), 0x000018c0);
  }

  lemma Rounds4()
    ensures |BLOCK| == 64 && Rounds(H0, BLOCK, 50) == Hash(0x120731c5, 0xbaf39337, 0xafab40b2, 0x2806e11b, 0x8714787c)
  {
    Schedule2();
    Schedule3();
    Rounds3();
    hide W, Rounds;
    Step(40, Hash(0x32de1cba, 0x4c986405, 0xf718e5cf, 0x03d447f6, 0xf72eec32), 0xd2e138c4);
    Step(41, Hash(0xfc87dedf, 0x32de1cba, 0x53261901, 0xf718e5cf, 0x03d447f6), 0x00000f00);
    Step(42, Hash(0x970a0d5c, 0xfc87dedf, 0x8cb7872e, 0x53261901, 0xf718e5cf), 0x3afb5079);
    Step(43, Hash(0x7f193dc5, 0x970a0d5c, 0xff21f7b7, 0x8cb7872e, 0x53261901), 0x898e04e5);
    Step(44, Hash(0xee1b1aaf, 0x7f193dc5, 0x25c28357, 0xff21f7b7, 0x8cb7872e), 0xe2ba3c2b);
    Step(45, Hash(0x40f28e09, 0xee1b1aaf, 0x5fc64f71, 0x25c28357, 0xff21f7b7), 0x000060c0);
    Step(46, Hash(0x1c51e1f2, 0x40f28e09, 0xfb86c6ab, 0x5fc64f71, 0x25c28357), 0x053a37cd);
    Step(47, Hash(0xa01b846c, 0x1c51e1f2, 0x503ca382, 0xfb86c6ab, 0x5fc64f71), 0x74458547);
    Step(48, Hash(0xbead02ca, 0xa01b846c, 0x8714787c, 0x503ca382, 0xfb86c6ab), 0xda9415ed);
    Step(49, Hash(0xbaf39337, 0xbead02ca, 0x2806e11b, 0x8714787c, 0x503ca382), 0x26380a16);
  }

  lemma Rounds5()
    ensures |BLOCK| == 64 && Rounds(H0, BLOCK, 60) == Hash(0x3f52de5a, 0x09d785fd, 0x3498bfd4, 0xf211824f, 0xd79915ab)
  {
    Schedule3();
    Rounds4();
    hide W, Rounds;
    Step(50, Hash(0x120731c5, 0xbaf39337, 0xafab40b2, 0x2806e11b, 0x8714787c), 0x626383a1);
    Step(51, Hash(0x641db2ce, 0x120731c5, 0xeebce4cd, 0xafab40b2, 0x2806e11b), 0x4ebf54de);
    Step(52, Hash(0x3847ad66, 0x641db2ce, 0x4481cc71, 0xeebce4cd, 0xafab40b2), 0x3835b44b);
    Step(53, Hash(0xe490436d, 0x3847ad66, 0x99076cb3, 0x4481cc71, 0xeebce4cd), 0x0000f600);
    Step(54, Hash(0x27e9f1d8, 0xe490436d, 0x8e11eb59, 0x99076cb3, 0x4481cc71), 0x1e84c7a3);
    Step(55, Hash(0x7b71f76d, 0x27e9f1d8, 0x792410db, 0x8e11eb59, 0x99076cb3), 0x98e04d98);
    Step(56, Hash(0x5e6456af, 0x7b71f76d, 0x09fa7c76, 0x792410db, 0x8e11eb59), 0x651d16a0);
    Step(57, Hash(0xc846093f, 0x5e6456af, 0x5edc7ddb, 0x09fa7c76, 0x792410db), 0x62658ca1);
    Step(58, Hash(0xd262ff50, 0xc846093f, 0xd79915ab, 0x5edc7ddb, 0x09fa7c76), 0x458544d6);
    Step(59, Hash(0x09d785fd, 0xd262ff50, 0xf211824f, 0xd79915ab, 0x5edc7ddb), 0x44584cb7);
  }

  lemma Rounds6()
    ensures |BLOCK| == 64 && Rounds(H0, BLOCK, 70) == Hash(0x3f2588c2, 0x497093c0, 0xde37534a, 0x030f7cad, 0x4405957e)
  {
    Schedule3();
    Schedule4();
    Rounds5();
    hide W, Rounds;
    Step(60, Hash(0x3f52de5a, 0x09d785fd, 0x3498bfd4, 0xf211824f, 0xd79915ab), 0x7ba06619);
    Step(61, Hash(0xd756c147, 0x3f52de5a, 0x4275e17f, 0x3498bfd4, 0xf211824f), 0x6380aea2);
    Step(62, Hash(0x548c9cb2, 0xd756c147, 0x8fd4b796, 0x4275e17f, 0x3498bfd4), 0x0ae55269);
    Step(63, Hash(0xb66c020b, 0x548c9cb2, 0xf5d5b051, 0x8fd4b796, 0x4275e17f), 0x627b49a1);
    Step(64, Hash(0x6b61c9e1, 0xb66c020b, 0x9523272c, 0xf5d5b051, 0x8fd4b796), 0x7cd45c9d);
    Step(65, Hash(0x19dfa7ac, 0x6b61c9e1, 0xed9b0082, 0x9523272c, 0xf5d5b051), 0x000f0000);
    Step(66, Hash(0x101655f9, 0x19dfa7ac, 0x5ad87278, 0xed9b0082, 0x9523272c), 0xfb50753a);
    Step(67, Hash(0x0c3df2b4, 0x101655f9, 0x0677e9eb, 0x5ad87278, 0xed9b0082), 0xec6765e8);
    Step(68, Hash(0x78dd4d2b, 0x0c3df2b4, 0x4405957e, 0x0677e9eb, 0x5ad87278), 0xba3c2be2);
    Step(69, Hash(0x497093c0, 0x78dd4d2b, 0x030f7cad, 0x4405957e, 0x0677e9eb), 0x0060c000);
  }

  lemma Rounds7()
    ensures |BLOCK| == 64 && Rounds(H0, BLOCK, 80) == Hash(0x42541b35, 0x5738d5e1, 0x21834873, 0x681e6df6, 0xd8fdf6ad)
  {
    Schedule4();
    Rounds6();
    hide W, Rounds;
    Step(70, Hash(0x3f2588c2, 0x497093c0, 0xde37534a, 0x030f7cad, 0x4405957e), 0x3a37cd05);
    Step(71, Hash(0xc199f8c7, 0x3f2588c2, 0x125c24f0, 0xde37534a, 0x030f7cad), 0x458546f4);
    Step(72, Hash(0x39859de7, 0xc199f8c7, 0x8fc96230, 0x125c24f0, 0xde37534a), 0xb8599dd6);
    Step(73, Hash(0xedb42de4, 0x39859de7, 0xf0667e31, 0x8fc96230, 0x125c24f0), 0x380a1a26);
    Step(74, Hash(0x11793f6f, 0xedb42de4, 0xce616779, 0xf0667e31, 0x8fc96230), 0x01e02203);
    Step(75, Hash(0x5ee76897, 0x11793f6f, 0x3b6d0b79, 0xce616779, 0xf0667e31), 0xe7cc3456);
    Step(76, Hash(0x63f7dab7, 0x5ee76897, 0xc45e4fdb, 0x3b6d0b79, 0xce616779), 0xe6e60b69);
    Step(77, Hash(0xa079b7d9, 0x63f7dab7, 0xd7b9da25, 0xc45e4fdb, 0x3b6d0b79), 0x00f60a00);
    Step(78, Hash(0x860d21cc, 0xa079b7d9, 0xd8fdf6ad, 0xd7b9da25, 0xc45e4fdb), 0x5795ef4f);
    Step(79, Hash(0x5738d5e1, 0x860d21cc, 0x681e6df6, 0xd8fdf6ad, 0xd7b9da25), 0x822e0879);
  }

  lemma AbcBlock()
    ensures |BLOCK| == 64 && Padded(ABC, 24) == BLOCK
  {
  }

  lemma Abc()
    ensures Sha1Spec.Sha1(ABC)
         == [0xa9, 0x99, 0x3e, 0x36, 0x47, 0x06, 0x81, 0x6a, 0xba, 0x3e]
          + [0x25, 0x71, 0x78, 0x50, 0xc2, 0x6c, 0x9c, 0xd0, 0xd8, 0x9d]
  {
    AbcBlock();
    Rounds7();
    assert Compress(H0, BLOCK) == Hash(0xa9993e36, 0x4706816a, 0xba3e2571, 0x7850c26c, 0x9cd0d89d);
    hide Rounds, W, Compress;
    assert BLOCK[..0] == [] && BLOCK[0..] == BLOCK;
    assert HashBlocks([]) == H0;
  }
}
