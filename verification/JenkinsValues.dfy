/** HASH_JEN worked out: the states that two keys end in, and what zero bytes at the end of a key do. */
module JenkinsValues {
  import opened Words
  import opened Jenkins

  // --- Exclusive or, from the top bit down, by comparisons alone ---

  /** The bit of weight `p`, of two numbers below `2 * p`. */
  function XorBit(x: nat, y: nat, p: nat): nat {
    if (x >= p) != (y >= p) then p else 0
  }

  function Below(x: nat, p: nat): nat {
    if x >= p then x - p else x
  }

  /** The exclusive or of the four bits from weight `8 * s` down. */
  function Top(x: nat, y: nat, s: nat): nat {
    var x1, y1 := Below(x, 8 * s), Below(y, 8 * s);
    var x2, y2 := Below(x1, 4 * s), Below(y1, 4 * s);
    var x3, y3 := Below(x2, 2 * s), Below(y2, 2 * s);
    XorBit(x, y, 8 * s) + XorBit(x1, y1, 4 * s) + XorBit(x2, y2, 2 * s) + XorBit(x3, y3, s)
  }

  /** What is below them. */
  function Rest(x: nat, s: nat): nat {
    Below(Below(Below(Below(x, 8 * s), 4 * s), 2 * s), s)
  }

  /** The exclusive or of two words. */
  function XorFlat(a: nat, b: nat): nat {
    var a7, b7 := Rest(a, 0x1000_0000), Rest(b, 0x1000_0000);
    var a6, b6 := Rest(a7, 0x100_0000), Rest(b7, 0x100_0000);
    var a5, b5 := Rest(a6, 0x10_0000), Rest(b6, 0x10_0000);
    var a4, b4 := Rest(a5, 0x1_0000), Rest(b5, 0x1_0000);
    var a3, b3 := Rest(a4, 0x1000), Rest(b4, 0x1000);
    var a2, b2 := Rest(a3, 0x100), Rest(b3, 0x100);
    var a1, b1 := Rest(a2, 0x10), Rest(b2, 0x10);
    Top(a, b, 0x1000_0000) + Top(a7, b7, 0x100_0000)
    + Top(a6, b6, 0x10_0000) + Top(a5, b5, 0x1_0000)
    + Top(a4, b4, 0x1000) + Top(a3, b3, 0x100)
    + Top(a2, b2, 0x10) + Top(a1, b1, 0x1)
  }

  lemma {:induction false} XorTopBit(x: nat, y: nat, k: nat)
    requires x < 2 * Pow2(k) && y < 2 * Pow2(k)
    ensures var p := Pow2(k); Xor(x, y) == XorBit(x, y, p) + Xor(Below(x, p), Below(y, p))
    decreases k
  {
    hide Xor, Below;
    var p := Pow2(k);
    XorHalves(x, y);
    XorHalves(Below(x, p), Below(y, p));
    if k == 0 {
      XorZero();
      BelowOne(x);
      BelowOne(y);
    } else {
      HalfBelow(x, Pow2(k - 1));
      HalfBelow(y, Pow2(k - 1));
      XorTopBit(x / 2, y / 2, k - 1);
    }
  }

  lemma BelowOne(x: nat)
    requires x < 2
    ensures Below(x, 1) == 0 && x / 2 == 0 && x % 2 == x
  {
  }

  lemma HalfBelow(x: nat, p: nat)
    ensures Below(x, 2 * p) / 2 == Below(x / 2, p) && Below(x, 2 * p) % 2 == x % 2
    ensures x >= 2 * p <==> x / 2 >= p
  {
  }

  lemma XorZero()
    ensures Xor(0, 0) == 0
  {
  }

  lemma TopFour(x: nat, y: nat, k: nat, s: nat)
    requires s == Pow2(k) && x < 16 * s && y < 16 * s
    ensures Xor(x, y) == Top(x, y, s) + Xor(Rest(x, s), Rest(y, s))
    ensures Rest(x, s) < s && Rest(y, s) < s
  {
    hide Xor;
    var x1, y1 := Below(x, 8 * s), Below(y, 8 * s);
    var x2, y2 := Below(x1, 4 * s), Below(y1, 4 * s);
    SixteenTimes(k);
    XorTopBit(x, y, k + 3);
    XorTopBit(x1, y1, k + 2);
    XorTopBit(x2, y2, k + 1);
    XorTopBit(Below(x2, 2 * s), Below(y2, 2 * s), k);
  }

  lemma Powers()
    ensures Pow2(0) == 1 && Pow2(3) == 8 && Pow2(4) == 0x10 && Pow2(5) == 0x20 && Pow2(8) == 0x100
    ensures Pow2(10) == 0x400 && Pow2(12) == 0x1000 && Pow2(13) == 0x2000 && Pow2(15) == 0x8000
    ensures Pow2(16) == 0x1_0000 && Pow2(20) == 0x10_0000 && Pow2(24) == 0x100_0000 && Pow2(28) == 0x1000_0000
  {
    hide Pow2;
    PowZero();
    SixteenTimes(0);
    SixteenTimes(4);
    SixteenTimes(8);
    SixteenTimes(12);
    SixteenTimes(16);
    SixteenTimes(20);
    SixteenTimes(24);
  }

  lemma PowZero()
    ensures Pow2(0) == 1
  {
  }

  lemma SixteenTimes(k: nat)
    ensures Pow2(k + 1) == 2 * Pow2(k) && Pow2(k + 2) == 4 * Pow2(k)
    ensures Pow2(k + 3) == 8 * Pow2(k) && Pow2(k + 4) == 16 * Pow2(k)
  {
  }

  lemma XorIsFlat(a: Word, b: Word)
    ensures Xor(a, b) == XorFlat(a, b)
  {
    hide Top, Rest, Xor, Pow2;
    Powers();
    TopFour(a, b, 28, 0x1000_0000);
    var a7, b7 := Rest(a, 0x1000_0000), Rest(b, 0x1000_0000);
    TopFour(a7, b7, 24, 0x100_0000);
    var a6, b6 := Rest(a7, 0x100_0000), Rest(b7, 0x100_0000);
    TopFour(a6, b6, 20, 0x10_0000);
    var a5, b5 := Rest(a6, 0x10_0000), Rest(b6, 0x10_0000);
    TopFour(a5, b5, 16, 0x1_0000);
    var a4, b4 := Rest(a5, 0x1_0000), Rest(b5, 0x1_0000);
    TopFour(a4, b4, 12, 0x1000);
    var a3, b3 := Rest(a4, 0x1000), Rest(b4, 0x1000);
    TopFour(a3, b3, 8, 0x100);
    var a2, b2 := Rest(a3, 0x100), Rest(b3, 0x100);
    TopFour(a2, b2, 4, 0x10);
    var a1, b1 := Rest(a2, 0x10), Rest(b2, 0x10);
    TopFour(a1, b1, 0, 0x1);
    XorZero();
  }

  // --- Three lines of the macro in plain arithmetic ---

  lemma SubTwice(x: Word, y: Word, z: Word)
    ensures Sub(Sub(x, y), z) == (x - y - z) % WORD
  {
  }

  /** `u` is x - y - z on words. */
  predicate Minus(x: Word, y: Word, z: Word, u: Word) {
    u == x - y - z || u == x - y - z + 0x1_0000_0000 || u == x - y - z + 0x2_0000_0000
  }

  lemma MinusIs(x: Word, y: Word, z: Word, u: Word)
    requires Minus(x, y, z, u)
    ensures Sub(Sub(x, y), z) == u
  {
    SubTwice(x, y, z);
  }

  /** A line that shifts right by `k`, where `p` is the power. */
  lemma RightLine(x: Word, y: Word, z: Word, k: nat, p: nat, u: Word, m: Word)
    requires p == Pow2(k) && Minus(x, y, z, u) && m * p <= z < m * p + p
    ensures SubSubXor(x, y, z, ShrWord(z, k)) == XorFlat(u, m)
  {
    hide Sub, Pow2, Xor, XorFlat, Minus;
    MinusIs(x, y, z, u);
    ShiftIsDiv(z, k);
    UniqueDiv(z, p, m, z - m * p);
    XorIsFlat(u, m);
  }

  /** A line that shifts left by `k`, where `p` is the power and `c` what goes off the top. */
  lemma LeftLine(x: Word, y: Word, z: Word, k: nat, p: nat, u: Word, m: Word, c: nat)
    requires p == Pow2(k) && Minus(x, y, z, u) && z * p == 0x1_0000_0000 * c + m
    ensures SubSubXor(x, y, z, Shl(z, k)) == XorFlat(u, m)
  {
    hide Sub, Pow2, Xor, XorFlat, Minus;
    MinusIs(x, y, z, u);
    UniqueDiv(z * p, WORD, c, m);
    XorIsFlat(u, m);
  }

  // --- Two keys ---

  lemma ShortMix1a() ensures XorFlat(0xf204_3402, 0x4fbe) == 0xf204_7bbc {}
  lemma ShortMix1b() ensures XorFlat(0xaa42_3c08, 0x47b_bc00) == 0xae39_8008 {}
  lemma ShortMix1c() ensures XorFlat(0x69b9_cc36, 0x5_71cc) == 0x69bc_bdfa {}

  lemma ShortMix1()
    ensures Round(State(0xa23a_7bba, 0xa63e_7fbe, 0x9f7_c7fa), 13, 8, 13) ==
            State(0xf204_7bbc, 0xae39_8008, 0x69bc_bdfa)
  {
    hide SubSubXor, ShrWord, Shl, Pow2, XorFlat;
    Powers();
    ShortMix1a(); ShortMix1b(); ShortMix1c();
    RightLine(0xa23a_7bba, 0xa63e_7fbe, 0x9f7_c7fa, 13, 0x2000, 0xf204_3402, 0x4fbe);
    LeftLine(0xa63e_7fbe, 0x9f7_c7fa, 0xf204_7bbc, 8, 0x100, 0xaa42_3c08, 0x47b_bc00, 0xf2);
    RightLine(0x9f7_c7fa, 0xf204_7bbc, 0xae39_8008, 13, 0x2000, 0x69b9_cc36, 0x5_71cc);
  }

  lemma ShortMix2a() ensures XorFlat(0xda0e_3dba, 0x6_9bcb) == 0xda08_a671 {}
  lemma ShortMix2b() ensures XorFlat(0x6a74_1b9d, 0xa671_0000) == 0xcc05_1b9d {}
  lemma ShortMix2c() ensures XorFlat(0xc3ae_fbec, 0x660_28dc) == 0xc5ce_d330 {}

  lemma ShortMix2()
    ensures Round(State(0xf204_7bbc, 0xae39_8008, 0x69bc_bdfa), 12, 16, 5) ==
            State(0xda08_a671, 0xcc05_1b9d, 0xc5ce_d330)
  {
    hide SubSubXor, ShrWord, Shl, Pow2, XorFlat;
    Powers();
    ShortMix2a(); ShortMix2b(); ShortMix2c();
    RightLine(0xf204_7bbc, 0xae39_8008, 0x69bc_bdfa, 12, 0x1000, 0xda0e_3dba, 0x6_9bcb);
    LeftLine(0xae39_8008, 0x69bc_bdfa, 0xda08_a671, 16, 0x1_0000, 0x6a74_1b9d, 0xa671_0000, 0xda08);
    RightLine(0x69bc_bdfa, 0xda08_a671, 0xcc05_1b9d, 5, 0x20, 0xc3ae_fbec, 0x660_28dc);
  }

  lemma ShortMix3a() ensures XorFlat(0x4834_b7a4, 0x18b9_da66) == 0x508d_6dc2 {}
  lemma ShortMix3b() ensures XorFlat(0xb5a8_daab, 0x35b7_0800) == 0x801f_d2ab {}
  lemma ShortMix3c() ensures XorFlat(0xf521_92c3, 0x1_003f) == 0xf520_92fc {}

  lemma ShortMix3()
    ensures Round(State(0xda08_a671, 0xcc05_1b9d, 0xc5ce_d330), 3, 10, 15) ==
            State(0x508d_6dc2, 0x801f_d2ab, 0xf520_92fc)
  {
    hide SubSubXor, ShrWord, Shl, Pow2, XorFlat;
    Powers();
    ShortMix3a(); ShortMix3b(); ShortMix3c();
    RightLine(0xda08_a671, 0xcc05_1b9d, 0xc5ce_d330, 3, 0x8, 0x4834_b7a4, 0x18b9_da66);
    LeftLine(0xcc05_1b9d, 0xc5ce_d330, 0x508d_6dc2, 10, 0x400, 0xb5a8_daab, 0x35b7_0800, 0x142);
    RightLine(0xc5ce_d330, 0x508d_6dc2, 0x801f_d2ab, 15, 0x8000, 0xf521_92c3, 0x1_003f);
  }

  /** The mix of the eleven bytes. */
  lemma ShortMix()
    ensures Mix(State(0xa23a_7bba, 0xa63e_7fbe, 0x9f7_c7fa)) == State(0x508d_6dc2, 0x801f_d2ab, 0xf520_92fc)
  {
    hide Round;
    ShortMix1();
    ShortMix2();
    ShortMix3();
  }

  lemma BlockMix1a() ensures XorFlat(0xf103_3304, 0x57c6) == 0xf103_64c2 {}
  lemma BlockMix1b() ensures XorFlat(0xaa42_5204, 0x364_c200) == 0xa926_9004 {}
  lemma BlockMix1c() ensures XorFlat(0x70ce_d432, 0x5_4934) == 0x70cb_9d06 {}

  lemma BlockMix1()
    ensures Round(State(0xa23a_7bba, 0xa63e_7fbe, 0xaf8_c8f8), 13, 8, 13) ==
            State(0xf103_64c2, 0xa926_9004, 0x70cb_9d06)
  {
    hide SubSubXor, ShrWord, Shl, Pow2, XorFlat;
    Powers();
    BlockMix1a(); BlockMix1b(); BlockMix1c();
    RightLine(0xa23a_7bba, 0xa63e_7fbe, 0xaf8_c8f8, 13, 0x2000, 0xf103_3304, 0x57c6);
    LeftLine(0xa63e_7fbe, 0xaf8_c8f8, 0xf103_64c2, 8, 0x100, 0xaa42_5204, 0x364_c200, 0xf1);
    RightLine(0xaf8_c8f8, 0xf103_64c2, 0xa926_9004, 13, 0x2000, 0x70ce_d432, 0x5_4934);
  }

  lemma BlockMix2a() ensures XorFlat(0xd711_37b8, 0x7_0cb9) == 0xd716_3b01 {}
  lemma BlockMix2b() ensures XorFlat(0x6144_b7fd, 0x3b01_0000) == 0x5a45_b7fd {}
  lemma BlockMix2c() ensures XorFlat(0x3f6f_aa08, 0x2d2_2dbf) == 0x3dbd_87b7 {}

  lemma BlockMix2()
    ensures Round(State(0xf103_64c2, 0xa926_9004, 0x70cb_9d06), 12, 16, 5) ==
            State(0xd716_3b01, 0x5a45_b7fd, 0x3dbd_87b7)
  {
    hide SubSubXor, ShrWord, Shl, Pow2, XorFlat;
    Powers();
    BlockMix2a(); BlockMix2b(); BlockMix2c();
    RightLine(0xf103_64c2, 0xa926_9004, 0x70cb_9d06, 12, 0x1000, 0xd711_37b8, 0x7_0cb9);
    LeftLine(0xa926_9004, 0x70cb_9d06, 0xd716_3b01, 16, 0x1_0000, 0x6144_b7fd, 0x3b01_0000, 0xd716);
    RightLine(0x70cb_9d06, 0xd716_3b01, 0x5a45_b7fd, 5, 0x20, 0x3f6f_aa08, 0x2d2_2dbf);
  }

  lemma BlockMix3a() ensures XorFlat(0x3f12_fb4d, 0x7b7_b0f6) == 0x38a5_4bbb {}
  lemma BlockMix3b() ensures XorFlat(0xe3e2_e48b, 0x952e_ec00) == 0x76cc_088b {}
  lemma BlockMix3c() ensures XorFlat(0x8e4c_3371, 0xed98) == 0x8e4c_dee9 {}

  lemma BlockMix3()
    ensures Round(State(0xd716_3b01, 0x5a45_b7fd, 0x3dbd_87b7), 3, 10, 15) ==
            State(0x38a5_4bbb, 0x76cc_088b, 0x8e4c_dee9)
  {
    hide SubSubXor, ShrWord, Shl, Pow2, XorFlat;
    Powers();
    BlockMix3a(); BlockMix3b(); BlockMix3c();
    RightLine(0xd716_3b01, 0x5a45_b7fd, 0x3dbd_87b7, 3, 0x8, 0x3f12_fb4d, 0x7b7_b0f6);
    LeftLine(0x5a45_b7fd, 0x3dbd_87b7, 0x38a5_4bbb, 10, 0x400, 0xe3e2_e48b, 0x952e_ec00, 0xe2);
    RightLine(0x3dbd_87b7, 0x38a5_4bbb, 0x76cc_088b, 15, 0x8000, 0x8e4c_3371, 0xed98);
  }

  /** The mix of the first twelve of thirteen bytes. */
  lemma BlockMix()
    ensures Mix(State(0xa23a_7bba, 0xa63e_7fbe, 0xaf8_c8f8)) == State(0x38a5_4bbb, 0x76cc_088b, 0x8e4c_dee9)
  {
    hide Round;
    BlockMix1();
    BlockMix2();
    BlockMix3();
  }

  lemma LastMix1a() ensures XorFlat(0x338c_6447, 0x4_7266) == 0x3388_1621 {}
  lemma LastMix1b() ensures XorFlat(0xb4f7_1374, 0x8816_2100) == 0x3ce1_3274 {}
  lemma LastMix1c() ensures XorFlat(0x1de3_9661, 0x1_e709) == 0x1de2_7168 {}

  lemma LastMix1()
    ensures Round(State(0x38a5_4bc8, 0x76cc_088b, 0x8e4c_def6), 13, 8, 13) ==
            State(0x3388_1621, 0x3ce1_3274, 0x1de2_7168)
  {
    hide SubSubXor, ShrWord, Shl, Pow2, XorFlat;
    Powers();
    LastMix1a(); LastMix1b(); LastMix1c();
    RightLine(0x38a5_4bc8, 0x76cc_088b, 0x8e4c_def6, 13, 0x2000, 0x338c_6447, 0x4_7266);
    LeftLine(0x76cc_088b, 0x8e4c_def6, 0x3388_1621, 8, 0x100, 0xb4f7_1374, 0x8816_2100, 0x33);
    RightLine(0x8e4c_def6, 0x3388_1621, 0x3ce1_3274, 13, 0x2000, 0x1de3_9661, 0x1_e709);
  }

  lemma LastMix2a() ensures XorFlat(0xd8c4_7245, 0x1_de27) == 0xd8c5_ac62 {}
  lemma LastMix2b() ensures XorFlat(0x4639_14aa, 0xac62_0000) == 0xea5b_14aa {}
  lemma LastMix2c() ensures XorFlat(0x5ac1_b05c, 0x752_d8a5) == 0x5d93_68f9 {}

  lemma LastMix2()
    ensures Round(State(0x3388_1621, 0x3ce1_3274, 0x1de2_7168), 12, 16, 5) ==
            State(0xd8c5_ac62, 0xea5b_14aa, 0x5d93_68f9)
  {
    hide SubSubXor, ShrWord, Shl, Pow2, XorFlat;
    Powers();
    LastMix2a(); LastMix2b(); LastMix2c();
    RightLine(0x3388_1621, 0x3ce1_3274, 0x1de2_7168, 12, 0x1000, 0xd8c4_7245, 0x1_de27);
    LeftLine(0x3ce1_3274, 0x1de2_7168, 0xd8c5_ac62, 16, 0x1_0000, 0x4639_14aa, 0xac62_0000, 0xd8c5);
    RightLine(0x1de2_7168, 0xd8c5_ac62, 0xea5b_14aa, 5, 0x20, 0x5ac1_b05c, 0x752_d8a5);
  }

  lemma LastMix3a() ensures XorFlat(0x90d7_2ebf, 0xbb2_6d1f) == 0x9b65_43a0 {}
  lemma LastMix3b() ensures XorFlat(0xf162_6811, 0x950e_8000) == 0x646c_e811 {}
  lemma LastMix3c() ensures XorFlat(0x5dc1_3d48, 0xc8d9) == 0x5dc1_f591 {}

  lemma LastMix3()
    ensures Round(State(0xd8c5_ac62, 0xea5b_14aa, 0x5d93_68f9), 3, 10, 15) ==
            State(0x9b65_43a0, 0x646c_e811, 0x5dc1_f591)
  {
    hide SubSubXor, ShrWord, Shl, Pow2, XorFlat;
    Powers();
    LastMix3a(); LastMix3b(); LastMix3c();
    RightLine(0xd8c5_ac62, 0xea5b_14aa, 0x5d93_68f9, 3, 0x8, 0x90d7_2ebf, 0xbb2_6d1f);
    LeftLine(0xea5b_14aa, 0x5d93_68f9, 0x9b65_43a0, 10, 0x400, 0xf162_6811, 0x950e_8000, 0x26d);
    RightLine(0x5d93_68f9, 0x9b65_43a0, 0x646c_e811, 15, 0x8000, 0x5dc1_3d48, 0xc8d9);
  }

  /** The mix of the last of thirteen bytes. */
  lemma LastMix()
    ensures Mix(State(0x38a5_4bc8, 0x76cc_088b, 0x8e4c_def6)) == State(0x9b65_43a0, 0x646c_e811, 0x5dc1_f591)
  {
    hide Round;
    LastMix1();
    LastMix2();
    LastMix3();
  }

  /** The state that a key of eleven bytes ends in, whichever the signedness of its bytes. */
  lemma ElevenBytes(sc: bool)
    ensures HashState([1, 2, 3, 4, 5, 6, 7, 8, 9, 10, 11], sc) ==
            State(0x508d_6dc2, 0x801f_d2ab, 0xf520_92fc)
  {
    hide Mix;
    ShortMix();
  }

  /** The state that a key of a block and one byte ends in. */
  lemma ThirteenBytes(sc: bool)
    ensures HashState([1, 2, 3, 4, 5, 6, 7, 8, 9, 10, 11, 12, 13], sc) ==
            State(0x9b65_43a0, 0x646c_e811, 0x5dc1_f591)
  {
    hide Mix, Final, AddTail, Absorb;
    var key: seq<Byte> := [1, 2, 3, 4, 5, 6, 7, 8, 9, 10, 11, 12, 13];
    assert key[..12] == [1, 2, 3, 4, 5, 6, 7, 8, 9, 10, 11, 12] && key[12..] == [13];
    FirstTwelve(sc);
    Thirteenth(sc);
    FinalStep(START, key, 13, sc);
    FinalStep(State(0x38a5_4bbb, 0x76cc_088b, 0x8e4c_dee9), [13], 13, sc);
  }

  lemma FinalStep(s: State, key: seq<Byte>, len: nat, sc: bool)
    ensures Final(s, key, len, sc) ==
            if |key| >= 12 then Final(Absorb(s, key[..12], sc), key[12..], len, sc) else Mix(AddTail(s, key, len, sc))
  {
    hide Mix, AddTail, Absorb;
  }

  lemma FirstTwelve(sc: bool)
    ensures Absorb(START, [1, 2, 3, 4, 5, 6, 7, 8, 9, 10, 11, 12], sc) ==
            State(0x38a5_4bbb, 0x76cc_088b, 0x8e4c_dee9)
  {
    hide Mix;
    BlockMix();
  }

  lemma Thirteenth(sc: bool)
    ensures Mix(AddTail(State(0x38a5_4bbb, 0x76cc_088b, 0x8e4c_dee9), [13], 13, sc)) ==
            State(0x9b65_43a0, 0x646c_e811, 0x5dc1_f591)
  {
    hide Mix;
    LastMix();
  }

  /** A byte with its top bit set counts as negative where `char` is signed, and not where it is unsigned. */
  lemma HighByte(s: State)
    ensures AddTail(s, [0x80], 1, true) == State((s.i - 0x80) % 0x1_0000_0000, s.j, (s.h + 1) % 0x1_0000_0000)
    ensures AddTail(s, [0x80], 1, false) == State((s.i + 0x80) % 0x1_0000_0000, s.j, (s.h + 1) % 0x1_0000_0000)
  {
    hide Plus, Pack;
    AddZero(s.j, true);
    AddZero(s.j, false);
    AddZero(Plus(s.h, 1), true);
    AddZero(Plus(s.h, 1), false);
    AddLow(s.i, 0x80, true);
    AddLow(s.i, 0x80, false);
    AddOne(s.h);
  }

  lemma AddZero(x: Word, sc: bool)
    ensures Plus(x, Pack(0, 0, 0, 0, sc)) == x
  {
  }

  lemma AddLow(x: Word, b: Byte, sc: bool)
    ensures Plus(x, Pack(b, 0, 0, 0, sc)) == (x + if sc && b >= 128 then b - 256 else b) % 0x1_0000_0000
  {
  }

  lemma AddOne(x: Word)
    ensures Plus(x, 1) == (x + 1) % 0x1_0000_0000
  {
  }

  // --- The length counts ---

  lemma ZerosAddNothing(t: seq<Byte>, zeros: seq<Byte>, k: nat)
    requires forall i :: 0 <= i < |zeros| ==> zeros[i] == 0
    ensures TailByte(t + zeros, k) == TailByte(t, k)
  {
  }

  lemma LengthCounts(s: State, t: seq<Byte>, u: seq<Byte>, len: nat, more: nat, sc: bool)
    requires 0 < more < 12 && forall k: nat :: TailByte(u, k) == TailByte(t, k)
    ensures AddTail(s, t, len, sc) != AddTail(s, u, len + more, sc)
  {
    hide Plus, Pack, TailByte;
    if AddTail(s, t, len, sc) == AddTail(s, u, len + more, sc) {
      PlusInjective(Plus(s.h, len), Plus(s.h, len + more),
                    Pack(0, TailByte(t, 8), TailByte(t, 9), TailByte(t, 10), sc));
      PlusApart(s.h, len, more);
    }
  }

  lemma PlusApart(x: Word, len: nat, more: nat)
    requires 0 < more < 12
    ensures Plus(x, len) != Plus(x, len + more)
  {
    if Plus(x, len) == Plus(x, len + more) {
      SameResidue(x + len, x + (len + more));
    }
  }

  lemma {:induction false} ZerosCount(s: State, key: seq<Byte>, zeros: seq<Byte>, len: nat, sc: bool)
    requires zeros != [] && (forall i :: 0 <= i < |zeros| ==> zeros[i] == 0) && |key| % 12 + |zeros| < 12
    ensures Final(s, key, len, sc) != Final(s, key + zeros, len + |zeros|, sc)
    decreases |key|
  {
    hide Mix, Absorb, AddTail, TailByte;
    if |key| >= 12 {
      assert (key + zeros)[..12] == key[..12] && (key + zeros)[12..] == key[12..] + zeros;
      ZerosCount(Absorb(s, key[..12], sc), key[12..], zeros, len, sc);
    } else {
      forall k: nat
        ensures TailByte(key + zeros, k) == TailByte(key, k)
      {
        ZerosAddNothing(key, zeros, k);
      }
      LengthCounts(s, key, key + zeros, len, |zeros|, sc);
      if Final(s, key, len, sc) == Final(s, key + zeros, len + |zeros|, sc) {
        MixInjective(AddTail(s, key, len, sc), AddTail(s, key + zeros, len + |zeros|, sc));
      }
    }
  }

  /** A key and the same key with zero bytes added inside its last block end in different states. */
  lemma ZeroBytesDiffer(key: seq<Byte>, zeros: seq<Byte>, sc: bool)
    requires zeros != [] && (forall i :: 0 <= i < |zeros| ==> zeros[i] == 0) && |key| % 12 + |zeros| < 12
    ensures HashState(key, sc) != HashState(key + zeros, sc)
  {
    hide Final;
    ZerosCount(START, key, zeros, |key|, sc);
  }
}
