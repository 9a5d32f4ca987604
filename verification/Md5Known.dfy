/** The auxiliary functions of MD5 bit by bit, and a digest that pins every constant. */
module Md5Known {
  import opened Bytes
  import opened BitSeqs
  import opened HashStream
  import opened Words
  import opened WordBits
  import opened Md5

  lemma FRaw(x: bv32, y: bv32, z: bv32, m: bv32)
    requires m & (m - 1) == 0 && m != 0
    ensures (((x & y) | (!x & z)) & m != 0) == (if (x & m != 0) then (y & m != 0) else (z & m != 0))
  {
  }

  lemma FAt(x: word, y: word, z: word, r: word, m: bv32, v: bv32, a: bv32, b: bv32, c: bv32)
    requires Single(m) && a == Vector(x) && b == Vector(y) && c == Vector(z) && v == Vector(r) && v == FV(a, b, c)
    ensures HasMask(r, m) == (if HasMask(x, m) then HasMask(y, m) else HasMask(z, m))
  {
    hide Vector;
    FRaw(a, b, c, m);
  }

  /** `F` chooses by `x`. */
  lemma FBits(x: word, y: word, z: word, k: nat)
    requires k < 32
    ensures BitOf(F(x, y, z), k) == (if BitOf(x, k) then BitOf(y, k) else BitOf(z, k))
  {
    hide FV, BitOf, HasMask, Mask, Single, Vector, Number;
    var m := TakeMask(k);
    var r := F(x, y, z);
    BackAgain(FV(Vector(x), Vector(y), Vector(z)));
    FAt(x, y, z, r, m, Vector(r), Vector(x), Vector(y), Vector(z));
    BitByMask(x, k, m);
    BitByMask(y, k, m);
    BitByMask(z, k, m);
    BitByMask(r, k, m);
  }

  lemma GRaw(x: bv32, y: bv32, z: bv32, m: bv32)
    requires m & (m - 1) == 0 && m != 0
    ensures (((x & z) | (y & !z)) & m != 0) == (if (z & m != 0) then (x & m != 0) else (y & m != 0))
  {
  }

  lemma GAt(x: word, y: word, z: word, r: word, m: bv32, v: bv32, a: bv32, b: bv32, c: bv32)
    requires Single(m) && a == Vector(x) && b == Vector(y) && c == Vector(z) && v == Vector(r) && v == GV(a, b, c)
    ensures HasMask(r, m) == (if HasMask(z, m) then HasMask(x, m) else HasMask(y, m))
  {
    hide Vector;
    GRaw(a, b, c, m);
  }

  /** `G` chooses by `z`. */
  lemma GBits(x: word, y: word, z: word, k: nat)
    requires k < 32
    ensures BitOf(G(x, y, z), k) == (if BitOf(z, k) then BitOf(x, k) else BitOf(y, k))
  {
    hide GV, BitOf, HasMask, Mask, Single, Vector, Number;
    var m := TakeMask(k);
    var r := G(x, y, z);
    BackAgain(GV(Vector(x), Vector(y), Vector(z)));
    GAt(x, y, z, r, m, Vector(r), Vector(x), Vector(y), Vector(z));
    BitByMask(x, k, m);
    BitByMask(y, k, m);
    BitByMask(z, k, m);
    BitByMask(r, k, m);
  }

  lemma HRaw(x: bv32, y: bv32, z: bv32, m: bv32)
    requires m & (m - 1) == 0 && m != 0
    ensures ((x ^ y ^ z) & m != 0) == (((x & m != 0) != (y & m != 0)) != (z & m != 0))
  {
  }

  lemma HAt(x: word, y: word, z: word, r: word, m: bv32, v: bv32, a: bv32, b: bv32, c: bv32)
    requires Single(m) && a == Vector(x) && b == Vector(y) && c == Vector(z) && v == Vector(r) && v == HV(a, b, c)
    ensures HasMask(r, m) == ((HasMask(x, m) != HasMask(y, m)) != HasMask(z, m))
  {
    hide Vector;
    HRaw(a, b, c, m);
  }

  /** `H` is the parity. */
  lemma HBits(x: word, y: word, z: word, k: nat)
    requires k < 32
    ensures BitOf(H(x, y, z), k) == ((BitOf(x, k) != BitOf(y, k)) != BitOf(z, k))
  {
    hide HV, BitOf, HasMask, Mask, Single, Vector, Number;
    var m := TakeMask(k);
    var r := H(x, y, z);
    BackAgain(HV(Vector(x), Vector(y), Vector(z)));
    HAt(x, y, z, r, m, Vector(r), Vector(x), Vector(y), Vector(z));
    BitByMask(x, k, m);
    BitByMask(y, k, m);
    BitByMask(z, k, m);
    BitByMask(r, k, m);
  }

  lemma IRaw(x: bv32, y: bv32, z: bv32, m: bv32)
    requires m & (m - 1) == 0 && m != 0
    ensures ((y ^ (x | !z)) & m != 0) == ((y & m != 0) != ((x & m != 0) || !(z & m != 0)))
  {
  }

  lemma IAt(x: word, y: word, z: word, r: word, m: bv32, v: bv32, a: bv32, b: bv32, c: bv32)
    requires Single(m) && a == Vector(x) && b == Vector(y) && c == Vector(z) && v == Vector(r) && v == IV(a, b, c)
    ensures HasMask(r, m) == (HasMask(y, m) != (HasMask(x, m) || !HasMask(z, m)))
  {
    hide Vector;
    IRaw(a, b, c, m);
  }

  /** `I` is `y xor (x or not z)`. */
  lemma IBits(x: word, y: word, z: word, k: nat)
    requires k < 32
    ensures BitOf(I(x, y, z), k) == (BitOf(y, k) != (BitOf(x, k) || !BitOf(z, k)))
  {
    hide IV, BitOf, HasMask, Mask, Single, Vector, Number;
    var m := TakeMask(k);
    var r := I(x, y, z);
    BackAgain(IV(Vector(x), Vector(y), Vector(z)));
    IAt(x, y, z, r, m, Vector(r), Vector(x), Vector(y), Vector(z));
    BitByMask(x, k, m);
    BitByMask(y, k, m);
    BitByMask(z, k, m);
    BitByMask(r, k, m);
  }

  // ------------------------------------------------------------ a known digest

  /** "ABCDEFGHIJKLMNOPQRSTUVWXYZabcdefghijklmnopqrstuvwxyz012", sixteen characters at a time. */
  const PART0: seq<byte> := [0x41, 0x42, 0x43, 0x44, 0x45, 0x46, 0x47, 0x48, 0x49, 0x4a, 0x4b, 0x4c, 0x4d, 0x4e, 0x4f, 0x50]
  const PART1: seq<byte> := [0x51, 0x52, 0x53, 0x54, 0x55, 0x56, 0x57, 0x58, 0x59, 0x5a, 0x61, 0x62, 0x63, 0x64, 0x65, 0x66]
  const PART2: seq<byte> := [0x67, 0x68, 0x69, 0x6a, 0x6b, 0x6c, 0x6d, 0x6e, 0x6f, 0x70, 0x71, 0x72, 0x73, 0x74, 0x75, 0x76]
  const PART3: seq<byte> := [0x77, 0x78, 0x79, 0x7a, 0x30, 0x31, 0x32]
  const MESSAGE: seq<byte> := PART0 + PART1 + PART2 + PART3

  /** The words of its only block: the message, the mark, and the length. */
  const X: seq<word> := [
    0x4443_4241, 0x4847_4645, 0x4c4b_4a49, 0x504f_4e4d, 0x5453_5251, 0x5857_5655, 0x6261_5a59, 0x6665_6463,
    0x6a69_6867, 0x6e6d_6c6b, 0x7271_706f, 0x7675_7473, 0x7a79_7877, 0x8032_3130, 0x0000_01b8, 0x0000_0000
  ]

  /** One operation, from its parts. */
  lemma OpIs(x: seq<word>, i: nat, a: word, b: word, c: word, d: word, f: word, t: word, p: nat, q: nat,
             high: word, low: word, o: word, n: word)
    requires |x| == 16 && f == Mix(i, b, c, d) && t == (a + f + x[Index(i)] + Sine(i)) % M32
    requires p == Power2(Shift(i)) && q == Power2(32 - Shift(i)) && high == t * p % M32 && low == t / q
    requires o == Or(high, low) && n == Add(b, o)
    ensures Op(x, Regs(a, b, c, d), i) == Regs(d, n, b, c)
  {
    hide Mix, Sine, Index, Shift, Power2, Or;
  }

  lemma ShiftPowers()
    ensures Power2(1) == 0x2 && Power2(2) == 0x4 && Power2(3) == 0x8 && Power2(4) == 0x10 && Power2(5) == 0x20
    ensures Power2(6) == 0x40 && Power2(7) == 0x80 && Power2(8) == 0x100 && Power2(9) == 0x200
    ensures Power2(10) == 0x400 && Power2(11) == 0x800 && Power2(12) == 0x1000 && Power2(13) == 0x2000
    ensures Power2(14) == 0x4000 && Power2(15) == 0x8000 && Power2(16) == 0x1_0000 && Power2(17) == 0x2_0000
    ensures Power2(18) == 0x4_0000 && Power2(19) == 0x8_0000 && Power2(20) == 0x10_0000 && Power2(21) == 0x20_0000
    ensures Power2(22) == 0x40_0000 && Power2(23) == 0x80_0000 && Power2(24) == 0x100_0000
    ensures Power2(25) == 0x200_0000 && Power2(26) == 0x400_0000 && Power2(27) == 0x800_0000
    ensures Power2(28) == 0x1000_0000
  {
    assert Power2(1) == 2 * Power2(0);
    assert Power2(2) == 2 * Power2(1);
    assert Power2(3) == 2 * Power2(2);
    assert Power2(4) == 2 * Power2(3);
    assert Power2(5) == 2 * Power2(4);
    assert Power2(6) == 2 * Power2(5);
    assert Power2(7) == 2 * Power2(6);
    assert Power2(8) == 2 * Power2(7);
    assert Power2(9) == 2 * Power2(8);
    assert Power2(10) == 2 * Power2(9);
    assert Power2(11) == 2 * Power2(10);
    assert Power2(12) == 2 * Power2(11);
    assert Power2(13) == 2 * Power2(12);
    assert Power2(14) == 2 * Power2(13);
    assert Power2(15) == 2 * Power2(14);
    assert Power2(16) == 2 * Power2(15);
    assert Power2(17) == 2 * Power2(16);
    assert Power2(18) == 2 * Power2(17);
    assert Power2(19) == 2 * Power2(18);
    assert Power2(20) == 2 * Power2(19);
    assert Power2(21) == 2 * Power2(20);
    assert Power2(22) == 2 * Power2(21);
    assert Power2(23) == 2 * Power2(22);
    assert Power2(24) == 2 * Power2(23);
    assert Power2(25) == 2 * Power2(24);
    assert Power2(26) == 2 * Power2(25);
    assert Power2(27) == 2 * Power2(26);
    assert Power2(28) == 2 * Power2(27);
  }

  lemma Bits0()
    ensures Mix(0, 0xefcd_ab89, 0x98ba_dcfe, 0x1032_5476) == 0x98ba_dcfe && Or(0xd6f3_5c00, 0x0000_000d) == 0xd6f3_5c0d
    ensures Mix(1, 0xc6c1_0796, 0xefcd_ab89, 0x98ba_dcfe) == 0xdefb_dbe8 && Or(0xd2df_9000, 0x0000_0203) == 0xd2df_9203
    ensures Mix(2, 0x99a0_9999, 0xc6c1_0796, 0xefcd_ab89) == 0xe6cd_2390 && Or(0x7764_0000, 0x0001_dfe7) == 0x7765_dfe7
    ensures Mix(3, 0x1106_7980, 0x99a0_9999, 0xc6c1_0796) == 0xd7c1_1f96 && Or(0x1680_0000, 0x0036_66fa) == 0x16b6_66fa
  {
  }

  lemma Line0()
    ensures Line(X, Regs(0x6745_2301, 0xefcd_ab89, 0x98ba_dcfe, 0x1032_5476), 0)
         == Regs(0xc6c1_0796, 0x27bc_e07a, 0x1106_7980, 0x99a0_9999)
  {
    hide Power2, Op, Mix, Or;
    ShiftPowers();
    Bits0();
    OpIs(X, 0, 0x6745_2301, 0xefcd_ab89, 0x98ba_dcfe, 0x1032_5476, 0x98ba_dcfe, 0x1bad_e6b8, 0x80, 0x200_0000,
         0xd6f3_5c00, 0x0000_000d, 0xd6f3_5c0d, 0xc6c1_0796);
    OpIs(X, 1, 0x1032_5476, 0xc6c1_0796, 0xefcd_ab89, 0x98ba_dcfe, 0xdefb_dbe8, 0x203d_2df9, 0x1000, 0x10_0000,
         0xd2df_9000, 0x0000_0203, 0xd2df_9203, 0x99a0_9999);
    OpIs(X, 2, 0x98ba_dcfe, 0x99a0_9999, 0xc6c1_0796, 0xefcd_ab89, 0xe6cd_2390, 0xeff3_bbb2, 0x2_0000, 0x8000,
         0x7764_0000, 0x0001_dfe7, 0x7765_dfe7, 0x1106_7980);
    OpIs(X, 3, 0xefcd_ab89, 0x1106_7980, 0x99a0_9999, 0xc6c1_0796, 0xd7c1_1f96, 0xd99b_e85a, 0x40_0000, 0x400,
         0x1680_0000, 0x0036_66fa, 0x16b6_66fa, 0x27bc_e07a);
  }

  lemma Bits1()
    ensures Mix(4, 0x27bc_e07a, 0x1106_7980, 0x99a0_9999) == 0x9904_7981 && Or(0xca71_8b80, 0x0000_0054) == 0xca71_8bd4
    ensures Mix(5, 0xf22e_6c4e, 0x27bc_e07a, 0x1106_7980) == 0x232c_71ca && Or(0xc27e_2000, 0x0000_05ca) == 0xc27e_25ca
    ensures Mix(6, 0xb4ac_9218, 0xf22e_6c4e, 0x27bc_e07a) == 0xb33c_606a && Or(0xf4ac_0000, 0x0001_9da8) == 0xf4ad_9da8
    ensures Mix(7, 0xa95a_2fc0, 0xb4ac_9218, 0xf22e_6c4e) == 0xf22c_420e && Or(0xfb00_0000, 0x001f_6546) == 0xfb1f_6546
  {
  }

  lemma Line1()
    ensures Line(X, Regs(0xc6c1_0796, 0x27bc_e07a, 0x1106_7980, 0x99a0_9999), 4)
         == Regs(0xf22e_6c4e, 0xa479_9506, 0xa95a_2fc0, 0xb4ac_9218)
  {
    hide Power2, Op, Mix, Or;
    ShiftPowers();
    Bits1();
    OpIs(X, 4, 0xc6c1_0796, 0x27bc_e07a, 0x1106_7980, 0x99a0_9999, 0x9904_7981, 0xa994_e317, 0x80, 0x200_0000,
         0xca71_8b80, 0x0000_0054, 0xca71_8bd4, 0xf22e_6c4e);
    OpIs(X, 5, 0x99a0_9999, 0xf22e_6c4e, 0x27bc_e07a, 0x1106_7980, 0x232c_71ca, 0x5cac_27e2, 0x1000, 0x10_0000,
         0xc27e_2000, 0x0000_05ca, 0xc27e_25ca, 0xb4ac_9218);
    OpIs(X, 6, 0x1106_7980, 0xb4ac_9218, 0xf22e_6c4e, 0x27bc_e07a, 0xb33c_606a, 0xced4_7a56, 0x2_0000, 0x8000,
         0xf4ac_0000, 0x0001_9da8, 0xf4ad_9da8, 0xa95a_2fc0);
    OpIs(X, 7, 0x27bc_e07a, 0xa95a_2fc0, 0xb4ac_9218, 0xf22e_6c4e, 0xf22c_420e, 0x7d95_1bec, 0x40_0000, 0x400,
         0xfb00_0000, 0x001f_6546, 0xfb1f_6546, 0xa479_9506);
  }

  lemma Bits2()
    ensures Mix(8, 0xa479_9506, 0xa95a_2fc0, 0xb4ac_9218) == 0xb0dc_0718 && Or(0x7a3a_5280, 0x0000_003b) == 0x7a3a_52bb
    ensures Mix(9, 0x1eb3_e7c1, 0xa479_9506, 0xa95a_2fc0) == 0xa579_8d00 && Or(0x8833_2000, 0x0000_053d) == 0x8833_253d
    ensures Mix(10, 0xa6e7_0cfe, 0x1eb3_e7c1, 0xa479_9506) == 0x06bb_95c0 && Or(0x2340_0000, 0x0000_450d) == 0x2340_450d
    ensures Mix(11, 0xca27_520b, 0xa6e7_0cfe, 0x1eb3_e7c1) == 0x96b7_a5ca && Or(0xc040_0000, 0x000e_c0e1) == 0xc04e_c0e1
  {
  }

  lemma Line2()
    ensures Line(X, Regs(0xf22e_6c4e, 0xa479_9506, 0xa95a_2fc0, 0xb4ac_9218), 8)
         == Regs(0x1eb3_e7c1, 0x8a76_12ec, 0xca27_520b, 0xa6e7_0cfe)
  {
    hide Power2, Op, Mix, Or;
    ShiftPowers();
    Bits2();
    OpIs(X, 8, 0xf22e_6c4e, 0xa479_9506, 0xa95a_2fc0, 0xb4ac_9218, 0xb0dc_0718, 0x76f4_74a5, 0x80, 0x200_0000,
         0x7a3a_5280, 0x0000_003b, 0x7a3a_52bb, 0x1eb3_e7c1);
    OpIs(X, 9, 0xb4ac_9218, 0x1eb3_e7c1, 0xa479_9506, 0xa95a_2fc0, 0xa579_8d00, 0x53d8_8332, 0x1000, 0x10_0000,
         0x8833_2000, 0x0000_053d, 0x8833_253d, 0xa6e7_0cfe);
    OpIs(X, 10, 0xa95a_2fc0, 0xa6e7_0cfe, 0x1eb3_e7c1, 0xa479_9506, 0x06bb_95c0, 0x2286_91a0, 0x2_0000, 0x8000,
         0x2340_0000, 0x0000_450d, 0x2340_450d, 0xca27_520b);
    OpIs(X, 11, 0xa479_9506, 0xca27_520b, 0xa6e7_0cfe, 0x1eb3_e7c1, 0x96b7_a5ca, 0x3b03_8701, 0x40_0000, 0x400,
         0xc040_0000, 0x000e_c0e1, 0xc04e_c0e1, 0x8a76_12ec);
  }

  lemma Bits3()
    ensures Mix(12, 0x8a76_12ec, 0xca27_520b, 0xa6e7_0cfe) == 0xaea7_1e1a && Or(0xb247_ba00, 0x0000_0059) == 0xb247_ba59
    ensures Mix(13, 0x3cbd_cd45, 0x8a76_12ec, 0xca27_520b) == 0xca36_124e && Or(0x7c20_f000, 0x0000_0eee) == 0x7c20_feee
    ensures Mix(14, 0xb8de_cc33, 0x3cbd_cd45, 0x8a76_12ec) == 0x3abc_decd && Or(0xec3c_0000, 0x0001_56ba) == 0xec3d_56ba
    ensures Mix(15, 0xa51c_22ed, 0xb8de_cc33, 0x3cbd_cd45) == 0xb8bd_cd21 && Or(0x0b80_0000, 0x0023_39fa) == 0x0ba3_39fa
  {
  }

  lemma Line3()
    ensures Line(X, Regs(0x1eb3_e7c1, 0x8a76_12ec, 0xca27_520b, 0xa6e7_0cfe), 12)
         == Regs(0x3cbd_cd45, 0xb0bf_5ce7, 0xa51c_22ed, 0xb8de_cc33)
  {
    hide Power2, Op, Mix, Or;
    ShiftPowers();
    Bits3();
    OpIs(X, 12, 0x1eb3_e7c1, 0x8a76_12ec, 0xca27_520b, 0xa6e7_0cfe, 0xaea7_1e1a, 0xb364_8f74, 0x80, 0x200_0000,
         0xb247_ba00, 0x0000_0059, 0xb247_ba59, 0x3cbd_cd45);
    OpIs(X, 13, 0xa6e7_0cfe, 0x3cbd_cd45, 0x8a76_12ec, 0xca27_520b, 0xca36_124e, 0xeee7_c20f, 0x1000, 0x10_0000,
         0x7c20_f000, 0x0000_0eee, 0x7c20_feee, 0xb8de_cc33);
    OpIs(X, 14, 0xca27_520b, 0xb8de_cc33, 0x3cbd_cd45, 0x8a76_12ec, 0x3abc_decd, 0xab5d_761e, 0x2_0000, 0x8000,
         0xec3c_0000, 0x0001_56ba, 0xec3d_56ba, 0xa51c_22ed);
    OpIs(X, 15, 0x8a76_12ec, 0xa51c_22ed, 0xb8de_cc33, 0x3cbd_cd45, 0xb8bd_cd21, 0x8ce7_e82e, 0x40_0000, 0x400,
         0x0b80_0000, 0x0023_39fa, 0x0ba3_39fa, 0xb0bf_5ce7);
  }

  lemma Bits4()
    ensures Mix(16, 0xb0bf_5ce7, 0xa51c_22ed, 0xb8de_cc33) == 0xb59e_6eef && Or(0x1834_fb60, 0x0000_0006) == 0x1834_fb66
    ensures Mix(17, 0xc8f4_584d, 0xb0bf_5ce7, 0xa51c_22ed) == 0x90b7_5c4f && Or(0x706c_3600, 0x0000_00d8) == 0x706c_36d8
    ensures Mix(18, 0x3960_8f25, 0xc8f4_584d, 0xb0bf_5ce7) == 0x7860_0c2d && Or(0xff77_8000, 0x0000_2e93) == 0xff77_ae93
    ensures Mix(19, 0x38d8_3db8, 0x3960_8f25, 0xc8f4_584d) == 0x39d0_9f28 && Or(0x5fa0_0000, 0x0001_88a0) == 0x5fa1_88a0
  {
  }

  lemma Line4()
    ensures Line(X, Regs(0x3cbd_cd45, 0xb0bf_5ce7, 0xa51c_22ed, 0xb8de_cc33), 16)
         == Regs(0xc8f4_584d, 0x9879_c658, 0x38d8_3db8, 0x3960_8f25)
  {
    hide Power2, Op, Mix, Or;
    ShiftPowers();
    Bits4();
    OpIs(X, 16, 0x3cbd_cd45, 0xb0bf_5ce7, 0xa51c_22ed, 0xb8de_cc33, 0xb59e_6eef, 0x30c1_a7db, 0x20, 0x800_0000,
         0x1834_fb60, 0x0000_0006, 0x1834_fb66, 0xc8f4_584d);
    OpIs(X, 17, 0xb8de_cc33, 0xc8f4_584d, 0xb0bf_5ce7, 0xa51c_22ed, 0x90b7_5c4f, 0x6c38_361b, 0x200, 0x80_0000,
         0x706c_3600, 0x0000_00d8, 0x706c_36d8, 0x3960_8f25);
    OpIs(X, 18, 0xa51c_22ed, 0x3960_8f25, 0xc8f4_584d, 0xb0bf_5ce7, 0x7860_0c2d, 0xba4f_fdde, 0x4000, 0x4_0000,
         0xff77_8000, 0x0000_2e93, 0xff77_ae93, 0x38d8_3db8);
    OpIs(X, 19, 0xb0bf_5ce7, 0x38d8_3db8, 0x3960_8f25, 0xc8f4_584d, 0x39d0_9f28, 0x188a_05fa, 0x10_0000, 0x1000,
         0x5fa0_0000, 0x0001_88a0, 0x5fa1_88a0, 0x9879_c658);
  }

  lemma Bits5()
    ensures Mix(20, 0x9879_c658, 0x38d8_3db8, 0x3960_8f25) == 0x18f8_b698 && Or(0x0e6e_b2e0, 0x0000_0002) == 0x0e6e_b2e2
    ensures Mix(21, 0xa6e8_793a, 0x9879_c658, 0x38d8_3db8) == 0xa0e9_fb78 && Or(0x001e_be00, 0x0000_009e) == 0x001e_be9e
    ensures Mix(22, 0xa707_37d8, 0xa6e8_793a, 0x9879_c658) == 0xa681_3f7a && Or(0xd8ec_c000, 0x0000_2dfe) == 0xd8ec_edfe
    ensures Mix(23, 0x7ff4_25d6, 0xa707_37d8, 0xa6e8_793a) == 0x27e7_27d2 && Or(0xc430_0000, 0x000f_c883) == 0xc43f_c883
  {
  }

  lemma Line5()
    ensures Line(X, Regs(0xc8f4_584d, 0x9879_c658, 0x38d8_3db8, 0x3960_8f25), 20)
         == Regs(0xa6e8_793a, 0x4433_ee59, 0x7ff4_25d6, 0xa707_37d8)
  {
    hide Power2, Op, Mix, Or;
    ShiftPowers();
    Bits5();
    OpIs(X, 20, 0xc8f4_584d, 0x9879_c658, 0x38d8_3db8, 0x3960_8f25, 0x18f8_b698, 0x1073_7597, 0x20, 0x800_0000,
         0x0e6e_b2e0, 0x0000_0002, 0x0e6e_b2e2, 0xa6e8_793a);
    OpIs(X, 21, 0x3960_8f25, 0xa6e8_793a, 0x9879_c658, 0x38d8_3db8, 0xa0e9_fb78, 0x4f00_0f5f, 0x200, 0x80_0000,
         0x001e_be00, 0x0000_009e, 0x001e_be9e, 0xa707_37d8);
    OpIs(X, 22, 0x38d8_3db8, 0xa707_37d8, 0xa6e8_793a, 0x9879_c658, 0xa681_3f7a, 0xb7fb_63b3, 0x4000, 0x4_0000,
         0xd8ec_c000, 0x0000_2dfe, 0xd8ec_edfe, 0x7ff4_25d6);
    OpIs(X, 23, 0x9879_c658, 0x7ff4_25d6, 0xa707_37d8, 0xa6e8_793a, 0x27e7_27d2, 0xfc88_3c43, 0x10_0000, 0x1000,
         0xc430_0000, 0x000f_c883, 0xc43f_c883, 0x4433_ee59);
  }

  lemma Bits6()
    ensures Mix(24, 0x4433_ee59, 0x7ff4_25d6, 0xa707_37d8) == 0x5cf3_265e && Or(0x855b_3d20, 0x0000_0012) == 0x855b_3d32
    ensures Mix(25, 0xc98f_2b8b, 0x4433_ee59, 0x7ff4_25d6) == 0x4987_eb8b && Or(0x8c59_e200, 0x0000_0167) == 0x8c59_e367
    ensures Mix(26, 0x55e9_0ef2, 0xc98f_2b8b, 0x4433_ee59) == 0xcdad_0fd2 && Or(0x645f_0000, 0x0000_24b1) == 0x645f_24b1
    ensures Mix(27, 0xba48_33a3, 0x55e9_0ef2, 0xc98f_2b8b) == 0x9c68_27f3 && Or(0x3a00_0000, 0x0009_05f9) == 0x3a09_05f9
  {
  }

  lemma Line6()
    ensures Line(X, Regs(0xa6e8_793a, 0x4433_ee59, 0x7ff4_25d6, 0xa707_37d8), 24)
         == Regs(0xc98f_2b8b, 0xf451_399c, 0xba48_33a3, 0x55e9_0ef2)
  {
    hide Power2, Op, Mix, Or;
    ShiftPowers();
    Bits6();
    OpIs(X, 24, 0xa6e8_793a, 0x4433_ee59, 0x7ff4_25d6, 0xa707_37d8, 0x5cf3_265e, 0x942a_d9e9, 0x20, 0x800_0000,
         0x855b_3d20, 0x0000_0012, 0x855b_3d32, 0xc98f_2b8b);
    OpIs(X, 25, 0xa707_37d8, 0xc98f_2b8b, 0x4433_ee59, 0x7ff4_25d6, 0x4987_eb8b, 0xb3c6_2cf1, 0x200, 0x80_0000,
         0x8c59_e200, 0x0000_0167, 0x8c59_e367, 0x55e9_0ef2);
    OpIs(X, 26, 0x7ff4_25d6, 0x55e9_0ef2, 0xc98f_2b8b, 0x4433_ee59, 0xcdad_0fd2, 0x92c5_917c, 0x4000, 0x4_0000,
         0x645f_0000, 0x0000_24b1, 0x645f_24b1, 0xba48_33a3);
    OpIs(X, 27, 0x4433_ee59, 0xba48_33a3, 0x55e9_0ef2, 0xc98f_2b8b, 0x9c68_27f3, 0x905f_93a0, 0x10_0000, 0x1000,
         0x3a00_0000, 0x0009_05f9, 0x3a09_05f9, 0xf451_399c);
  }

  lemma Bits7()
    ensures Mix(28, 0xf451_399c, 0xba48_33a3, 0x55e9_0ef2) == 0xfe41_3991 && Or(0x3ccf_ea20, 0x0000_001e) == 0x3ccf_ea3e
    ensures Mix(29, 0x3121_23da, 0xf451_399c, 0xba48_33a3) == 0x7411_2b9e && Or(0x6a51_a200, 0x0000_0026) == 0x6a51_a226
    ensures Mix(30, 0x9b72_c600, 0x3121_23da, 0xf451_399c) == 0x9170_0242 && Or(0x2748_4000, 0x0000_0663) == 0x2748_4663
    ensures Mix(31, 0xc2bb_0c63, 0x9b72_c600, 0x3121_23da) == 0x8a73_c442 && Or(0x2df0_0000, 0x0008_668c) == 0x2df8_668c
  {
  }

  lemma Line7()
    ensures Line(X, Regs(0xc98f_2b8b, 0xf451_399c, 0xba48_33a3, 0x55e9_0ef2), 28)
         == Regs(0x3121_23da, 0xf0b3_72ef, 0xc2bb_0c63, 0x9b72_c600)
  {
    hide Power2, Op, Mix, Or;
    ShiftPowers();
    Bits7();
    OpIs(X, 28, 0xc98f_2b8b, 0xf451_399c, 0xba48_33a3, 0x55e9_0ef2, 0xfe41_3991, 0xf1e6_7f51, 0x20, 0x800_0000,
         0x3ccf_ea20, 0x0000_001e, 0x3ccf_ea3e, 0x3121_23da);
    OpIs(X, 29, 0x55e9_0ef2, 0x3121_23da, 0xf451_399c, 0xba48_33a3, 0x7411_2b9e, 0x1335_28d1, 0x200, 0x80_0000,
         0x6a51_a200, 0x0000_0026, 0x6a51_a226, 0x9b72_c600);
    OpIs(X, 30, 0xba48_33a3, 0x9b72_c600, 0x3121_23da, 0xf451_399c, 0x9170_0242, 0x198c_9d21, 0x4000, 0x4_0000,
         0x2748_4000, 0x0000_0663, 0x2748_4663, 0xc2bb_0c63);
    OpIs(X, 31, 0xf451_399c, 0xc2bb_0c63, 0x9b72_c600, 0x3121_23da, 0x8a73_c442, 0x8668_c2df, 0x10_0000, 0x1000,
         0x2df0_0000, 0x0008_668c, 0x2df8_668c, 0xf0b3_72ef);
  }

  lemma Bits8()
    ensures Mix(32, 0xf0b3_72ef, 0xc2bb_0c63, 0x9b72_c600) == 0xa97a_b88c && Or(0x2ed6_bfd0, 0x0000_0003) == 0x2ed6_bfd3
    ensures Mix(33, 0x1f8a_32c2, 0xf0b3_72ef, 0xc2bb_0c63) == 0x2d82_4c4e && Or(0x8389_b000, 0x0000_05d6) == 0x8389_b5d6
    ensures Mix(34, 0xa313_e898, 0x1f8a_32c2, 0xf0b3_72ef) == 0x4c2a_a8b5 && Or(0x8aad_0000, 0x0000_f2f8) == 0x8aad_f2f8
    ensures Mix(35, 0x2dc1_db90, 0xa313_e898, 0x1f8a_32c2) == 0x9158_01ca && Or(0x3e80_0000, 0x003f_f857) == 0x3ebf_f857
  {
  }

  lemma Line8()
    ensures Line(X, Regs(0x3121_23da, 0xf0b3_72ef, 0xc2bb_0c63, 0x9b72_c600), 32)
         == Regs(0x1f8a_32c2, 0x6c81_d3e7, 0x2dc1_db90, 0xa313_e898)
  {
    hide Power2, Op, Mix, Or;
    ShiftPowers();
    Bits8();
    OpIs(X, 32, 0x3121_23da, 0xf0b3_72ef, 0xc2bb_0c63, 0x9b72_c600, 0xa97a_b88c, 0x32ed_6bfd, 0x10, 0x1000_0000,
         0x2ed6_bfd0, 0x0000_0003, 0x2ed6_bfd3, 0x1f8a_32c2);
    OpIs(X, 33, 0x9b72_c600, 0x1f8a_32c2, 0xf0b3_72ef, 0xc2bb_0c63, 0x2d82_4c4e, 0xbad0_7136, 0x800, 0x20_0000,
         0x8389_b000, 0x0000_05d6, 0x8389_b5d6, 0xa313_e898);
    OpIs(X, 34, 0xc2bb_0c63, 0xa313_e898, 0x1f8a_32c2, 0xf0b3_72ef, 0x4c2a_a8b5, 0xf2f8_8aad, 0x1_0000, 0x1_0000,
         0x8aad_0000, 0x0000_f2f8, 0x8aad_f2f8, 0x2dc1_db90);
    OpIs(X, 35, 0xf0b3_72ef, 0x2dc1_db90, 0xa313_e898, 0x1f8a_32c2, 0x9158_01ca, 0x7ff0_ae7d, 0x80_0000, 0x200,
         0x3e80_0000, 0x003f_f857, 0x3ebf_f857, 0x6c81_d3e7);
  }

  lemma Bits9()
    ensures Mix(36, 0x6c81_d3e7, 0x2dc1_db90, 0xa313_e898) == 0xe253_e0ef && Or(0xee44_43a0, 0x0000_000e) == 0xee44_43ae
    ensures Mix(37, 0x5ac6_1795, 0x6c81_d3e7, 0x2dc1_db90) == 0x1b86_1fe2 && Or(0x6153_a000, 0x0000_02f6) == 0x6153_a2f6
    ensures Mix(38, 0xbc19_ba8b, 0x5ac6_1795, 0x6c81_d3e7) == 0x8a5e_7ef9 && Or(0x0a4c_0000, 0x0000_1541) == 0x0a4c_1541
    ensures Mix(39, 0xc665_cfcc, 0xbc19_ba8b, 0x5ac6_1795) == 0x20ba_62d2 && Or(0xcc00_0000, 0x005f_36b1) == 0xcc5f_36b1
  {
  }

  lemma Line9()
    ensures Line(X, Regs(0x1f8a_32c2, 0x6c81_d3e7, 0x2dc1_db90, 0xa313_e898), 36)
         == Regs(0x5ac6_1795, 0x92c5_067d, 0xc665_cfcc, 0xbc19_ba8b)
  {
    hide Power2, Op, Mix, Or;
    ShiftPowers();
    Bits9();
    OpIs(X, 36, 0x1f8a_32c2, 0x6c81_d3e7, 0x2dc1_db90, 0xa313_e898, 0xe253_e0ef, 0xeee4_443a, 0x10, 0x1000_0000,
         0xee44_43a0, 0x0000_000e, 0xee44_43ae, 0x5ac6_1795);
    OpIs(X, 37, 0xa313_e898, 0x5ac6_1795, 0x6c81_d3e7, 0x2dc1_db90, 0x1b86_1fe2, 0x5ecc_2a74, 0x800, 0x20_0000,
         0x6153_a000, 0x0000_02f6, 0x6153_a2f6, 0xbc19_ba8b);
    OpIs(X, 38, 0x2dc1_db90, 0xbc19_ba8b, 0x5ac6_1795, 0x6c81_d3e7, 0x8a5e_7ef9, 0x1541_0a4c, 0x1_0000, 0x1_0000,
         0x0a4c_0000, 0x0000_1541, 0x0a4c_1541, 0xc665_cfcc);
    OpIs(X, 39, 0x6c81_d3e7, 0xc665_cfcc, 0xbc19_ba8b, 0x5ac6_1795, 0x20ba_62d2, 0xbe6d_6398, 0x80_0000, 0x200,
         0xcc00_0000, 0x005f_36b1, 0xcc5f_36b1, 0x92c5_067d);
  }

  lemma Bits10()
    ensures Mix(40, 0x92c5_067d, 0xc665_cfcc, 0xbc19_ba8b) == 0xe8b9_733a && Or(0xc4d3_ac50, 0x0000_000e) == 0xc4d3_ac5e
    ensures Mix(41, 0x5798_b2db, 0x92c5_067d, 0xc665_cfcc) == 0x0338_7b6a && Or(0xb501_8000, 0x0000_0771) == 0xb501_8771
    ensures Mix(42, 0x0c9a_3a4c, 0x5798_b2db, 0x92c5_067d) == 0xc9c7_8eea && Or(0xdd88_0000, 0x0000_b56b) == 0xdd88_b56b
    ensures Mix(43, 0xea22_efb7, 0x0c9a_3a4c, 0x5798_b2db) == 0xb120_6720 && Or(0x7d80_0000, 0x0055_6772) == 0x7dd5_6772
  {
  }

  lemma Line10()
    ensures Line(X, Regs(0x5ac6_1795, 0x92c5_067d, 0xc665_cfcc, 0xbc19_ba8b), 40)
         == Regs(0x5798_b2db, 0x67f8_5729, 0xea22_efb7, 0x0c9a_3a4c)
  {
    hide Power2, Op, Mix, Or;
    ShiftPowers();
    Bits10();
    OpIs(X, 40, 0x5ac6_1795, 0x92c5_067d, 0xc665_cfcc, 0xbc19_ba8b, 0xe8b9_733a, 0xec4d_3ac5, 0x10, 0x1000_0000,
         0xc4d3_ac50, 0x0000_000e, 0xc4d3_ac5e, 0x5798_b2db);
    OpIs(X, 41, 0xbc19_ba8b, 0x5798_b2db, 0x92c5_067d, 0xc665_cfcc, 0x0338_7b6a, 0xee36_a030, 0x800, 0x20_0000,
         0xb501_8000, 0x0000_0771, 0xb501_8771, 0x0c9a_3a4c);
    OpIs(X, 42, 0xc665_cfcc, 0x0c9a_3a4c, 0x5798_b2db, 0x92c5_067d, 0xc9c7_8eea, 0xb56b_dd88, 0x1_0000, 0x1_0000,
         0xdd88_0000, 0x0000_b56b, 0xdd88_b56b, 0xea22_efb7);
    OpIs(X, 43, 0x92c5_067d, 0xea22_efb7, 0x0c9a_3a4c, 0x5798_b2db, 0xb120_6720, 0xaace_e4fb, 0x80_0000, 0x200,
         0x7d80_0000, 0x0055_6772, 0x7dd5_6772, 0x67f8_5729);
  }

  lemma Bits11()
    ensures Mix(44, 0x67f8_5729, 0xea22_efb7, 0x0c9a_3a4c) == 0x8140_82d2 && Or(0x11b7_2510, 0x0000_0002) == 0x11b7_2512
    ensures Mix(45, 0x79af_7c3b, 0x67f8_5729, 0xea22_efb7) == 0xf475_c4a5 && Or(0x288a_6800, 0x0000_0313) == 0x288a_6b13
    ensures Mix(46, 0xa239_e74e, 0x79af_7c3b, 0x67f8_5729) == 0xbc6e_cc5c && Or(0x390b_0000, 0x0000_c634) == 0x390b_c634
    ensures Mix(47, 0xdb45_ad82, 0xa239_e74e, 0x79af_7c3b) == 0x00d3_36f7 && Or(0x6700_0000, 0x003c_e197) == 0x673c_e197
  {
  }

  lemma Line11()
    ensures Line(X, Regs(0x5798_b2db, 0x67f8_5729, 0xea22_efb7, 0x0c9a_3a4c), 44)
         == Regs(0x79af_7c3b, 0x4282_8f19, 0xdb45_ad82, 0xa239_e74e)
  {
    hide Power2, Op, Mix, Or;
    ShiftPowers();
    Bits11();
    OpIs(X, 44, 0x5798_b2db, 0x67f8_5729, 0xea22_efb7, 0x0c9a_3a4c, 0x8140_82d2, 0x211b_7251, 0x10, 0x1000_0000,
         0x11b7_2510, 0x0000_0002, 0x11b7_2512, 0x79af_7c3b);
    OpIs(X, 45, 0x0c9a_3a4c, 0x79af_7c3b, 0x67f8_5729, 0xea22_efb7, 0xf475_c4a5, 0x6265_114d, 0x800, 0x20_0000,
         0x288a_6800, 0x0000_0313, 0x288a_6b13, 0xa239_e74e);
    OpIs(X, 46, 0xea22_efb7, 0xa239_e74e, 0x79af_7c3b, 0x67f8_5729, 0xbc6e_cc5c, 0xc634_390b, 0x1_0000, 0x1_0000,
         0x390b_0000, 0x0000_c634, 0x390b_c634, 0xdb45_ad82);
    OpIs(X, 47, 0x67f8_5729, 0xdb45_ad82, 0xa239_e74e, 0x79af_7c3b, 0x00d3_36f7, 0x79c3_2ece, 0x80_0000, 0x200,
         0x6700_0000, 0x003c_e197, 0x673c_e197, 0x4282_8f19);
  }

  lemma Bits12()
    ensures Mix(48, 0x4282_8f19, 0xdb45_ad82, 0xa239_e74e) == 0x8483_323b && Or(0xa7c4_bec0, 0x0000_000d) == 0xa7c4_becd
    ensures Mix(49, 0xea47_4de6, 0x4282_8f19, 0xdb45_ad82) == 0xac7d_d0e6 && Or(0x2070_b800, 0x0000_03e1) == 0x2070_bbe1
    ensures Mix(50, 0x0ab8_09c7, 0xea47_4de6, 0x4282_8f19) == 0x55ba_3401 && Or(0x0371_0000, 0x0000_6e4a) == 0x0371_6e4a
    ensures Mix(51, 0x0e29_7811, 0x0ab8_09c7, 0xea47_4de6) == 0x1501_f3de && Or(0x30a0_0000, 0x0015_8def) == 0x30b5_8def
  {
  }

  lemma Line12()
    ensures Line(X, Regs(0x79af_7c3b, 0x4282_8f19, 0xdb45_ad82, 0xa239_e74e), 48)
         == Regs(0xea47_4de6, 0x3edf_0600, 0x0e29_7811, 0x0ab8_09c7)
  {
    hide Power2, Op, Mix, Or;
    ShiftPowers();
    Bits12();
    OpIs(X, 48, 0x79af_7c3b, 0x4282_8f19, 0xdb45_ad82, 0xa239_e74e, 0x8483_323b, 0x369f_12fb, 0x40, 0x400_0000,
         0xa7c4_bec0, 0x0000_000d, 0xa7c4_becd, 0xea47_4de6);
    OpIs(X, 49, 0xa239_e74e, 0xea47_4de6, 0x4282_8f19, 0xdb45_ad82, 0xac7d_d0e6, 0xf848_1c2e, 0x400, 0x40_0000,
         0x2070_b800, 0x0000_03e1, 0x2070_bbe1, 0x0ab8_09c7);
    OpIs(X, 50, 0xdb45_ad82, 0x0ab8_09c7, 0xea47_4de6, 0x4282_8f19, 0x55ba_3401, 0xdc94_06e2, 0x8000, 0x2_0000,
         0x0371_0000, 0x0000_6e4a, 0x0371_6e4a, 0x0e29_7811);
    OpIs(X, 51, 0x4282_8f19, 0x0e29_7811, 0x0ab8_09c7, 0xea47_4de6, 0x1501_f3de, 0xac6f_7985, 0x20_0000, 0x800,
         0x30a0_0000, 0x0015_8def, 0x30b5_8def, 0x3edf_0600);
  }

  lemma Bits13()
    ensures Mix(52, 0x3edf_0600, 0x0e29_7811, 0x0ab8_09c7) == 0xf1f6_8e29 && Or(0x04ab_9240, 0x0000_002f) == 0x04ab_926f
    ensures Mix(53, 0x438a_986f, 0x3edf_0600, 0x0e29_7811) == 0xcd01_99ef && Or(0x56fa_5400, 0x0000_02dc) == 0x56fa_56dc
    ensures Mix(54, 0x9a84_ef4b, 0x438a_986f, 0x3edf_0600) == 0x982e_6790 && Or(0xa246_8000, 0x0000_0c5c) == 0xa246_8c5c
    ensures Mix(55, 0x3ccb_7ba7, 0x9a84_ef4b, 0x438a_986f) == 0x267b_90fc && Or(0x6240_0000, 0x0006_64c7) == 0x6246_64c7
  {
  }

  lemma Line13()
    ensures Line(X, Regs(0xea47_4de6, 0x3edf_0600, 0x0e29_7811, 0x0ab8_09c7), 52)
         == Regs(0x438a_986f, 0x9f11_e06e, 0x3ccb_7ba7, 0x9a84_ef4b)
  {
    hide Power2, Op, Mix, Or;
    ShiftPowers();
    Bits13();
    OpIs(X, 52, 0xea47_4de6, 0x3edf_0600, 0x0e29_7811, 0x0ab8_09c7, 0xf1f6_8e29, 0xbc12_ae49, 0x40, 0x400_0000,
         0x04ab_9240, 0x0000_002f, 0x04ab_926f, 0x438a_986f);
    OpIs(X, 53, 0x0ab8_09c7, 0x438a_986f, 0x3edf_0600, 0x0e29_7811, 0xcd01_99ef, 0xb715_be95, 0x400, 0x40_0000,
         0x56fa_5400, 0x0000_02dc, 0x56fa_56dc, 0x9a84_ef4b);
    OpIs(X, 54, 0x0e29_7811, 0x9a84_ef4b, 0x438a_986f, 0x3edf_0600, 0x982e_6790, 0x18b9_448d, 0x8000, 0x2_0000,
         0xa246_8000, 0x0000_0c5c, 0xa246_8c5c, 0x3ccb_7ba7);
    OpIs(X, 55, 0x3edf_0600, 0x3ccb_7ba7, 0x9a84_ef4b, 0x438a_986f, 0x267b_90fc, 0x3326_3b12, 0x20_0000, 0x800,
         0x6240_0000, 0x0006_64c7, 0x6246_64c7, 0x9f11_e06e);
  }

  lemma Bits14()
    ensures Mix(56, 0x9f11_e06e, 0x3ccb_7ba7, 0x9a84_ef4b) == 0xc3b0_8b59 && Or(0x5342_9f80, 0x0000_0038) == 0x5342_9fb8
    ensures Mix(57, 0xf254_8026, 0x9f11_e06e, 0x3ccb_7ba7) == 0x6c65_6410 && Or(0x5ce8_ec00, 0x0000_0014) == 0x5ce8_ec14
    ensures Mix(58, 0x4f3d_6c3a, 0xf254_8026, 0x9f11_e06e) == 0x9dab_ff9d && Or(0x0c58_8000, 0x0000_6fed) == 0x0c58_efed
    ensures Mix(59, 0x5b96_5c27, 0x4f3d_6c3a, 0xf254_8026) == 0x1082_13c5 && Or(0xe080_0000, 0x000f_b9c6) == 0xe08f_b9c6
  {
  }

  lemma Line14()
    ensures Line(X, Regs(0x438a_986f, 0x9f11_e06e, 0x3ccb_7ba7, 0x9a84_ef4b), 56)
         == Regs(0xf254_8026, 0x3c26_15ed, 0x5b96_5c27, 0x4f3d_6c3a)
  {
    hide Power2, Op, Mix, Or;
    ShiftPowers();
    Bits14();
    OpIs(X, 56, 0x438a_986f, 0x9f11_e06e, 0x3ccb_7ba7, 0x9a84_ef4b, 0xc3b0_8b59, 0xe14d_0a7e, 0x40, 0x400_0000,
         0x5342_9f80, 0x0000_0038, 0x5342_9fb8, 0xf254_8026);
    OpIs(X, 57, 0x9a84_ef4b, 0xf254_8026, 0x9f11_e06e, 0x3ccb_7ba7, 0x6c65_6410, 0x0517_3a3b, 0x400, 0x40_0000,
         0x5ce8_ec00, 0x0000_0014, 0x5ce8_ec14, 0x4f3d_6c3a);
    OpIs(X, 58, 0x3ccb_7ba7, 0x4f3d_6c3a, 0xf254_8026, 0x9f11_e06e, 0x9dab_ff9d, 0xdfda_18b1, 0x8000, 0x2_0000,
         0x0c58_8000, 0x0000_6fed, 0x0c58_efed, 0x5b96_5c27);
    OpIs(X, 59, 0x9f11_e06e, 0x5b96_5c27, 0x4f3d_6c3a, 0xf254_8026, 0x1082_13c5, 0x7dce_3704, 0x20_0000, 0x800,
         0xe080_0000, 0x000f_b9c6, 0xe08f_b9c6, 0x3c26_15ed);
  }

  lemma Bits15()
    ensures Mix(60, 0x3c26_15ed, 0x5b96_5c27, 0x4f3d_6c3a) == 0xe770_cbca && Or(0x5b07_30c0, 0x0000_0009) == 0x5b07_30c9
    ensures Mix(61, 0x972d_46b6, 0x3c26_15ed, 0x5b96_5c27) == 0x8b4b_f213 && Or(0xe713_d400, 0x0000_0038) == 0xe713_d438
    ensures Mix(62, 0x7e41_1aee, 0x972d_46b6, 0x3c26_15ed) == 0x68f4_bc48 && Or(0x1ab9_8000, 0x0000_1dd7) == 0x1ab9_9dd7
    ensures Mix(63, 0x98fa_b8c5, 0x7e41_1aee, 0x972d_46b6) == 0x86bb_a323 && Or(0x2180_0000, 0x0003_9abf) == 0x2183_9abf
  {
  }

  lemma Line15()
    ensures Line(X, Regs(0xf254_8026, 0x3c26_15ed, 0x5b96_5c27, 0x4f3d_6c3a), 60)
         == Regs(0x972d_46b6, 0xba7e_5384, 0x98fa_b8c5, 0x7e41_1aee)
  {
    hide Power2, Op, Mix, Or;
    ShiftPowers();
    Bits15();
    OpIs(X, 60, 0xf254_8026, 0x3c26_15ed, 0x5b96_5c27, 0x4f3d_6c3a, 0xe770_cbca, 0x256c_1cc3, 0x40, 0x400_0000,
         0x5b07_30c0, 0x0000_0009, 0x5b07_30c9, 0x972d_46b6);
    OpIs(X, 61, 0x4f3d_6c3a, 0x972d_46b6, 0x3c26_15ed, 0x5b96_5c27, 0x8b4b_f213, 0x0e39_c4f5, 0x400, 0x40_0000,
         0xe713_d400, 0x0000_0038, 0xe713_d438, 0x7e41_1aee);
    OpIs(X, 62, 0x5b96_5c27, 0x7e41_1aee, 0x972d_46b6, 0x3c26_15ed, 0x68f4_bc48, 0x3bae_3573, 0x8000, 0x2_0000,
         0x1ab9_8000, 0x0000_1dd7, 0x1ab9_9dd7, 0x98fa_b8c5);
    OpIs(X, 63, 0x3c26_15ed, 0x98fa_b8c5, 0x7e41_1aee, 0x972d_46b6, 0x86bb_a323, 0x1cd5_f90c, 0x20_0000, 0x800,
         0x2180_0000, 0x0003_9abf, 0x2183_9abf, 0xba7e_5384);
  }

  /** The registers after `n` lines. */
  predicate Reached(n: nat, r: Regs) { Lines(X, INIT, n) == r }

  lemma NextLine(n: nat, r: Regs, next: Regs)
    requires Reached(n, r) && Line(X, r, 4 * n) == next
    ensures Reached(n + 1, next)
  {
    hide Line, Lines;
    LinesNext(X, INIT, n);
  }

  lemma SixteenLines()
    ensures Reached(16, Regs(0x972d_46b6, 0xba7e_5384, 0x98fa_b8c5, 0x7e41_1aee))
  {
    hide Line, Lines;
    LinesNext(X, INIT, 0);
    Line0();
    NextLine(0, Regs(0x6745_2301, 0xefcd_ab89, 0x98ba_dcfe, 0x1032_5476),
             Regs(0xc6c1_0796, 0x27bc_e07a, 0x1106_7980, 0x99a0_9999));
    Line1();
    NextLine(1, Regs(0xc6c1_0796, 0x27bc_e07a, 0x1106_7980, 0x99a0_9999),
             Regs(0xf22e_6c4e, 0xa479_9506, 0xa95a_2fc0, 0xb4ac_9218));
    Line2();
    NextLine(2, Regs(0xf22e_6c4e, 0xa479_9506, 0xa95a_2fc0, 0xb4ac_9218),
             Regs(0x1eb3_e7c1, 0x8a76_12ec, 0xca27_520b, 0xa6e7_0cfe));
    Line3();
    NextLine(3, Regs(0x1eb3_e7c1, 0x8a76_12ec, 0xca27_520b, 0xa6e7_0cfe),
             Regs(0x3cbd_cd45, 0xb0bf_5ce7, 0xa51c_22ed, 0xb8de_cc33));
    Line4();
    NextLine(4, Regs(0x3cbd_cd45, 0xb0bf_5ce7, 0xa51c_22ed, 0xb8de_cc33),
             Regs(0xc8f4_584d, 0x9879_c658, 0x38d8_3db8, 0x3960_8f25));
    Line5();
    NextLine(5, Regs(0xc8f4_584d, 0x9879_c658, 0x38d8_3db8, 0x3960_8f25),
             Regs(0xa6e8_793a, 0x4433_ee59, 0x7ff4_25d6, 0xa707_37d8));
    Line6();
    NextLine(6, Regs(0xa6e8_793a, 0x4433_ee59, 0x7ff4_25d6, 0xa707_37d8),
             Regs(0xc98f_2b8b, 0xf451_399c, 0xba48_33a3, 0x55e9_0ef2));
    Line7();
    NextLine(7, Regs(0xc98f_2b8b, 0xf451_399c, 0xba48_33a3, 0x55e9_0ef2),
             Regs(0x3121_23da, 0xf0b3_72ef, 0xc2bb_0c63, 0x9b72_c600));
    Line8();
    NextLine(8, Regs(0x3121_23da, 0xf0b3_72ef, 0xc2bb_0c63, 0x9b72_c600),
             Regs(0x1f8a_32c2, 0x6c81_d3e7, 0x2dc1_db90, 0xa313_e898));
    Line9();
    NextLine(9, Regs(0x1f8a_32c2, 0x6c81_d3e7, 0x2dc1_db90, 0xa313_e898),
             Regs(0x5ac6_1795, 0x92c5_067d, 0xc665_cfcc, 0xbc19_ba8b));
    Line10();
    NextLine(10, Regs(0x5ac6_1795, 0x92c5_067d, 0xc665_cfcc, 0xbc19_ba8b),
             Regs(0x5798_b2db, 0x67f8_5729, 0xea22_efb7, 0x0c9a_3a4c));
    Line11();
    NextLine(11, Regs(0x5798_b2db, 0x67f8_5729, 0xea22_efb7, 0x0c9a_3a4c),
             Regs(0x79af_7c3b, 0x4282_8f19, 0xdb45_ad82, 0xa239_e74e));
    Line12();
    NextLine(12, Regs(0x79af_7c3b, 0x4282_8f19, 0xdb45_ad82, 0xa239_e74e),
             Regs(0xea47_4de6, 0x3edf_0600, 0x0e29_7811, 0x0ab8_09c7));
    Line13();
    NextLine(13, Regs(0xea47_4de6, 0x3edf_0600, 0x0e29_7811, 0x0ab8_09c7),
             Regs(0x438a_986f, 0x9f11_e06e, 0x3ccb_7ba7, 0x9a84_ef4b));
    Line14();
    NextLine(14, Regs(0x438a_986f, 0x9f11_e06e, 0x3ccb_7ba7, 0x9a84_ef4b),
             Regs(0xf254_8026, 0x3c26_15ed, 0x5b96_5c27, 0x4f3d_6c3a));
    Line15();
    NextLine(15, Regs(0xf254_8026, 0x3c26_15ed, 0x5b96_5c27, 0x4f3d_6c3a),
             Regs(0x972d_46b6, 0xba7e_5384, 0x98fa_b8c5, 0x7e41_1aee));
  }

  /** The end of the block: the rest of the message, the mark, and the length in bits. */
  const LAST: seq<byte> := [0x77, 0x78, 0x79, 0x7a, 0x30, 0x31, 0x32, 0x80, 0xb8, 0x1, 0x0, 0x0, 0x0, 0x0, 0x0, 0x0]
  const BLOCK: seq<byte> := PART0 + PART1 + PART2 + LAST

  lemma BlockIs()
    ensures Padded(MESSAGE) == BLOCK
  {
    FourBytes(440);
    FourBytes(0);
    assert Fill<byte>(0x80, 0, 55) == [0x80];
    assert PART3 + [0x80] + LengthBytes(55) == LAST;
    assert MESSAGE + [0x80] + LengthBytes(55) == PART0 + PART1 + PART2 + (PART3 + [0x80] + LengthBytes(55));
  }

  lemma WordIn(block: seq<byte>, part: seq<byte>, g: nat, j: nat, v: word)
    requires |block| == 64 && g < 4 && j < 4 && |part| == 16 && block[16 * g..16 * g + 16] == part
    requires v == Word(part[4 * j], part[4 * j + 1], part[4 * j + 2], part[4 * j + 3])
    ensures WordAt(block, 4 * g + j) == v
  {
    var i := 4 * g + j;
    assert forall k :: 0 <= k < 16 ==> block[16 * g + k] == part[k];
    assert block[4 * i..4 * i + 4] == [part[4 * j], part[4 * j + 1], part[4 * j + 2], part[4 * j + 3]];
  }

  lemma Words0()
    ensures WordAt(BLOCK, 0) == 0x4443_4241 && WordAt(BLOCK, 1) == 0x4847_4645
    ensures WordAt(BLOCK, 2) == 0x4c4b_4a49 && WordAt(BLOCK, 3) == 0x504f_4e4d
  {
    hide WordAt;
    var part := PART0;
    assert BLOCK[0..16] == part;
    WordIn(BLOCK, part, 0, 0, 0x4443_4241);
    WordIn(BLOCK, part, 0, 1, 0x4847_4645);
    WordIn(BLOCK, part, 0, 2, 0x4c4b_4a49);
    WordIn(BLOCK, part, 0, 3, 0x504f_4e4d);
  }

  lemma Words1()
    ensures WordAt(BLOCK, 4) == 0x5453_5251 && WordAt(BLOCK, 5) == 0x5857_5655
    ensures WordAt(BLOCK, 6) == 0x6261_5a59 && WordAt(BLOCK, 7) == 0x6665_6463
  {
    hide WordAt;
    var part := PART1;
    assert BLOCK[16..32] == part;
    WordIn(BLOCK, part, 1, 0, 0x5453_5251);
    WordIn(BLOCK, part, 1, 1, 0x5857_5655);
    WordIn(BLOCK, part, 1, 2, 0x6261_5a59);
    WordIn(BLOCK, part, 1, 3, 0x6665_6463);
  }

  lemma Words2()
    ensures WordAt(BLOCK, 8) == 0x6a69_6867 && WordAt(BLOCK, 9) == 0x6e6d_6c6b
    ensures WordAt(BLOCK, 10) == 0x7271_706f && WordAt(BLOCK, 11) == 0x7675_7473
  {
    hide WordAt;
    var part := PART2;
    assert BLOCK[32..48] == part;
    WordIn(BLOCK, part, 2, 0, 0x6a69_6867);
    WordIn(BLOCK, part, 2, 1, 0x6e6d_6c6b);
    WordIn(BLOCK, part, 2, 2, 0x7271_706f);
    WordIn(BLOCK, part, 2, 3, 0x7675_7473);
  }

  lemma Words3()
    ensures WordAt(BLOCK, 12) == 0x7a79_7877 && WordAt(BLOCK, 13) == 0x8032_3130
    ensures WordAt(BLOCK, 14) == 0x0000_01b8 && WordAt(BLOCK, 15) == 0x0000_0000
  {
    hide WordAt;
    var part := LAST;
    assert BLOCK[48..64] == part;
    WordIn(BLOCK, part, 3, 0, 0x7a79_7877);
    WordIn(BLOCK, part, 3, 1, 0x8032_3130);
    WordIn(BLOCK, part, 3, 2, 0x0000_01b8);
    WordIn(BLOCK, part, 3, 3, 0x0000_0000);
  }

  lemma WordsAre()
    ensures BlockWords(BLOCK) == X
  {
    hide WordAt;
    Words0();
    Words1();
    Words2();
    Words3();
  }

  /** The digest of a message that gives every word of its block another value. */
  lemma KnownDigest()
    ensures Digest(MESSAGE) == [
      0xb7, 0x69, 0x72, 0xfe, 0xd, 0xff, 0x4b, 0xaa, 0xc3, 0x95, 0xb5, 0x31, 0x64, 0x6f, 0x73, 0x8e
    ]
  {
    hide Lines, BlockWords, Padded, Output, Absorb;
    BlockIs();
    WordsAre();
    SixteenLines();
    AbsorbBlock(Compress, INIT, BLOCK);
    OutputIs();
  }

  lemma LeIs(n: nat, a: byte, b: byte, c: byte, d: byte)
    requires n == Word(a, b, c, d)
    ensures Le32(n) == [a, b, c, d]
  {
    WordDigits(a, b, c, d);
  }

  lemma OutputIs()
    ensures Output(Regs(0xfe72_69b7, 0xaa4b_ff0d, 0x31b5_95c3, 0x8e73_6f64)) == [
      0xb7, 0x69, 0x72, 0xfe, 0xd, 0xff, 0x4b, 0xaa, 0xc3, 0x95, 0xb5, 0x31, 0x64, 0x6f, 0x73, 0x8e
    ]
  {
    hide Le32;
    LeIs(0xfe72_69b7, 0xb7, 0x69, 0x72, 0xfe);
    LeIs(0xaa4b_ff0d, 0xd, 0xff, 0x4b, 0xaa);
    LeIs(0x31b5_95c3, 0xc3, 0x95, 0xb5, 0x31);
    LeIs(0x8e73_6f64, 0x64, 0x6f, 0x73, 0x8e);
  }

  /** The length field is the number of message bits modulo 2^64, the least significant byte first. */
  lemma LengthIs(n: nat)
    ensures GetLe32(LengthBytes(n)[..4]) + M32 * GetLe32(LengthBytes(n)[4..]) == 8 * n % M64
  {
    hide Le32, GetLe32;
    assert LengthBytes(n)[..4] == Le32(8 * n) && LengthBytes(n)[4..] == Le32(8 * n / M32);
    WordRoundTrip(8 * n / M32);
    WordRoundTrip(8 * n);
    TwoWords(8 * n);
  }
}
