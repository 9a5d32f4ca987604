/** SHA-1 bit by bit, and a digest that pins every constant and the order of every word. */
module Sha1Known {
  import opened Bytes
  import BitSeqs
  import opened HashStream
  import opened Words
  import opened WordBits
  import opened Sha1

  lemma ChRaw(x: bv32, y: bv32, z: bv32, m: bv32)
    requires m & (m - 1) == 0 && m != 0
    ensures (((x & y) | (!x & z)) & m != 0) == (if (x & m != 0) then (y & m != 0) else (z & m != 0))
  {
  }

  lemma ChAt(x: word, y: word, z: word, r: word, m: bv32, v: bv32, a: bv32, b: bv32, c: bv32)
    requires Single(m) && a == Vector(x) && b == Vector(y) && c == Vector(z) && v == Vector(r) && v == ChV(a, b, c)
    ensures HasMask(r, m) == (if HasMask(x, m) then HasMask(y, m) else HasMask(z, m))
  {
    hide Vector;
    ChRaw(a, b, c, m);
  }

  /** `Ch` chooses by its first argument. */
  lemma ChBits(x: word, y: word, z: word, k: nat)
    requires k < 32
    ensures BitSeqs.BitOf(Ch(x, y, z), k) == (if BitSeqs.BitOf(x, k) then BitSeqs.BitOf(y, k) else BitSeqs.BitOf(z, k))
  {
    hide ChV, BitSeqs.BitOf, HasMask, Mask, Single, Vector, Number;
    var m := TakeMask(k);
    var r := Ch(x, y, z);
    BackAgain(ChV(Vector(x), Vector(y), Vector(z)));
    ChAt(x, y, z, r, m, Vector(r), Vector(x), Vector(y), Vector(z));
    BitByMask(x, k, m);
    BitByMask(y, k, m);
    BitByMask(z, k, m);
    BitByMask(r, k, m);
  }

  lemma ParityRaw(x: bv32, y: bv32, z: bv32, m: bv32)
    requires m & (m - 1) == 0 && m != 0
    ensures ((x ^ y ^ z) & m != 0) == (((x & m != 0) != (y & m != 0)) != (z & m != 0))
  {
  }

  lemma ParityAt(x: word, y: word, z: word, r: word, m: bv32, v: bv32, a: bv32, b: bv32, c: bv32)
    requires Single(m) && a == Vector(x) && b == Vector(y) && c == Vector(z) && v == Vector(r) && v == ParityV(a, b, c)
    ensures HasMask(r, m) == ((HasMask(x, m) != HasMask(y, m)) != HasMask(z, m))
  {
    hide Vector;
    ParityRaw(a, b, c, m);
  }

  /** `Parity` is the parity. */
  lemma ParityBits(x: word, y: word, z: word, k: nat)
    requires k < 32
    ensures BitSeqs.BitOf(Parity(x, y, z), k) == ((BitSeqs.BitOf(x, k) != BitSeqs.BitOf(y, k)) != BitSeqs.BitOf(z, k))
  {
    hide ParityV, BitSeqs.BitOf, HasMask, Mask, Single, Vector, Number;
    var m := TakeMask(k);
    var r := Parity(x, y, z);
    BackAgain(ParityV(Vector(x), Vector(y), Vector(z)));
    ParityAt(x, y, z, r, m, Vector(r), Vector(x), Vector(y), Vector(z));
    BitByMask(x, k, m);
    BitByMask(y, k, m);
    BitByMask(z, k, m);
    BitByMask(r, k, m);
  }

  lemma MajRaw(x: bv32, y: bv32, z: bv32, m: bv32)
    requires m & (m - 1) == 0 && m != 0
    ensures (((x & y) | (x & z) | (y & z)) & m != 0) == (((x & m != 0) && (y & m != 0)) || ((x & m != 0) && (z & m != 0)) || ((y & m != 0) && (z & m != 0)))
  {
  }

  lemma MajAt(x: word, y: word, z: word, r: word, m: bv32, v: bv32, a: bv32, b: bv32, c: bv32)
    requires Single(m) && a == Vector(x) && b == Vector(y) && c == Vector(z) && v == Vector(r) && v == MajV(a, b, c)
    ensures HasMask(r, m) == ((HasMask(x, m) && HasMask(y, m)) || (HasMask(x, m) && HasMask(z, m)) || (HasMask(y, m) && HasMask(z, m)))
  {
    hide Vector;
    MajRaw(a, b, c, m);
  }

  /** `Maj` is the majority. */
  lemma MajBits(x: word, y: word, z: word, k: nat)
    requires k < 32
    ensures BitSeqs.BitOf(Maj(x, y, z), k) == ((BitSeqs.BitOf(x, k) && BitSeqs.BitOf(y, k)) || (BitSeqs.BitOf(x, k) && BitSeqs.BitOf(z, k)) || (BitSeqs.BitOf(y, k) && BitSeqs.BitOf(z, k)))
  {
    hide MajV, BitSeqs.BitOf, HasMask, Mask, Single, Vector, Number;
    var m := TakeMask(k);
    var r := Maj(x, y, z);
    BackAgain(MajV(Vector(x), Vector(y), Vector(z)));
    MajAt(x, y, z, r, m, Vector(r), Vector(x), Vector(y), Vector(z));
    BitByMask(x, k, m);
    BitByMask(y, k, m);
    BitByMask(z, k, m);
    BitByMask(r, k, m);
  }

  // ------------------------------------------------------------ a known digest

  /** "ABCDEFGHIJKLMNOPQRSTUVWXYZabcdefghijklmnopqrstuvwxyz012", sixteen characters at a time. */
  const PART0: seq<byte> := [0x41, 0x42, 0x43, 0x44, 0x45, 0x46, 0x47, 0x48, 0x49, 0x4a, 0x4b, 0x4c, 0x4d, 0x4e, 0x4f, 0x50]
  const PART1: seq<byte> := [0x51, 0x52, 0x53, 0x54, 0x55, 0x56, 0x57, 0x58, 0x59, 0x5a, 0x61, 0x62, 0x63, 0x64, 0x65, 0x66]
  const PART2: seq<byte> := [0x67, 0x68, 0x69, 0x6a, 0x6b, 0x6c, 0x6d, 0x6e, 0x6f, 0x70, 0x71, 0x72, 0x73, 0x74, 0x75, 0x76]
  const PART3: seq<byte> := [0x77, 0x78, 0x79, 0x7a, 0x30, 0x31, 0x32]
  const MESSAGE: seq<byte> := PART0 + PART1 + PART2 + PART3

  /** The end of the block: the rest of the message, the mark, and the length in bits. */
  const LAST: seq<byte> := [0x77, 0x78, 0x79, 0x7a, 0x30, 0x31, 0x32, 0x80, 0x0, 0x0, 0x0, 0x0, 0x0, 0x0, 0x1, 0xb8]
  const BLOCK: seq<byte> := PART0 + PART1 + PART2 + LAST

  lemma BlockIs()
    ensures Padded(MESSAGE) == BLOCK && |BLOCK| == 64
  {
    FourBytes(440);
    FourBytes(0);
    assert Fill<byte>(0x80, 0, 55) == [0x80];
    assert PART3 + [0x80] + LengthBytes(55) == LAST;
    assert MESSAGE + [0x80] + LengthBytes(55) == PART0 + PART1 + PART2 + (PART3 + [0x80] + LengthBytes(55));
  }

  /** Word `t` of the schedule for the block. */
  predicate IsWord(t: nat, v: word) { |BLOCK| == 64 && W(BLOCK, t) == v }

  lemma WordIn(block: seq<byte>, part: seq<byte>, g: nat, j: nat, v: word)
    requires |block| == 64 && g < 4 && j < 4 && |part| == 16 && block[16 * g..16 * g + 16] == part
    requires v == Word(part[4 * j + 3], part[4 * j + 2], part[4 * j + 1], part[4 * j])
    ensures WordAt(block, 4 * g + j) == v
  {
    var i := 4 * g + j;
    assert forall k :: 0 <= k < 16 ==> block[16 * g + k] == part[k];
    assert block[4 * i..4 * i + 4] == [part[4 * j], part[4 * j + 1], part[4 * j + 2], part[4 * j + 3]];
  }

  lemma FirstWord(t: nat, v: word)
    requires t < 16 && |BLOCK| == 64 && WordAt(BLOCK, t) == v
    ensures IsWord(t, v)
  {
    hide WordAt;
  }

  lemma NextWord(t: nat, a: word, b: word, c: word, d: word, o: word, high: word, low: word, v: word)
    requires t >= 16 && IsWord(t - 3, a) && IsWord(t - 8, b) && IsWord(t - 14, c) && IsWord(t - 16, d)
    requires o == Xor(Xor(Xor(a, b), c), d)
    requires high == o * 2 % M32 && low == o / 0x8000_0000 && v == Or(high, low)
    ensures IsWord(t, v)
  {
    hide Xor, Or;
    BitSeqs.Powers();
    assert Power2(1) == 2;
  }

  lemma Words0()
    ensures IsWord(0, 0x4142_4344) && IsWord(1, 0x4546_4748) && IsWord(2, 0x494a_4b4c) && IsWord(3, 0x4d4e_4f50)
  {
    hide W, WordAt, IsWord;
    BlockIs();
    var part := PART0;
    assert BLOCK[0..16] == part;
    WordIn(BLOCK, part, 0, 0, 0x4142_4344);
    FirstWord(0, 0x4142_4344);
    WordIn(BLOCK, part, 0, 1, 0x4546_4748);
    FirstWord(1, 0x4546_4748);
    WordIn(BLOCK, part, 0, 2, 0x494a_4b4c);
    FirstWord(2, 0x494a_4b4c);
    WordIn(BLOCK, part, 0, 3, 0x4d4e_4f50);
    FirstWord(3, 0x4d4e_4f50);
  }

  lemma Words1()
    ensures IsWord(4, 0x5152_5354) && IsWord(5, 0x5556_5758) && IsWord(6, 0x595a_6162) && IsWord(7, 0x6364_6566)
  {
    hide W, WordAt, IsWord;
    BlockIs();
    var part := PART1;
    assert BLOCK[16..32] == part;
    WordIn(BLOCK, part, 1, 0, 0x5152_5354);
    FirstWord(4, 0x5152_5354);
    WordIn(BLOCK, part, 1, 1, 0x5556_5758);
    FirstWord(5, 0x5556_5758);
    WordIn(BLOCK, part, 1, 2, 0x595a_6162);
    FirstWord(6, 0x595a_6162);
    WordIn(BLOCK, part, 1, 3, 0x6364_6566);
    FirstWord(7, 0x6364_6566);
  }

  lemma Words2()
    ensures IsWord(8, 0x6768_696a) && IsWord(9, 0x6b6c_6d6e) && IsWord(10, 0x6f70_7172) && IsWord(11, 0x7374_7576)
  {
    hide W, WordAt, IsWord;
    BlockIs();
    var part := PART2;
    assert BLOCK[32..48] == part;
    WordIn(BLOCK, part, 2, 0, 0x6768_696a);
    FirstWord(8, 0x6768_696a);
    WordIn(BLOCK, part, 2, 1, 0x6b6c_6d6e);
    FirstWord(9, 0x6b6c_6d6e);
    WordIn(BLOCK, part, 2, 2, 0x6f70_7172);
    FirstWord(10, 0x6f70_7172);
    WordIn(BLOCK, part, 2, 3, 0x7374_7576);
    FirstWord(11, 0x7374_7576);
  }

  lemma Words3()
    ensures IsWord(12, 0x7778_797a) && IsWord(13, 0x3031_3280) && IsWord(14, 0x0000_0000) && IsWord(15, 0x0000_01b8)
  {
    hide W, WordAt, IsWord;
    BlockIs();
    var part := LAST;
    assert BLOCK[48..64] == part;
    WordIn(BLOCK, part, 3, 0, 0x7778_797a);
    FirstWord(12, 0x7778_797a);
    WordIn(BLOCK, part, 3, 1, 0x3031_3280);
    FirstWord(13, 0x3031_3280);
    WordIn(BLOCK, part, 3, 2, 0x0000_0000);
    FirstWord(14, 0x0000_0000);
    WordIn(BLOCK, part, 3, 3, 0x0000_01b8);
    FirstWord(15, 0x0000_01b8);
  }

  lemma Xors4()
    ensures Xor(0x3031_3280, 0x6768_696a) == 0x5759_5bea && Xor(0x5759_5bea, 0x494a_4b4c) == 0x1e13_10a6
    ensures Xor(0x1e13_10a6, 0x4142_4344) == 0x5f51_53e2 && Or(0xbea2_a7c4, 0x0000_0000) == 0xbea2_a7c4
    ensures Xor(0x0000_0000, 0x6b6c_6d6e) == 0x6b6c_6d6e && Xor(0x6b6c_6d6e, 0x4d4e_4f50) == 0x2622_223e
    ensures Xor(0x2622_223e, 0x4546_4748) == 0x6364_6576 && Or(0xc6c8_caec, 0x0000_0000) == 0xc6c8_caec
  {
  }

  lemma MoreXors4()
    ensures Xor(0x0000_01b8, 0x6f70_7172) == 0x6f70_70ca && Xor(0x6f70_70ca, 0x5152_5354) == 0x3e22_239e
    ensures Xor(0x3e22_239e, 0x494a_4b4c) == 0x7768_68d2 && Or(0xeed0_d1a4, 0x0000_0000) == 0xeed0_d1a4
    ensures Xor(0xbea2_a7c4, 0x7374_7576) == 0xcdd6_d2b2 && Xor(0xcdd6_d2b2, 0x5556_5758) == 0x9880_85ea
    ensures Xor(0x9880_85ea, 0x4d4e_4f50) == 0xd5ce_caba && Or(0xab9d_9574, 0x0000_0001) == 0xab9d_9575
  {
  }

  lemma Words4()
    ensures IsWord(16, 0xbea2_a7c4) && IsWord(17, 0xc6c8_caec) && IsWord(18, 0xeed0_d1a4) && IsWord(19, 0xab9d_9575)
  {
    hide IsWord, Xor, Or;
    Words0();
    Words1();
    Words2();
    Words3();
    Xors4();
    MoreXors4();
    NextWord(16, 0x3031_3280, 0x6768_696a, 0x494a_4b4c, 0x4142_4344, 0x5f51_53e2, 0xbea2_a7c4, 0x0000_0000, 0xbea2_a7c4);
    NextWord(17, 0x0000_0000, 0x6b6c_6d6e, 0x4d4e_4f50, 0x4546_4748, 0x6364_6576, 0xc6c8_caec, 0x0000_0000, 0xc6c8_caec);
    NextWord(18, 0x0000_01b8, 0x6f70_7172, 0x5152_5354, 0x494a_4b4c, 0x7768_68d2, 0xeed0_d1a4, 0x0000_0000, 0xeed0_d1a4);
    NextWord(19, 0xbea2_a7c4, 0x7374_7576, 0x5556_5758, 0x4d4e_4f50, 0xd5ce_caba, 0xab9d_9574, 0x0000_0001, 0xab9d_9575);
  }

  lemma Xors5()
    ensures Xor(0xc6c8_caec, 0x7778_797a) == 0xb1b0_b396 && Xor(0xb1b0_b396, 0x595a_6162) == 0xe8ea_d2f4
    ensures Xor(0xe8ea_d2f4, 0x5152_5354) == 0xb9b8_81a0 && Or(0x7371_0340, 0x0000_0001) == 0x7371_0341
    ensures Xor(0xeed0_d1a4, 0x3031_3280) == 0xdee1_e324 && Xor(0xdee1_e324, 0x6364_6566) == 0xbd85_8642
    ensures Xor(0xbd85_8642, 0x5556_5758) == 0xe8d3_d11a && Or(0xd1a7_a234, 0x0000_0001) == 0xd1a7_a235
    ensures Xor(0xab9d_9575, 0x0000_0000) == 0xab9d_9575 && Xor(0xab9d_9575, 0x6768_696a) == 0xccf5_fc1f
    ensures Xor(0xccf5_fc1f, 0x595a_6162) == 0x95af_9d7d && Or(0x2b5f_3afa, 0x0000_0001) == 0x2b5f_3afb
    ensures Xor(0x7371_0341, 0x0000_01b8) == 0x7371_02f9 && Xor(0x7371_02f9, 0x6b6c_6d6e) == 0x181d_6f97
    ensures Xor(0x181d_6f97, 0x6364_6566) == 0x7b79_0af1 && Or(0xf6f2_15e2, 0x0000_0000) == 0xf6f2_15e2
  {
  }

  lemma Words5()
    ensures IsWord(20, 0x7371_0341) && IsWord(21, 0xd1a7_a235) && IsWord(22, 0x2b5f_3afb) && IsWord(23, 0xf6f2_15e2)
  {
    hide IsWord, Xor, Or;
    Words1();
    Words2();
    Words3();
    Words4();
    Xors5();
    NextWord(20, 0xc6c8_caec, 0x7778_797a, 0x595a_6162, 0x5152_5354, 0xb9b8_81a0, 0x7371_0340, 0x0000_0001, 0x7371_0341);
    NextWord(21, 0xeed0_d1a4, 0x3031_3280, 0x6364_6566, 0x5556_5758, 0xe8d3_d11a, 0xd1a7_a234, 0x0000_0001, 0xd1a7_a235);
    NextWord(22, 0xab9d_9575, 0x0000_0000, 0x6768_696a, 0x595a_6162, 0x95af_9d7d, 0x2b5f_3afa, 0x0000_0001, 0x2b5f_3afb);
    NextWord(23, 0x7371_0341, 0x0000_01b8, 0x6b6c_6d6e, 0x6364_6566, 0x7b79_0af1, 0xf6f2_15e2, 0x0000_0000, 0xf6f2_15e2);
  }

  lemma Xors6()
    ensures Xor(0xd1a7_a235, 0xbea2_a7c4) == 0x6f05_05f1 && Xor(0x6f05_05f1, 0x6f70_7172) == 0x0075_7483
    ensures Xor(0x0075_7483, 0x6768_696a) == 0x671d_1de9 && Or(0xce3a_3bd2, 0x0000_0000) == 0xce3a_3bd2
    ensures Xor(0x2b5f_3afb, 0xc6c8_caec) == 0xed97_f017 && Xor(0xed97_f017, 0x7374_7576) == 0x9ee3_8561
    ensures Xor(0x9ee3_8561, 0x6b6c_6d6e) == 0xf58f_e80f && Or(0xeb1f_d01e, 0x0000_0001) == 0xeb1f_d01f
    ensures Xor(0xf6f2_15e2, 0xeed0_d1a4) == 0x1822_c446 && Xor(0x1822_c446, 0x7778_797a) == 0x6f5a_bd3c
    ensures Xor(0x6f5a_bd3c, 0x6f70_7172) == 0x002a_cc4e && Or(0x0055_989c, 0x0000_0000) == 0x0055_989c
    ensures Xor(0xce3a_3bd2, 0xab9d_9575) == 0x65a7_aea7 && Xor(0x65a7_aea7, 0x3031_3280) == 0x5596_9c27
    ensures Xor(0x5596_9c27, 0x7374_7576) == 0x26e2_e951 && Or(0x4dc5_d2a2, 0x0000_0000) == 0x4dc5_d2a2
  {
  }

  lemma Words6()
    ensures IsWord(24, 0xce3a_3bd2) && IsWord(25, 0xeb1f_d01f) && IsWord(26, 0x0055_989c) && IsWord(27, 0x4dc5_d2a2)
  {
    hide IsWord, Xor, Or;
    Words2();
    Words3();
    Words4();
    Words5();
    Xors6();
    NextWord(24, 0xd1a7_a235, 0xbea2_a7c4, 0x6f70_7172, 0x6768_696a, 0x671d_1de9, 0xce3a_3bd2, 0x0000_0000, 0xce3a_3bd2);
    NextWord(25, 0x2b5f_3afb, 0xc6c8_caec, 0x7374_7576, 0x6b6c_6d6e, 0xf58f_e80f, 0xeb1f_d01e, 0x0000_0001, 0xeb1f_d01f);
    NextWord(26, 0xf6f2_15e2, 0xeed0_d1a4, 0x7778_797a, 0x6f70_7172, 0x002a_cc4e, 0x0055_989c, 0x0000_0000, 0x0055_989c);
    NextWord(27, 0xce3a_3bd2, 0xab9d_9575, 0x3031_3280, 0x7374_7576, 0x26e2_e951, 0x4dc5_d2a2, 0x0000_0000, 0x4dc5_d2a2);
  }

  lemma Xors7()
    ensures Xor(0xeb1f_d01f, 0x7371_0341) == 0x986e_d35e && Xor(0x986e_d35e, 0x0000_0000) == 0x986e_d35e
    ensures Xor(0x986e_d35e, 0x7778_797a) == 0xef16_aa24 && Or(0xde2d_5448, 0x0000_0001) == 0xde2d_5449
    ensures Xor(0x0055_989c, 0xd1a7_a235) == 0xd1f2_3aa9 && Xor(0xd1f2_3aa9, 0x0000_01b8) == 0xd1f2_3b11
    ensures Xor(0xd1f2_3b11, 0x3031_3280) == 0xe1c3_0991 && Or(0xc386_1322, 0x0000_0001) == 0xc386_1323
    ensures Xor(0x4dc5_d2a2, 0x2b5f_3afb) == 0x669a_e859 && Xor(0x669a_e859, 0xbea2_a7c4) == 0xd838_4f9d
    ensures Xor(0xd838_4f9d, 0x0000_0000) == 0xd838_4f9d && Or(0xb070_9f3a, 0x0000_0001) == 0xb070_9f3b
    ensures Xor(0xde2d_5449, 0xf6f2_15e2) == 0x28df_41ab && Xor(0x28df_41ab, 0xc6c8_caec) == 0xee17_8b47
    ensures Xor(0xee17_8b47, 0x0000_01b8) == 0xee17_8aff && Or(0xdc2f_15fe, 0x0000_0001) == 0xdc2f_15ff
  {
  }

  lemma Words7()
    ensures IsWord(28, 0xde2d_5449) && IsWord(29, 0xc386_1323) && IsWord(30, 0xb070_9f3b) && IsWord(31, 0xdc2f_15ff)
  {
    hide IsWord, Xor, Or;
    Words3();
    Words4();
    Words5();
    Words6();
    Xors7();
    NextWord(28, 0xeb1f_d01f, 0x7371_0341, 0x0000_0000, 0x7778_797a, 0xef16_aa24, 0xde2d_5448, 0x0000_0001, 0xde2d_5449);
    NextWord(29, 0x0055_989c, 0xd1a7_a235, 0x0000_01b8, 0x3031_3280, 0xe1c3_0991, 0xc386_1322, 0x0000_0001, 0xc386_1323);
    NextWord(30, 0x4dc5_d2a2, 0x2b5f_3afb, 0xbea2_a7c4, 0x0000_0000, 0xd838_4f9d, 0xb070_9f3a, 0x0000_0001, 0xb070_9f3b);
    NextWord(31, 0xde2d_5449, 0xf6f2_15e2, 0xc6c8_caec, 0x0000_01b8, 0xee17_8aff, 0xdc2f_15fe, 0x0000_0001, 0xdc2f_15ff);
  }

  lemma Xors8()
    ensures Xor(0xc386_1323, 0xce3a_3bd2) == 0x0dbc_28f1 && Xor(0x0dbc_28f1, 0xeed0_d1a4) == 0xe36c_f955
    ensures Xor(0xe36c_f955, 0xbea2_a7c4) == 0x5dce_5e91 && Or(0xbb9c_bd22, 0x0000_0000) == 0xbb9c_bd22
    ensures Xor(0xb070_9f3b, 0xeb1f_d01f) == 0x5b6f_4f24 && Xor(0x5b6f_4f24, 0xab9d_9575) == 0xf0f2_da51
    ensures Xor(0xf0f2_da51, 0xc6c8_caec) == 0x363a_10bd && Or(0x6c74_217a, 0x0000_0000) == 0x6c74_217a
  {
  }

  lemma MoreXors8()
    ensures Xor(0xdc2f_15ff, 0x0055_989c) == 0xdc7a_8d63 && Xor(0xdc7a_8d63, 0x7371_0341) == 0xaf0b_8e22
    ensures Xor(0xaf0b_8e22, 0xeed0_d1a4) == 0x41db_5f86 && Or(0x83b6_bf0c, 0x0000_0000) == 0x83b6_bf0c
    ensures Xor(0xbb9c_bd22, 0x4dc5_d2a2) == 0xf659_6f80 && Xor(0xf659_6f80, 0xd1a7_a235) == 0x27fe_cdb5
    ensures Xor(0x27fe_cdb5, 0xab9d_9575) == 0x8c63_58c0 && Or(0x18c6_b180, 0x0000_0001) == 0x18c6_b181
  {
  }

  lemma Words8()
    ensures IsWord(32, 0xbb9c_bd22) && IsWord(33, 0x6c74_217a) && IsWord(34, 0x83b6_bf0c) && IsWord(35, 0x18c6_b181)
  {
    hide IsWord, Xor, Or;
    Words4();
    Words5();
    Words6();
    Words7();
    Xors8();
    MoreXors8();
    NextWord(32, 0xc386_1323, 0xce3a_3bd2, 0xeed0_d1a4, 0xbea2_a7c4, 0x5dce_5e91, 0xbb9c_bd22, 0x0000_0000, 0xbb9c_bd22);
    NextWord(33, 0xb070_9f3b, 0xeb1f_d01f, 0xab9d_9575, 0xc6c8_caec, 0x363a_10bd, 0x6c74_217a, 0x0000_0000, 0x6c74_217a);
    NextWord(34, 0xdc2f_15ff, 0x0055_989c, 0x7371_0341, 0xeed0_d1a4, 0x41db_5f86, 0x83b6_bf0c, 0x0000_0000, 0x83b6_bf0c);
    NextWord(35, 0xbb9c_bd22, 0x4dc5_d2a2, 0xd1a7_a235, 0xab9d_9575, 0x8c63_58c0, 0x18c6_b180, 0x0000_0001, 0x18c6_b181);
  }

  lemma Xors9()
    ensures Xor(0x6c74_217a, 0xde2d_5449) == 0xb259_7533 && Xor(0xb259_7533, 0x2b5f_3afb) == 0x9906_4fc8
    ensures Xor(0x9906_4fc8, 0x7371_0341) == 0xea77_4c89 && Or(0xd4ee_9912, 0x0000_0001) == 0xd4ee_9913
    ensures Xor(0x83b6_bf0c, 0xc386_1323) == 0x4030_ac2f && Xor(0x4030_ac2f, 0xf6f2_15e2) == 0xb6c2_b9cd
    ensures Xor(0xb6c2_b9cd, 0xd1a7_a235) == 0x6765_1bf8 && Or(0xceca_37f0, 0x0000_0000) == 0xceca_37f0
    ensures Xor(0x18c6_b181, 0xb070_9f3b) == 0xa8b6_2eba && Xor(0xa8b6_2eba, 0xce3a_3bd2) == 0x668c_1568
    ensures Xor(0x668c_1568, 0x2b5f_3afb) == 0x4dd3_2f93 && Or(0x9ba6_5f26, 0x0000_0000) == 0x9ba6_5f26
    ensures Xor(0xd4ee_9913, 0xdc2f_15ff) == 0x08c1_8cec && Xor(0x08c1_8cec, 0xeb1f_d01f) == 0xe3de_5cf3
    ensures Xor(0xe3de_5cf3, 0xf6f2_15e2) == 0x152c_4911 && Or(0x2a58_9222, 0x0000_0000) == 0x2a58_9222
  {
  }

  lemma Words9()
    ensures IsWord(36, 0xd4ee_9913) && IsWord(37, 0xceca_37f0) && IsWord(38, 0x9ba6_5f26) && IsWord(39, 0x2a58_9222)
  {
    hide IsWord, Xor, Or;
    Words5();
    Words6();
    Words7();
    Words8();
    Xors9();
    NextWord(36, 0x6c74_217a, 0xde2d_5449, 0x2b5f_3afb, 0x7371_0341, 0xea77_4c89, 0xd4ee_9912, 0x0000_0001, 0xd4ee_9913);
    NextWord(37, 0x83b6_bf0c, 0xc386_1323, 0xf6f2_15e2, 0xd1a7_a235, 0x6765_1bf8, 0xceca_37f0, 0x0000_0000, 0xceca_37f0);
    NextWord(38, 0x18c6_b181, 0xb070_9f3b, 0xce3a_3bd2, 0x2b5f_3afb, 0x4dd3_2f93, 0x9ba6_5f26, 0x0000_0000, 0x9ba6_5f26);
    NextWord(39, 0xd4ee_9913, 0xdc2f_15ff, 0xeb1f_d01f, 0xf6f2_15e2, 0x152c_4911, 0x2a58_9222, 0x0000_0000, 0x2a58_9222);
  }

  lemma Xors10()
    ensures Xor(0xceca_37f0, 0xbb9c_bd22) == 0x7556_8ad2 && Xor(0x7556_8ad2, 0x0055_989c) == 0x7503_124e
    ensures Xor(0x7503_124e, 0xce3a_3bd2) == 0xbb39_299c && Or(0x7672_5338, 0x0000_0001) == 0x7672_5339
    ensures Xor(0x9ba6_5f26, 0x6c74_217a) == 0xf7d2_7e5c && Xor(0xf7d2_7e5c, 0x4dc5_d2a2) == 0xba17_acfe
    ensures Xor(0xba17_acfe, 0xeb1f_d01f) == 0x5108_7ce1 && Or(0xa210_f9c2, 0x0000_0000) == 0xa210_f9c2
    ensures Xor(0x2a58_9222, 0x83b6_bf0c) == 0xa9ee_2d2e && Xor(0xa9ee_2d2e, 0xde2d_5449) == 0x77c3_7967
    ensures Xor(0x77c3_7967, 0x0055_989c) == 0x7796_e1fb && Or(0xef2d_c3f6, 0x0000_0000) == 0xef2d_c3f6
    ensures Xor(0x7672_5339, 0x18c6_b181) == 0x6eb4_e2b8 && Xor(0x6eb4_e2b8, 0xc386_1323) == 0xad32_f19b
    ensures Xor(0xad32_f19b, 0x4dc5_d2a2) == 0xe0f7_2339 && Or(0xc1ee_4672, 0x0000_0001) == 0xc1ee_4673
  {
  }

  lemma Words10()
    ensures IsWord(40, 0x7672_5339) && IsWord(41, 0xa210_f9c2) && IsWord(42, 0xef2d_c3f6) && IsWord(43, 0xc1ee_4673)
  {
    hide IsWord, Xor, Or;
    Words6();
    Words7();
    Words8();
    Words9();
    Xors10();
    NextWord(40, 0xceca_37f0, 0xbb9c_bd22, 0x0055_989c, 0xce3a_3bd2, 0xbb39_299c, 0x7672_5338, 0x0000_0001, 0x7672_5339);
    NextWord(41, 0x9ba6_5f26, 0x6c74_217a, 0x4dc5_d2a2, 0xeb1f_d01f, 0x5108_7ce1, 0xa210_f9c2, 0x0000_0000, 0xa210_f9c2);
    NextWord(42, 0x2a58_9222, 0x83b6_bf0c, 0xde2d_5449, 0x0055_989c, 0x7796_e1fb, 0xef2d_c3f6, 0x0000_0000, 0xef2d_c3f6);
    NextWord(43, 0x7672_5339, 0x18c6_b181, 0xc386_1323, 0x4dc5_d2a2, 0xe0f7_2339, 0xc1ee_4672, 0x0000_0001, 0xc1ee_4673);
  }

  lemma Xors11()
    ensures Xor(0xa210_f9c2, 0xd4ee_9913) == 0x76fe_60d1 && Xor(0x76fe_60d1, 0xb070_9f3b) == 0xc68e_ffea
    ensures Xor(0xc68e_ffea, 0xde2d_5449) == 0x18a3_aba3 && Or(0x3147_5746, 0x0000_0000) == 0x3147_5746
    ensures Xor(0xef2d_c3f6, 0xceca_37f0) == 0x21e7_f406 && Xor(0x21e7_f406, 0xdc2f_15ff) == 0xfdc8_e1f9
    ensures Xor(0xfdc8_e1f9, 0xc386_1323) == 0x3e4e_f2da && Or(0x7c9d_e5b4, 0x0000_0000) == 0x7c9d_e5b4
  {
  }

  lemma MoreXors11()
    ensures Xor(0xc1ee_4673, 0x9ba6_5f26) == 0x5a48_1955 && Xor(0x5a48_1955, 0xbb9c_bd22) == 0xe1d4_a477
    ensures Xor(0xe1d4_a477, 0xb070_9f3b) == 0x51a4_3b4c && Or(0xa348_7698, 0x0000_0000) == 0xa348_7698
    ensures Xor(0x3147_5746, 0x2a58_9222) == 0x1b1f_c564 && Xor(0x1b1f_c564, 0x6c74_217a) == 0x776b_e41e
    ensures Xor(0x776b_e41e, 0xdc2f_15ff) == 0xab44_f1e1 && Or(0x5689_e3c2, 0x0000_0001) == 0x5689_e3c3
  {
  }

  lemma Words11()
    ensures IsWord(44, 0x3147_5746) && IsWord(45, 0x7c9d_e5b4) && IsWord(46, 0xa348_7698) && IsWord(47, 0x5689_e3c3)
  {
    hide IsWord, Xor, Or;
    Words7();
    Words8();
    Words9();
    Words10();
    Xors11();
    MoreXors11();
    NextWord(44, 0xa210_f9c2, 0xd4ee_9913, 0xb070_9f3b, 0xde2d_5449, 0x18a3_aba3, 0x3147_5746, 0x0000_0000, 0x3147_5746);
    NextWord(45, 0xef2d_c3f6, 0xceca_37f0, 0xdc2f_15ff, 0xc386_1323, 0x3e4e_f2da, 0x7c9d_e5b4, 0x0000_0000, 0x7c9d_e5b4);
    NextWord(46, 0xc1ee_4673, 0x9ba6_5f26, 0xbb9c_bd22, 0xb070_9f3b, 0x51a4_3b4c, 0xa348_7698, 0x0000_0000, 0xa348_7698);
    NextWord(47, 0x3147_5746, 0x2a58_9222, 0x6c74_217a, 0xdc2f_15ff, 0xab44_f1e1, 0x5689_e3c2, 0x0000_0001, 0x5689_e3c3);
  }

  lemma Xors12()
    ensures Xor(0x7c9d_e5b4, 0x7672_5339) == 0x0aef_b68d && Xor(0x0aef_b68d, 0x83b6_bf0c) == 0x8959_0981
    ensures Xor(0x8959_0981, 0xbb9c_bd22) == 0x32c5_b4a3 && Or(0x658b_6946, 0x0000_0000) == 0x658b_6946
    ensures Xor(0xa348_7698, 0xa210_f9c2) == 0x0158_8f5a && Xor(0x0158_8f5a, 0x18c6_b181) == 0x199e_3edb
    ensures Xor(0x199e_3edb, 0x6c74_217a) == 0x75ea_1fa1 && Or(0xebd4_3f42, 0x0000_0000) == 0xebd4_3f42
    ensures Xor(0x5689_e3c3, 0xef2d_c3f6) == 0xb9a4_2035 && Xor(0xb9a4_2035, 0xd4ee_9913) == 0x6d4a_b926
    ensures Xor(0x6d4a_b926, 0x83b6_bf0c) == 0xeefc_062a && Or(0xddf8_0c54, 0x0000_0001) == 0xddf8_0c55
    ensures Xor(0x658b_6946, 0xc1ee_4673) == 0xa465_2f35 && Xor(0xa465_2f35, 0xceca_37f0) == 0x6aaf_18c5
    ensures Xor(0x6aaf_18c5, 0x18c6_b181) == 0x7269_a944 && Or(0xe4d3_5288, 0x0000_0000) == 0xe4d3_5288
  {
  }

  lemma Words12()
    ensures IsWord(48, 0x658b_6946) && IsWord(49, 0xebd4_3f42) && IsWord(50, 0xddf8_0c55) && IsWord(51, 0xe4d3_5288)
  {
    hide IsWord, Xor, Or;
    Words8();
    Words9();
    Words10();
    Words11();
    Xors12();
    NextWord(48, 0x7c9d_e5b4, 0x7672_5339, 0x83b6_bf0c, 0xbb9c_bd22, 0x32c5_b4a3, 0x658b_6946, 0x0000_0000, 0x658b_6946);
    NextWord(49, 0xa348_7698, 0xa210_f9c2, 0x18c6_b181, 0x6c74_217a, 0x75ea_1fa1, 0xebd4_3f42, 0x0000_0000, 0xebd4_3f42);
    NextWord(50, 0x5689_e3c3, 0xef2d_c3f6, 0xd4ee_9913, 0x83b6_bf0c, 0xeefc_062a, 0xddf8_0c54, 0x0000_0001, 0xddf8_0c55);
    NextWord(51, 0x658b_6946, 0xc1ee_4673, 0xceca_37f0, 0x18c6_b181, 0x7269_a944, 0xe4d3_5288, 0x0000_0000, 0xe4d3_5288);
  }

  lemma Xors13()
    ensures Xor(0xebd4_3f42, 0x3147_5746) == 0xda93_6804 && Xor(0xda93_6804, 0x9ba6_5f26) == 0x4135_3722
    ensures Xor(0x4135_3722, 0xd4ee_9913) == 0x95db_ae31 && Or(0x2bb7_5c62, 0x0000_0001) == 0x2bb7_5c63
    ensures Xor(0xddf8_0c55, 0x7c9d_e5b4) == 0xa165_e9e1 && Xor(0xa165_e9e1, 0x2a58_9222) == 0x8b3d_7bc3
    ensures Xor(0x8b3d_7bc3, 0xceca_37f0) == 0x45f7_4c33 && Or(0x8bee_9866, 0x0000_0000) == 0x8bee_9866
    ensures Xor(0xe4d3_5288, 0xa348_7698) == 0x479b_2410 && Xor(0x479b_2410, 0x7672_5339) == 0x31e9_7729
    ensures Xor(0x31e9_7729, 0x9ba6_5f26) == 0xaa4f_280f && Or(0x549e_501e, 0x0000_0001) == 0x549e_501f
    ensures Xor(0x2bb7_5c63, 0x5689_e3c3) == 0x7d3e_bfa0 && Xor(0x7d3e_bfa0, 0xa210_f9c2) == 0xdf2e_4662
    ensures Xor(0xdf2e_4662, 0x2a58_9222) == 0xf576_d440 && Or(0xeaed_a880, 0x0000_0001) == 0xeaed_a881
  {
  }

  lemma Words13()
    ensures IsWord(52, 0x2bb7_5c63) && IsWord(53, 0x8bee_9866) && IsWord(54, 0x549e_501f) && IsWord(55, 0xeaed_a881)
  {
    hide IsWord, Xor, Or;
    Words9();
    Words10();
    Words11();
    Words12();
    Xors13();
    NextWord(52, 0xebd4_3f42, 0x3147_5746, 0x9ba6_5f26, 0xd4ee_9913, 0x95db_ae31, 0x2bb7_5c62, 0x0000_0001, 0x2bb7_5c63);
    NextWord(53, 0xddf8_0c55, 0x7c9d_e5b4, 0x2a58_9222, 0xceca_37f0, 0x45f7_4c33, 0x8bee_9866, 0x0000_0000, 0x8bee_9866);
    NextWord(54, 0xe4d3_5288, 0xa348_7698, 0x7672_5339, 0x9ba6_5f26, 0xaa4f_280f, 0x549e_501e, 0x0000_0001, 0x549e_501f);
    NextWord(55, 0x2bb7_5c63, 0x5689_e3c3, 0xa210_f9c2, 0x2a58_9222, 0xf576_d440, 0xeaed_a880, 0x0000_0001, 0xeaed_a881);
  }

  lemma Xors14()
    ensures Xor(0x8bee_9866, 0x658b_6946) == 0xee65_f120 && Xor(0xee65_f120, 0xef2d_c3f6) == 0x0148_32d6
    ensures Xor(0x0148_32d6, 0x7672_5339) == 0x773a_61ef && Or(0xee74_c3de, 0x0000_0000) == 0xee74_c3de
    ensures Xor(0x549e_501f, 0xebd4_3f42) == 0xbf4a_6f5d && Xor(0xbf4a_6f5d, 0xc1ee_4673) == 0x7ea4_292e
    ensures Xor(0x7ea4_292e, 0xa210_f9c2) == 0xdcb4_d0ec && Or(0xb969_a1d8, 0x0000_0001) == 0xb969_a1d9
    ensures Xor(0xeaed_a881, 0xddf8_0c55) == 0x3715_a4d4 && Xor(0x3715_a4d4, 0x3147_5746) == 0x0652_f392
    ensures Xor(0x0652_f392, 0xef2d_c3f6) == 0xe97f_3064 && Or(0xd2fe_60c8, 0x0000_0001) == 0xd2fe_60c9
    ensures Xor(0xee74_c3de, 0xe4d3_5288) == 0x0aa7_9156 && Xor(0x0aa7_9156, 0x7c9d_e5b4) == 0x763a_74e2
    ensures Xor(0x763a_74e2, 0xc1ee_4673) == 0xb7d4_3291 && Or(0x6fa8_6522, 0x0000_0001) == 0x6fa8_6523
  {
  }

  lemma Words14()
    ensures IsWord(56, 0xee74_c3de) && IsWord(57, 0xb969_a1d9) && IsWord(58, 0xd2fe_60c9) && IsWord(59, 0x6fa8_6523)
  {
    hide IsWord, Xor, Or;
    Words10();
    Words11();
    Words12();
    Words13();
    Xors14();
    NextWord(56, 0x8bee_9866, 0x658b_6946, 0xef2d_c3f6, 0x7672_5339, 0x773a_61ef, 0xee74_c3de, 0x0000_0000, 0xee74_c3de);
    NextWord(57, 0x549e_501f, 0xebd4_3f42, 0xc1ee_4673, 0xa210_f9c2, 0xdcb4_d0ec, 0xb969_a1d8, 0x0000_0001, 0xb969_a1d9);
    NextWord(58, 0xeaed_a881, 0xddf8_0c55, 0x3147_5746, 0xef2d_c3f6, 0xe97f_3064, 0xd2fe_60c8, 0x0000_0001, 0xd2fe_60c9);
    NextWord(59, 0xee74_c3de, 0xe4d3_5288, 0x7c9d_e5b4, 0xc1ee_4673, 0xb7d4_3291, 0x6fa8_6522, 0x0000_0001, 0x6fa8_6523);
  }

  lemma Xors15()
    ensures Xor(0xb969_a1d9, 0x2bb7_5c63) == 0x92de_fdba && Xor(0x92de_fdba, 0xa348_7698) == 0x3196_8b22
    ensures Xor(0x3196_8b22, 0x3147_5746) == 0x00d1_dc64 && Or(0x01a3_b8c8, 0x0000_0000) == 0x01a3_b8c8
    ensures Xor(0xd2fe_60c9, 0x8bee_9866) == 0x5910_f8af && Xor(0x5910_f8af, 0x5689_e3c3) == 0x0f99_1b6c
    ensures Xor(0x0f99_1b6c, 0x7c9d_e5b4) == 0x7304_fed8 && Or(0xe609_fdb0, 0x0000_0000) == 0xe609_fdb0
    ensures Xor(0x6fa8_6523, 0x549e_501f) == 0x3b36_353c && Xor(0x3b36_353c, 0x658b_6946) == 0x5ebd_5c7a
    ensures Xor(0x5ebd_5c7a, 0xa348_7698) == 0xfdf5_2ae2 && Or(0xfbea_55c4, 0x0000_0001) == 0xfbea_55c5
    ensures Xor(0x01a3_b8c8, 0xeaed_a881) == 0xeb4e_1049 && Xor(0xeb4e_1049, 0xebd4_3f42) == 0x009a_2f0b
    ensures Xor(0x009a_2f0b, 0x5689_e3c3) == 0x5613_ccc8 && Or(0xac27_9990, 0x0000_0000) == 0xac27_9990
  {
  }

  lemma Words15()
    ensures IsWord(60, 0x01a3_b8c8) && IsWord(61, 0xe609_fdb0) && IsWord(62, 0xfbea_55c5) && IsWord(63, 0xac27_9990)
  {
    hide IsWord, Xor, Or;
    Words11();
    Words12();
    Words13();
    Words14();
    Xors15();
    NextWord(60, 0xb969_a1d9, 0x2bb7_5c63, 0xa348_7698, 0x3147_5746, 0x00d1_dc64, 0x01a3_b8c8, 0x0000_0000, 0x01a3_b8c8);
    NextWord(61, 0xd2fe_60c9, 0x8bee_9866, 0x5689_e3c3, 0x7c9d_e5b4, 0x7304_fed8, 0xe609_fdb0, 0x0000_0000, 0xe609_fdb0);
    NextWord(62, 0x6fa8_6523, 0x549e_501f, 0x658b_6946, 0xa348_7698, 0xfdf5_2ae2, 0xfbea_55c4, 0x0000_0001, 0xfbea_55c5);
    NextWord(63, 0x01a3_b8c8, 0xeaed_a881, 0xebd4_3f42, 0x5689_e3c3, 0x5613_ccc8, 0xac27_9990, 0x0000_0000, 0xac27_9990);
  }

  lemma Xors16()
    ensures Xor(0xe609_fdb0, 0xee74_c3de) == 0x087d_3e6e && Xor(0x087d_3e6e, 0xddf8_0c55) == 0xd585_323b
    ensures Xor(0xd585_323b, 0x658b_6946) == 0xb00e_5b7d && Or(0x601c_b6fa, 0x0000_0001) == 0x601c_b6fb
    ensures Xor(0xfbea_55c5, 0xb969_a1d9) == 0x4283_f41c && Xor(0x4283_f41c, 0xe4d3_5288) == 0xa650_a694
    ensures Xor(0xa650_a694, 0xebd4_3f42) == 0x4d84_99d6 && Or(0x9b09_33ac, 0x0000_0000) == 0x9b09_33ac
    ensures Xor(0xac27_9990, 0xd2fe_60c9) == 0x7ed9_f959 && Xor(0x7ed9_f959, 0x2bb7_5c63) == 0x556e_a53a
    ensures Xor(0x556e_a53a, 0xddf8_0c55) == 0x8896_a96f && Or(0x112d_52de, 0x0000_0001) == 0x112d_52df
    ensures Xor(0x601c_b6fb, 0x6fa8_6523) == 0x0fb4_d3d8 && Xor(0x0fb4_d3d8, 0x8bee_9866) == 0x845a_4bbe
    ensures Xor(0x845a_4bbe, 0xe4d3_5288) == 0x6089_1936 && Or(0xc112_326c, 0x0000_0000) == 0xc112_326c
  {
  }

  lemma Words16()
    ensures IsWord(64, 0x601c_b6fb) && IsWord(65, 0x9b09_33ac) && IsWord(66, 0x112d_52df) && IsWord(67, 0xc112_326c)
  {
    hide IsWord, Xor, Or;
    Words12();
    Words13();
    Words14();
    Words15();
    Xors16();
    NextWord(64, 0xe609_fdb0, 0xee74_c3de, 0xddf8_0c55, 0x658b_6946, 0xb00e_5b7d, 0x601c_b6fa, 0x0000_0001, 0x601c_b6fb);
    NextWord(65, 0xfbea_55c5, 0xb969_a1d9, 0xe4d3_5288, 0xebd4_3f42, 0x4d84_99d6, 0x9b09_33ac, 0x0000_0000, 0x9b09_33ac);
    NextWord(66, 0xac27_9990, 0xd2fe_60c9, 0x2bb7_5c63, 0xddf8_0c55, 0x8896_a96f, 0x112d_52de, 0x0000_0001, 0x112d_52df);
    NextWord(67, 0x601c_b6fb, 0x6fa8_6523, 0x8bee_9866, 0xe4d3_5288, 0x6089_1936, 0xc112_326c, 0x0000_0000, 0xc112_326c);
  }

  lemma Xors17()
    ensures Xor(0x9b09_33ac, 0x01a3_b8c8) == 0x9aaa_8b64 && Xor(0x9aaa_8b64, 0x549e_501f) == 0xce34_db7b
    ensures Xor(0xce34_db7b, 0x2bb7_5c63) == 0xe583_8718 && Or(0xcb07_0e30, 0x0000_0001) == 0xcb07_0e31
    ensures Xor(0x112d_52df, 0xe609_fdb0) == 0xf724_af6f && Xor(0xf724_af6f, 0xeaed_a881) == 0x1dc9_07ee
    ensures Xor(0x1dc9_07ee, 0x8bee_9866) == 0x9627_9f88 && Or(0x2c4f_3f10, 0x0000_0001) == 0x2c4f_3f11
    ensures Xor(0xc112_326c, 0xfbea_55c5) == 0x3af8_67a9 && Xor(0x3af8_67a9, 0xee74_c3de) == 0xd48c_a477
    ensures Xor(0xd48c_a477, 0x549e_501f) == 0x8012_f468 && Or(0x0025_e8d0, 0x0000_0001) == 0x0025_e8d1
    ensures Xor(0xcb07_0e31, 0xac27_9990) == 0x6720_97a1 && Xor(0x6720_97a1, 0xb969_a1d9) == 0xde49_3678
    ensures Xor(0xde49_3678, 0xeaed_a881) == 0x34a4_9ef9 && Or(0x6949_3df2, 0x0000_0000) == 0x6949_3df2
  {
  }

  lemma Words17()
    ensures IsWord(68, 0xcb07_0e31) && IsWord(69, 0x2c4f_3f11) && IsWord(70, 0x0025_e8d1) && IsWord(71, 0x6949_3df2)
  {
    hide IsWord, Xor, Or;
    Words13();
    Words14();
    Words15();
    Words16();
    Xors17();
    NextWord(68, 0x9b09_33ac, 0x01a3_b8c8, 0x549e_501f, 0x2bb7_5c63, 0xe583_8718, 0xcb07_0e30, 0x0000_0001, 0xcb07_0e31);
    NextWord(69, 0x112d_52df, 0xe609_fdb0, 0xeaed_a881, 0x8bee_9866, 0x9627_9f88, 0x2c4f_3f10, 0x0000_0001, 0x2c4f_3f11);
    NextWord(70, 0xc112_326c, 0xfbea_55c5, 0xee74_c3de, 0x549e_501f, 0x8012_f468, 0x0025_e8d0, 0x0000_0001, 0x0025_e8d1);
    NextWord(71, 0xcb07_0e31, 0xac27_9990, 0xb969_a1d9, 0xeaed_a881, 0x34a4_9ef9, 0x6949_3df2, 0x0000_0000, 0x6949_3df2);
  }

  lemma Xors18()
    ensures Xor(0x2c4f_3f11, 0x601c_b6fb) == 0x4c53_89ea && Xor(0x4c53_89ea, 0xd2fe_60c9) == 0x9ead_e923
    ensures Xor(0x9ead_e923, 0xee74_c3de) == 0x70d9_2afd && Or(0xe1b2_55fa, 0x0000_0000) == 0xe1b2_55fa
    ensures Xor(0x0025_e8d1, 0x9b09_33ac) == 0x9b2c_db7d && Xor(0x9b2c_db7d, 0x6fa8_6523) == 0xf484_be5e
    ensures Xor(0xf484_be5e, 0xb969_a1d9) == 0x4ded_1f87 && Or(0x9bda_3f0e, 0x0000_0000) == 0x9bda_3f0e
    ensures Xor(0x6949_3df2, 0x112d_52df) == 0x7864_6f2d && Xor(0x7864_6f2d, 0x01a3_b8c8) == 0x79c7_d7e5
    ensures Xor(0x79c7_d7e5, 0xd2fe_60c9) == 0xab39_b72c && Or(0x5673_6e58, 0x0000_0001) == 0x5673_6e59
    ensures Xor(0xe1b2_55fa, 0xc112_326c) == 0x20a0_6796 && Xor(0x20a0_6796, 0xe609_fdb0) == 0xc6a9_9a26
    ensures Xor(0xc6a9_9a26, 0x6fa8_6523) == 0xa901_ff05 && Or(0x5203_fe0a, 0x0000_0001) == 0x5203_fe0b
  {
  }

  lemma Words18()
    ensures IsWord(72, 0xe1b2_55fa) && IsWord(73, 0x9bda_3f0e) && IsWord(74, 0x5673_6e59) && IsWord(75, 0x5203_fe0b)
  {
    hide IsWord, Xor, Or;
    Words14();
    Words15();
    Words16();
    Words17();
    Xors18();
    NextWord(72, 0x2c4f_3f11, 0x601c_b6fb, 0xd2fe_60c9, 0xee74_c3de, 0x70d9_2afd, 0xe1b2_55fa, 0x0000_0000, 0xe1b2_55fa);
    NextWord(73, 0x0025_e8d1, 0x9b09_33ac, 0x6fa8_6523, 0xb969_a1d9, 0x4ded_1f87, 0x9bda_3f0e, 0x0000_0000, 0x9bda_3f0e);
    NextWord(74, 0x6949_3df2, 0x112d_52df, 0x01a3_b8c8, 0xd2fe_60c9, 0xab39_b72c, 0x5673_6e58, 0x0000_0001, 0x5673_6e59);
    NextWord(75, 0xe1b2_55fa, 0xc112_326c, 0xe609_fdb0, 0x6fa8_6523, 0xa901_ff05, 0x5203_fe0a, 0x0000_0001, 0x5203_fe0b);
  }

  lemma Xors19()
    ensures Xor(0x9bda_3f0e, 0xcb07_0e31) == 0x50dd_313f && Xor(0x50dd_313f, 0xfbea_55c5) == 0xab37_64fa
    ensures Xor(0xab37_64fa, 0x01a3_b8c8) == 0xaa94_dc32 && Or(0x5529_b864, 0x0000_0001) == 0x5529_b865
    ensures Xor(0x5673_6e59, 0x2c4f_3f11) == 0x7a3c_5148 && Xor(0x7a3c_5148, 0xac27_9990) == 0xd61b_c8d8
    ensures Xor(0xd61b_c8d8, 0xe609_fdb0) == 0x3012_3568 && Or(0x6024_6ad0, 0x0000_0000) == 0x6024_6ad0
    ensures Xor(0x5203_fe0b, 0x0025_e8d1) == 0x5226_16da && Xor(0x5226_16da, 0x601c_b6fb) == 0x323a_a021
    ensures Xor(0x323a_a021, 0xfbea_55c5) == 0xc9d0_f5e4 && Or(0x93a1_ebc8, 0x0000_0001) == 0x93a1_ebc9
    ensures Xor(0x5529_b865, 0x6949_3df2) == 0x3c60_8597 && Xor(0x3c60_8597, 0x9b09_33ac) == 0xa769_b63b
    ensures Xor(0xa769_b63b, 0xac27_9990) == 0x0b4e_2fab && Or(0x169c_5f56, 0x0000_0000) == 0x169c_5f56
  {
  }

  lemma Words19()
    ensures IsWord(76, 0x5529_b865) && IsWord(77, 0x6024_6ad0) && IsWord(78, 0x93a1_ebc9) && IsWord(79, 0x169c_5f56)
  {
    hide IsWord, Xor, Or;
    Words15();
    Words16();
    Words17();
    Words18();
    Xors19();
    NextWord(76, 0x9bda_3f0e, 0xcb07_0e31, 0xfbea_55c5, 0x01a3_b8c8, 0xaa94_dc32, 0x5529_b864, 0x0000_0001, 0x5529_b865);
    NextWord(77, 0x5673_6e59, 0x2c4f_3f11, 0xac27_9990, 0xe609_fdb0, 0x3012_3568, 0x6024_6ad0, 0x0000_0000, 0x6024_6ad0);
    NextWord(78, 0x5203_fe0b, 0x0025_e8d1, 0x601c_b6fb, 0xfbea_55c5, 0xc9d0_f5e4, 0x93a1_ebc8, 0x0000_0001, 0x93a1_ebc9);
    NextWord(79, 0x5529_b865, 0x6949_3df2, 0x9b09_33ac, 0xac27_9990, 0x0b4e_2fab, 0x169c_5f56, 0x0000_0000, 0x169c_5f56);
  }

  /** The rotations of one step, from their parts. */
  lemma Rotations(a: word, b: word, high5: word, low5: word, a5: word, high30: word, low30: word, b30: word)
    requires high5 == a * 0x20 % M32 && low5 == a / 0x800_0000 && a5 == Or(high5, low5)
    requires high30 == b * 0x4000_0000 % M32 && low30 == b / 4 && b30 == Or(high30, low30)
    ensures RotateLeft(a, 5) == a5 && RotateLeft(b, 30) == b30
  {
    hide Or;
    BitSeqs.Powers();
    assert Power2(31) == 16 * Power2(27) && Power2(31) == 2 * Power2(30);
    assert Power2(5) == 0x20 && Power2(2) == 4;
  }

  /** One step, from its parts. */
  lemma OpIs(t: nat, a: word, b: word, c: word, d: word, e: word, f: word, w: word, n: word, a5: word, b30: word)
    requires IsWord(t, w) && f == Mix(t, b, c, d) && a5 == RotateLeft(a, 5) && b30 == RotateLeft(b, 30)
    requires n == (a5 + f + e + w + K(t)) % M32
    ensures |BLOCK| == 64 && Op(BLOCK, Regs(a, b, c, d, e), t) == Regs(n, a, b30, c, d)
  {
    hide Mix, RotateLeft, W, K;
  }

  /** The registers after `n` times five steps. */
  predicate Reached(n: nat, r: Regs) { |BLOCK| == 64 && Fives(BLOCK, INIT, n) == r }

  predicate FiveSteps(r: Regs, t: nat, next: Regs) { |BLOCK| == 64 && Five(BLOCK, r, t) == next }

  lemma NextFive(n: nat, r: Regs, next: Regs)
    requires Reached(n, r) && FiveSteps(r, 5 * n, next)
    ensures Reached(n + 1, next)
  {
    hide Five, Fives;
    FivesNext(BLOCK, INIT, n);
  }

  lemma Bits0()
    ensures Mix(0, 0xefcd_ab89, 0x98ba_dcfe, 0x1032_5476) == 0x98ba_dcfe
    ensures Or(0xe8a4_6020, 0x0000_000c) == 0xe8a4_602c && Or(0x4000_0000, 0x3bf3_6ae2) == 0x7bf3_6ae2
    ensures Mix(1, 0x6745_2301, 0x7bf3_6ae2, 0x98ba_dcfe) == 0xfbfb_fefe
    ensures Or(0x1edb_7ee0, 0x0000_001c) == 0x1edb_7efc && Or(0x4000_0000, 0x19d1_48c0) == 0x59d1_48c0
    ensures Mix(2, 0xe0f6_dbf7, 0x59d1_48c0, 0x7bf3_6ae2) == 0x5bd1_68c0
    ensures Or(0x5a52_6a20, 0x0000_0019) == 0x5a52_6a39 && Or(0xc000_0000, 0x383d_b6fd) == 0xf83d_b6fd
    ensures Mix(3, 0xcad2_9351, 0xf83d_b6fd, 0x59d1_48c0) == 0xd911_dad1
    ensures Or(0x556e_9b80, 0x0000_001e) == 0x556e_9b9e && Or(0x4000_0000, 0x32b4_a4d4) == 0x72b4_a4d4
    ensures Mix(4, 0xf2ab_74dc, 0x72b4_a4d4, 0xf83d_b6fd) == 0x7ab4_a6f5
    ensures Or(0x4895_4740, 0x0000_000a) == 0x4895_474a && Or(0x0000_0000, 0x3caa_dd37) == 0x3caa_dd37
  {
  }

  lemma Five0()
    ensures FiveSteps(Regs(0x6745_2301, 0xefcd_ab89, 0x98ba_dcfe, 0x1032_5476, 0xc3d2_e1f0), 0,
                      Regs(0xc8f0_03ec, 0x5244_aa3a, 0x3caa_dd37, 0x72b4_a4d4, 0xf83d_b6fd))
  {
    hide Op, Mix, Or, RotateLeft, IsWord;
    BlockIs();
    Words0();
    Words1();
    Bits0();
    Rotations(0x6745_2301, 0xefcd_ab89, 0xe8a4_6020, 0x0000_000c, 0xe8a4_602c, 0x4000_0000, 0x3bf3_6ae2, 0x7bf3_6ae2);
    OpIs(0, 0x6745_2301, 0xefcd_ab89, 0x98ba_dcfe, 0x1032_5476, 0xc3d2_e1f0, 0x98ba_dcfe, 0x4142_4344, 0xe0f6_dbf7,
         0xe8a4_602c, 0x7bf3_6ae2);
    Rotations(0xe0f6_dbf7, 0x6745_2301, 0x1edb_7ee0, 0x0000_001c, 0x1edb_7efc, 0x4000_0000, 0x19d1_48c0, 0x59d1_48c0);
    OpIs(1, 0xe0f6_dbf7, 0x6745_2301, 0x7bf3_6ae2, 0x98ba_dcfe, 0x1032_5476, 0xfbfb_fefe, 0x4546_4748, 0xcad2_9351,
         0x1edb_7efc, 0x59d1_48c0);
    Rotations(0xcad2_9351, 0xe0f6_dbf7, 0x5a52_6a20, 0x0000_0019, 0x5a52_6a39, 0xc000_0000, 0x383d_b6fd, 0xf83d_b6fd);
    OpIs(2, 0xcad2_9351, 0xe0f6_dbf7, 0x59d1_48c0, 0x7bf3_6ae2, 0x98ba_dcfe, 0x5bd1_68c0, 0x494a_4b4c, 0xf2ab_74dc,
         0x5a52_6a39, 0xf83d_b6fd);
    Rotations(0xf2ab_74dc, 0xcad2_9351, 0x556e_9b80, 0x0000_001e, 0x556e_9b9e, 0x4000_0000, 0x32b4_a4d4, 0x72b4_a4d4);
    OpIs(3, 0xf2ab_74dc, 0xcad2_9351, 0xf83d_b6fd, 0x59d1_48c0, 0x7bf3_6ae2, 0xd911_dad1, 0x4d4e_4f50, 0x5244_aa3a,
         0x556e_9b9e, 0x72b4_a4d4);
    Rotations(0x5244_aa3a, 0xf2ab_74dc, 0x4895_4740, 0x0000_000a, 0x4895_474a, 0x0000_0000, 0x3caa_dd37, 0x3caa_dd37);
    OpIs(4, 0x5244_aa3a, 0xf2ab_74dc, 0x72b4_a4d4, 0xf83d_b6fd, 0x59d1_48c0, 0x7ab4_a6f5, 0x5152_5354, 0xc8f0_03ec,
         0x4895_474a, 0x3caa_dd37);
  }

  lemma Bits1()
    ensures Mix(5, 0x5244_aa3a, 0x3caa_dd37, 0x72b4_a4d4) == 0x30b0_8cf6
    ensures Or(0x1e00_7d80, 0x0000_0019) == 0x1e00_7d99 && Or(0x8000_0000, 0x1491_2a8e) == 0x9491_2a8e
    ensures Mix(6, 0xc8f0_03ec, 0x9491_2a8e, 0x3caa_dd37) == 0xb49a_de9f
    ensures Or(0xd8f2_4fa0, 0x0000_001e) == 0xd8f2_4fbe && Or(0x0000_0000, 0x323c_00fb) == 0x323c_00fb
    ensures Mix(7, 0xf6c7_927d, 0x323c_00fb, 0x9491_2a8e) == 0x3214_28fb
    ensures Or(0x83d5_c580, 0x0000_0016) == 0x83d5_c596 && Or(0x4000_0000, 0x3db1_e49f) == 0x7db1_e49f
    ensures Mix(8, 0xb41e_ae2c, 0x7db1_e49f, 0x323c_00fb) == 0x3630_a4df
    ensures Or(0x0f75_58e0, 0x0000_0016) == 0x0f75_58f6 && Or(0x0000_0000, 0x2d07_ab8b) == 0x2d07_ab8b
    ensures Mix(9, 0xb07b_aac7, 0x2d07_ab8b, 0x7db1_e49f) == 0x6d83_ee9b
    ensures Or(0x8441_6cc0, 0x0000_0013) == 0x8441_6cd3 && Or(0xc000_0000, 0x2c1e_eab1) == 0xec1e_eab1
  {
  }

  lemma Five1()
    ensures FiveSteps(Regs(0xc8f0_03ec, 0x5244_aa3a, 0x3caa_dd37, 0x72b4_a4d4, 0xf83d_b6fd), 5,
                      Regs(0xe9f0_4370, 0x9c22_0b66, 0xec1e_eab1, 0x2d07_ab8b, 0x7db1_e49f))
  {
    hide Op, Mix, Or, RotateLeft, IsWord;
    BlockIs();
    Words1();
    Words2();
    Bits1();
    Rotations(0xc8f0_03ec, 0x5244_aa3a, 0x1e00_7d80, 0x0000_0019, 0x1e00_7d99, 0x8000_0000, 0x1491_2a8e, 0x9491_2a8e);
    OpIs(5, 0xc8f0_03ec, 0x5244_aa3a, 0x3caa_dd37, 0x72b4_a4d4, 0xf83d_b6fd, 0x30b0_8cf6, 0x5556_5758, 0xf6c7_927d,
         0x1e00_7d99, 0x9491_2a8e);
    Rotations(0xf6c7_927d, 0xc8f0_03ec, 0xd8f2_4fa0, 0x0000_001e, 0xd8f2_4fbe, 0x0000_0000, 0x323c_00fb, 0x323c_00fb);
    OpIs(6, 0xf6c7_927d, 0xc8f0_03ec, 0x9491_2a8e, 0x3caa_dd37, 0x72b4_a4d4, 0xb49a_de9f, 0x595a_6162, 0xb41e_ae2c,
         0xd8f2_4fbe, 0x323c_00fb);
    Rotations(0xb41e_ae2c, 0xf6c7_927d, 0x83d5_c580, 0x0000_0016, 0x83d5_c596, 0x4000_0000, 0x3db1_e49f, 0x7db1_e49f);
    OpIs(7, 0xb41e_ae2c, 0xf6c7_927d, 0x323c_00fb, 0x9491_2a8e, 0x3caa_dd37, 0x3214_28fb, 0x6364_6566, 0xb07b_aac7,
         0x83d5_c596, 0x7db1_e49f);
    Rotations(0xb07b_aac7, 0xb41e_ae2c, 0x0f75_58e0, 0x0000_0016, 0x0f75_58f6, 0x0000_0000, 0x2d07_ab8b, 0x2d07_ab8b);
    OpIs(8, 0xb07b_aac7, 0xb41e_ae2c, 0x7db1_e49f, 0x323c_00fb, 0x9491_2a8e, 0x3630_a4df, 0x6768_696a, 0x9c22_0b66,
         0x0f75_58f6, 0x2d07_ab8b);
    Rotations(0x9c22_0b66, 0xb07b_aac7, 0x8441_6cc0, 0x0000_0013, 0x8441_6cd3, 0xc000_0000, 0x2c1e_eab1, 0xec1e_eab1);
    OpIs(9, 0x9c22_0b66, 0xb07b_aac7, 0x2d07_ab8b, 0x7db1_e49f, 0x323c_00fb, 0x6d83_ee9b, 0x6b6c_6d6e, 0xe9f0_4370,
         0x8441_6cd3, 0xec1e_eab1);
  }

  lemma Bits2()
    ensures Mix(10, 0x9c22_0b66, 0xec1e_eab1, 0x2d07_ab8b) == 0xad07_aaa9
    ensures Or(0x3e08_6e00, 0x0000_001d) == 0x3e08_6e1d && Or(0x8000_0000, 0x2708_82d9) == 0xa708_82d9
    ensures Mix(11, 0xe9f0_4370, 0xa708_82d9, 0xec1e_eab1) == 0xa50e_aad1
    ensures Or(0x569d_0e00, 0x0000_0006) == 0x569d_0e06 && Or(0x0000_0000, 0x3a7c_10dc) == 0x3a7c_10dc
    ensures Mix(12, 0x32b4_e870, 0x3a7c_10dc, 0xa708_82d9) == 0xb73c_02d9
    ensures Or(0xd54a_6e20, 0x0000_001e) == 0xd54a_6e3e && Or(0x0000_0000, 0x0cad_3a1c) == 0x0cad_3a1c
    ensures Mix(13, 0xf6aa_5371, 0x0cad_3a1c, 0x3a7c_10dc) == 0x0cfc_129c
    ensures Or(0x5409_db60, 0x0000_0009) == 0x5409_db69 && Or(0x4000_0000, 0x3daa_94dc) == 0x7daa_94dc
    ensures Mix(14, 0x4aa0_4edb, 0x7daa_94dc, 0x0cad_3a1c) == 0x4cad_34dc
    ensures Or(0x5843_9ee0, 0x0000_0012) == 0x5843_9ef2 && Or(0xc000_0000, 0x12a8_13b6) == 0xd2a8_13b6
  {
  }

  lemma Five2()
    ensures FiveSteps(Regs(0xe9f0_4370, 0x9c22_0b66, 0xec1e_eab1, 0x2d07_ab8b, 0x7db1_e49f), 10,
                      Regs(0x39ef_5e43, 0x92c2_1cf7, 0xd2a8_13b6, 0x7daa_94dc, 0x0cad_3a1c))
  {
    hide Op, Mix, Or, RotateLeft, IsWord;
    BlockIs();
    Words2();
    Words3();
    Bits2();
    Rotations(0xe9f0_4370, 0x9c22_0b66, 0x3e08_6e00, 0x0000_001d, 0x3e08_6e1d, 0x8000_0000, 0x2708_82d9, 0xa708_82d9);
    OpIs(10, 0xe9f0_4370, 0x9c22_0b66, 0xec1e_eab1, 0x2d07_ab8b, 0x7db1_e49f, 0xad07_aaa9, 0x6f70_7172, 0x32b4_e870,
         0x3e08_6e1d, 0xa708_82d9);
    Rotations(0x32b4_e870, 0xe9f0_4370, 0x569d_0e00, 0x0000_0006, 0x569d_0e06, 0x0000_0000, 0x3a7c_10dc, 0x3a7c_10dc);
    OpIs(11, 0x32b4_e870, 0xe9f0_4370, 0xa708_82d9, 0xec1e_eab1, 0x2d07_ab8b, 0xa50e_aad1, 0x7374_7576, 0xf6aa_5371,
         0x569d_0e06, 0x3a7c_10dc);
    Rotations(0xf6aa_5371, 0x32b4_e870, 0xd54a_6e20, 0x0000_001e, 0xd54a_6e3e, 0x0000_0000, 0x0cad_3a1c, 0x0cad_3a1c);
    OpIs(12, 0xf6aa_5371, 0x32b4_e870, 0x3a7c_10dc, 0xa708_82d9, 0xec1e_eab1, 0xb73c_02d9, 0x7778_797a, 0x4aa0_4edb,
         0xd54a_6e3e, 0x0cad_3a1c);
    Rotations(0x4aa0_4edb, 0xf6aa_5371, 0x5409_db60, 0x0000_0009, 0x5409_db69, 0x4000_0000, 0x3daa_94dc, 0x7daa_94dc);
    OpIs(13, 0x4aa0_4edb, 0xf6aa_5371, 0x0cad_3a1c, 0x3a7c_10dc, 0xa708_82d9, 0x0cfc_129c, 0x3031_3280, 0x92c2_1cf7,
         0x5409_db69, 0x7daa_94dc);
    Rotations(0x92c2_1cf7, 0x4aa0_4edb, 0x5843_9ee0, 0x0000_0012, 0x5843_9ef2, 0xc000_0000, 0x12a8_13b6, 0xd2a8_13b6);
    OpIs(14, 0x92c2_1cf7, 0x4aa0_4edb, 0x7daa_94dc, 0x0cad_3a1c, 0x3a7c_10dc, 0x4cad_34dc, 0x0000_0000, 0x39ef_5e43,
         0x5843_9ef2, 0xd2a8_13b6);
  }

  lemma Bits3()
    ensures Mix(15, 0x92c2_1cf7, 0xd2a8_13b6, 0x7daa_94dc) == 0xffa8_90be
    ensures Or(0x3deb_c860, 0x0000_0007) == 0x3deb_c867 && Or(0xc000_0000, 0x24b0_873d) == 0xe4b0_873d
    ensures Mix(16, 0x39ef_5e43, 0xe4b0_873d, 0xd2a8_13b6) == 0xe2a0_07b5
    ensures Or(0x9881_d240, 0x0000_0014) == 0x9881_d254 && Or(0xc000_0000, 0x0e7b_d790) == 0xce7b_d790
    ensures Mix(17, 0xa4c4_0e92, 0xce7b_d790, 0xe4b0_873d) == 0xc470_87bd
    ensures Or(0x3e32_0840, 0x0000_0002) == 0x3e32_0842 && Or(0x8000_0000, 0x2931_03a4) == 0xa931_03a4
    ensures Mix(18, 0x11f1_9042, 0xa931_03a4, 0xce7b_d790) == 0xcf3b_4790
    ensures Or(0xd2bd_0740, 0x0000_001e) == 0xd2bd_075e && Or(0x8000_0000, 0x047c_6410) == 0x847c_6410
    ensures Mix(19, 0xf695_e83a, 0x847c_6410, 0xa931_03a4) == 0x8d34_6394
    ensures Or(0xff84_2d00, 0x0000_0019) == 0xff84_2d19 && Or(0x8000_0000, 0x3da5_7a0e) == 0xbda5_7a0e
  {
  }

  lemma Five3()
    ensures FiveSteps(Regs(0x39ef_5e43, 0x92c2_1cf7, 0xd2a8_13b6, 0x7daa_94dc, 0x0cad_3a1c), 15,
                      Regs(0x6154_774b, 0xcffc_2168, 0xbda5_7a0e, 0x847c_6410, 0xa931_03a4))
  {
    hide Op, Mix, Or, RotateLeft, IsWord;
    BlockIs();
    Words3();
    Words4();
    Bits3();
    Rotations(0x39ef_5e43, 0x92c2_1cf7, 0x3deb_c860, 0x0000_0007, 0x3deb_c867, 0xc000_0000, 0x24b0_873d, 0xe4b0_873d);
    OpIs(15, 0x39ef_5e43, 0x92c2_1cf7, 0xd2a8_13b6, 0x7daa_94dc, 0x0cad_3a1c, 0xffa8_90be, 0x0000_01b8, 0xa4c4_0e92,
         0x3deb_c867, 0xe4b0_873d);
    Rotations(0xa4c4_0e92, 0x39ef_5e43, 0x9881_d240, 0x0000_0014, 0x9881_d254, 0xc000_0000, 0x0e7b_d790, 0xce7b_d790);
    OpIs(16, 0xa4c4_0e92, 0x39ef_5e43, 0xe4b0_873d, 0xd2a8_13b6, 0x7daa_94dc, 0xe2a0_07b5, 0xbea2_a7c4, 0x11f1_9042,
         0x9881_d254, 0xce7b_d790);
    Rotations(0x11f1_9042, 0xa4c4_0e92, 0x3e32_0840, 0x0000_0002, 0x3e32_0842, 0x8000_0000, 0x2931_03a4, 0xa931_03a4);
    OpIs(17, 0x11f1_9042, 0xa4c4_0e92, 0xce7b_d790, 0xe4b0_873d, 0xd2a8_13b6, 0xc470_87bd, 0xc6c8_caec, 0xf695_e83a,
         0x3e32_0842, 0xa931_03a4);
    Rotations(0xf695_e83a, 0x11f1_9042, 0xd2bd_0740, 0x0000_001e, 0xd2bd_075e, 0x8000_0000, 0x047c_6410, 0x847c_6410);
    OpIs(18, 0xf695_e83a, 0x11f1_9042, 0xa931_03a4, 0xce7b_d790, 0xe4b0_873d, 0xcf3b_4790, 0xeed0_d1a4, 0xcffc_2168,
         0xd2bd_075e, 0x847c_6410);
    Rotations(0xcffc_2168, 0xf695_e83a, 0xff84_2d00, 0x0000_0019, 0xff84_2d19, 0x8000_0000, 0x3da5_7a0e, 0xbda5_7a0e);
    OpIs(19, 0xcffc_2168, 0xf695_e83a, 0x847c_6410, 0xa931_03a4, 0xce7b_d790, 0x8d34_6394, 0xab9d_9575, 0x6154_774b,
         0xff84_2d19, 0xbda5_7a0e);
  }

  lemma Bits4()
    ensures Mix(20, 0xcffc_2168, 0xbda5_7a0e, 0x847c_6410) == 0xf625_3f76
    ensures Or(0x2a8e_e960, 0x0000_000c) == 0x2a8e_e96c && Or(0x0000_0000, 0x33ff_085a) == 0x33ff_085a
    ensures Mix(21, 0x6154_774b, 0x33ff_085a, 0xbda5_7a0e) == 0xef0e_051f
    ensures Or(0x8603_6d00, 0x0000_0015) == 0x8603_6d15 && Or(0xc000_0000, 0x1855_1dd2) == 0xd855_1dd2
    ensures Mix(22, 0xac30_1b68, 0xd855_1dd2, 0x33ff_085a) == 0x479a_0ee0
    ensures Or(0x41ec_8340, 0x0000_0007) == 0x41ec_8347 && Or(0x0000_0000, 0x2b0c_06da) == 0x2b0c_06da
    ensures Mix(23, 0x3a0f_641a, 0x2b0c_06da, 0xd855_1dd2) == 0xc956_7f12
    ensures Or(0x2ca6_5a20, 0x0000_001c) == 0x2ca6_5a3c && Or(0x8000_0000, 0x0e83_d906) == 0x8e83_d906
    ensures Mix(24, 0xe165_32d1, 0x8e83_d906, 0x2b0c_06da) == 0x44ea_ed0d
    ensures Or(0xf8fc_6560, 0x0000_0011) == 0xf8fc_6571 && Or(0x4000_0000, 0x3859_4cb4) == 0x7859_4cb4
  {
  }

  lemma Five4()
    ensures FiveSteps(Regs(0x6154_774b, 0xcffc_2168, 0xbda5_7a0e, 0x847c_6410, 0xa931_03a4), 20,
                      Regs(0x5350_97c3, 0x8fc7_e32b, 0x7859_4cb4, 0x8e83_d906, 0x2b0c_06da))
  {
    hide Op, Mix, Or, RotateLeft, IsWord;
    BlockIs();
    Words5();
    Words6();
    Bits4();
    Rotations(0x6154_774b, 0xcffc_2168, 0x2a8e_e960, 0x0000_000c, 0x2a8e_e96c, 0x0000_0000, 0x33ff_085a, 0x33ff_085a);
    OpIs(20, 0x6154_774b, 0xcffc_2168, 0xbda5_7a0e, 0x847c_6410, 0xa931_03a4, 0xf625_3f76, 0x7371_0341, 0xac30_1b68,
         0x2a8e_e96c, 0x33ff_085a);
    Rotations(0xac30_1b68, 0x6154_774b, 0x8603_6d00, 0x0000_0015, 0x8603_6d15, 0xc000_0000, 0x1855_1dd2, 0xd855_1dd2);
    OpIs(21, 0xac30_1b68, 0x6154_774b, 0x33ff_085a, 0xbda5_7a0e, 0x847c_6410, 0xef0e_051f, 0xd1a7_a235, 0x3a0f_641a,
         0x8603_6d15, 0xd855_1dd2);
    Rotations(0x3a0f_641a, 0xac30_1b68, 0x41ec_8340, 0x0000_0007, 0x41ec_8347, 0x0000_0000, 0x2b0c_06da, 0x2b0c_06da);
    OpIs(22, 0x3a0f_641a, 0xac30_1b68, 0xd855_1dd2, 0x33ff_085a, 0xbda5_7a0e, 0x479a_0ee0, 0x2b5f_3afb, 0xe165_32d1,
         0x41ec_8347, 0x2b0c_06da);
    Rotations(0xe165_32d1, 0x3a0f_641a, 0x2ca6_5a20, 0x0000_001c, 0x2ca6_5a3c, 0x8000_0000, 0x0e83_d906, 0x8e83_d906);
    OpIs(23, 0xe165_32d1, 0x3a0f_641a, 0x2b0c_06da, 0xd855_1dd2, 0x33ff_085a, 0xc956_7f12, 0xf6f2_15e2, 0x8fc7_e32b,
         0x2ca6_5a3c, 0x8e83_d906);
    Rotations(0x8fc7_e32b, 0xe165_32d1, 0xf8fc_6560, 0x0000_0011, 0xf8fc_6571, 0x4000_0000, 0x3859_4cb4, 0x7859_4cb4);
    OpIs(24, 0x8fc7_e32b, 0xe165_32d1, 0x8e83_d906, 0x2b0c_06da, 0xd855_1dd2, 0x44ea_ed0d, 0xce3a_3bd2, 0x5350_97c3,
         0xf8fc_6571, 0x7859_4cb4);
  }

  lemma Bits5()
    ensures Mix(25, 0x8fc7_e32b, 0x7859_4cb4, 0x8e83_d906) == 0x791d_7699
    ensures Or(0x6a12_f860, 0x0000_000a) == 0x6a12_f86a && Or(0xc000_0000, 0x23f1_f8ca) == 0xe3f1_f8ca
    ensures Mix(26, 0x5350_97c3, 0xe3f1_f8ca, 0x7859_4cb4) == 0xc8f8_23bd
    ensures Or(0x06c6_33a0, 0x0000_000d) == 0x06c6_33ad && Or(0xc000_0000, 0x14d4_25f0) == 0xd4d4_25f0
    ensures Mix(27, 0x6836_319d, 0xd4d4_25f0, 0xe3f1_f8ca) == 0x5f13_eca7
    ensures Or(0xae36_95a0, 0x0000_0019) == 0xae36_95b9 && Or(0x4000_0000, 0x1a0d_8c67) == 0x5a0d_8c67
    ensures Mix(28, 0xcd71_b4ad, 0x5a0d_8c67, 0xd4d4_25f0) == 0x43a8_1d3a
    ensures Or(0x4871_aae0, 0x0000_0008) == 0x4871_aae8 && Or(0x4000_0000, 0x335c_6d2b) == 0x735c_6d2b
    ensures Mix(29, 0x4243_8d57, 0x735c_6d2b, 0x5a0d_8c67) == 0x6b12_6c1b
    ensures Or(0xa260_1ac0, 0x0000_0017) == 0xa260_1ad7 && Or(0xc000_0000, 0x1090_e355) == 0xd090_e355
  {
  }

  lemma Five5()
    ensures FiveSteps(Regs(0x5350_97c3, 0x8fc7_e32b, 0x7859_4cb4, 0x8e83_d906, 0x2b0c_06da), 25,
                      Regs(0x14a6_aba6, 0xbd13_00d6, 0xd090_e355, 0x735c_6d2b, 0x5a0d_8c67))
  {
    hide Op, Mix, Or, RotateLeft, IsWord;
    BlockIs();
    Words6();
    Words7();
    Bits5();
    Rotations(0x5350_97c3, 0x8fc7_e32b, 0x6a12_f860, 0x0000_000a, 0x6a12_f86a, 0xc000_0000, 0x23f1_f8ca, 0xe3f1_f8ca);
    OpIs(25, 0x5350_97c3, 0x8fc7_e32b, 0x7859_4cb4, 0x8e83_d906, 0x2b0c_06da, 0x791d_7699, 0xeb1f_d01f, 0x6836_319d,
         0x6a12_f86a, 0xe3f1_f8ca);
    Rotations(0x6836_319d, 0x5350_97c3, 0x06c6_33a0, 0x0000_000d, 0x06c6_33ad, 0xc000_0000, 0x14d4_25f0, 0xd4d4_25f0);
    OpIs(26, 0x6836_319d, 0x5350_97c3, 0xe3f1_f8ca, 0x7859_4cb4, 0x8e83_d906, 0xc8f8_23bd, 0x0055_989c, 0xcd71_b4ad,
         0x06c6_33ad, 0xd4d4_25f0);
    Rotations(0xcd71_b4ad, 0x6836_319d, 0xae36_95a0, 0x0000_0019, 0xae36_95b9, 0x4000_0000, 0x1a0d_8c67, 0x5a0d_8c67);
    OpIs(27, 0xcd71_b4ad, 0x6836_319d, 0xd4d4_25f0, 0xe3f1_f8ca, 0x7859_4cb4, 0x5f13_eca7, 0x4dc5_d2a2, 0x4243_8d57,
         0xae36_95b9, 0x5a0d_8c67);
    Rotations(0x4243_8d57, 0xcd71_b4ad, 0x4871_aae0, 0x0000_0008, 0x4871_aae8, 0x4000_0000, 0x335c_6d2b, 0x735c_6d2b);
    OpIs(28, 0x4243_8d57, 0xcd71_b4ad, 0x5a0d_8c67, 0xd4d4_25f0, 0xe3f1_f8ca, 0x43a8_1d3a, 0xde2d_5449, 0xbd13_00d6,
         0x4871_aae8, 0x735c_6d2b);
    Rotations(0xbd13_00d6, 0x4243_8d57, 0xa260_1ac0, 0x0000_0017, 0xa260_1ad7, 0xc000_0000, 0x1090_e355, 0xd090_e355);
    OpIs(29, 0xbd13_00d6, 0x4243_8d57, 0x735c_6d2b, 0x5a0d_8c67, 0xd4d4_25f0, 0x6b12_6c1b, 0xc386_1323, 0x14a6_aba6,
         0xa260_1ad7, 0xd090_e355);
  }

  lemma Bits6()
    ensures Mix(30, 0xbd13_00d6, 0xd090_e355, 0x735c_6d2b) == 0x1edf_8ea8
    ensures Or(0x94d5_74c0, 0x0000_0002) == 0x94d5_74c2 && Or(0x8000_0000, 0x2f44_c035) == 0xaf44_c035
    ensures Mix(31, 0x14a6_aba6, 0xaf44_c035, 0xd090_e355) == 0x6b72_88c6
    ensures Or(0xa1a3_55a0, 0x0000_0005) == 0xa1a3_55a5 && Or(0x8000_0000, 0x0529_aae9) == 0x8529_aae9
    ensures Mix(32, 0x2d0d_1aad, 0x8529_aae9, 0xaf44_c035) == 0x0760_7071
    ensures Or(0x6f69_a6c0, 0x0000_0019) == 0x6f69_a6d9 && Or(0x4000_0000, 0x0b43_46ab) == 0x4b43_46ab
    ensures Mix(33, 0xcb7b_4d36, 0x4b43_46ab, 0x8529_aae9) == 0x0511_a174
    ensures Or(0x3a34_6c40, 0x0000_000e) == 0x3a34_6c4e && Or(0x8000_0000, 0x32de_d34d) == 0xb2de_d34d
    ensures Mix(34, 0x71d1_a362, 0xb2de_d34d, 0x4b43_46ab) == 0x884c_3684
    ensures Or(0x3b1b_6240, 0x0000_0019) == 0x3b1b_6259 && Or(0x8000_0000, 0x1c74_68d8) == 0x9c74_68d8
  {
  }

  lemma Five6()
    ensures FiveSteps(Regs(0x14a6_aba6, 0xbd13_00d6, 0xd090_e355, 0x735c_6d2b, 0x5a0d_8c67), 30,
                      Regs(0x3b21_ee73, 0xc9d8_db12, 0x9c74_68d8, 0xb2de_d34d, 0x4b43_46ab))
  {
    hide Op, Mix, Or, RotateLeft, IsWord;
    BlockIs();
    Words7();
    Words8();
    Bits6();
    Rotations(0x14a6_aba6, 0xbd13_00d6, 0x94d5_74c0, 0x0000_0002, 0x94d5_74c2, 0x8000_0000, 0x2f44_c035, 0xaf44_c035);
    OpIs(30, 0x14a6_aba6, 0xbd13_00d6, 0xd090_e355, 0x735c_6d2b, 0x5a0d_8c67, 0x1edf_8ea8, 0xb070_9f3b, 0x2d0d_1aad,
         0x94d5_74c2, 0xaf44_c035);
    Rotations(0x2d0d_1aad, 0x14a6_aba6, 0xa1a3_55a0, 0x0000_0005, 0xa1a3_55a5, 0x8000_0000, 0x0529_aae9, 0x8529_aae9);
    OpIs(31, 0x2d0d_1aad, 0x14a6_aba6, 0xaf44_c035, 0xd090_e355, 0x735c_6d2b, 0x6b72_88c6, 0xdc2f_15ff, 0xcb7b_4d36,
         0xa1a3_55a5, 0x8529_aae9);
    Rotations(0xcb7b_4d36, 0x2d0d_1aad, 0x6f69_a6c0, 0x0000_0019, 0x6f69_a6d9, 0x4000_0000, 0x0b43_46ab, 0x4b43_46ab);
    OpIs(32, 0xcb7b_4d36, 0x2d0d_1aad, 0x8529_aae9, 0xaf44_c035, 0xd090_e355, 0x0760_7071, 0xbb9c_bd22, 0x71d1_a362,
         0x6f69_a6d9, 0x4b43_46ab);
    Rotations(0x71d1_a362, 0xcb7b_4d36, 0x3a34_6c40, 0x0000_000e, 0x3a34_6c4e, 0x8000_0000, 0x32de_d34d, 0xb2de_d34d);
    OpIs(33, 0x71d1_a362, 0xcb7b_4d36, 0x4b43_46ab, 0x8529_aae9, 0xaf44_c035, 0x0511_a174, 0x6c74_217a, 0xc9d8_db12,
         0x3a34_6c4e, 0xb2de_d34d);
    Rotations(0xc9d8_db12, 0x71d1_a362, 0x3b1b_6240, 0x0000_0019, 0x3b1b_6259, 0x8000_0000, 0x1c74_68d8, 0x9c74_68d8);
    OpIs(34, 0xc9d8_db12, 0x71d1_a362, 0xb2de_d34d, 0x4b43_46ab, 0x8529_aae9, 0x884c_3684, 0x83b6_bf0c, 0x3b21_ee73,
         0x3b1b_6259, 0x9c74_68d8);
  }

  lemma Bits7()
    ensures Mix(35, 0xc9d8_db12, 0x9c74_68d8, 0xb2de_d34d) == 0xe772_6087
    ensures Or(0x643d_ce60, 0x0000_0007) == 0x643d_ce67 && Or(0x8000_0000, 0x3276_36c4) == 0xb276_36c4
    ensures Mix(36, 0x3b21_ee73, 0xb276_36c4, 0x9c74_68d8) == 0x1523_b06f
    ensures Or(0xd282_5760, 0x0000_0003) == 0xd282_5763 && Or(0xc000_0000, 0x0ec8_7b9c) == 0xcec8_7b9c
    ensures Mix(37, 0x1e94_12bb, 0xcec8_7b9c, 0xb276_36c4) == 0x622a_5fe3
    ensures Or(0xc9ab_fa60, 0x0000_001b) == 0xc9ab_fa7b && Or(0xc000_0000, 0x07a5_04ae) == 0xc7a5_04ae
    ensures Mix(38, 0xde4d_5fd3, 0xc7a5_04ae, 0xcec8_7b9c) == 0xd720_20e1
    ensures Or(0xbddc_d8e0, 0x0000_0000) == 0xbddc_d8e0 && Or(0xc000_0000, 0x3793_57f4) == 0xf793_57f4
    ensures Mix(39, 0x05ee_e6c7, 0xf793_57f4, 0xc7a5_04ae) == 0x35d8_b59d
    ensures Or(0x3e6f_6980, 0x0000_000a) == 0x3e6f_698a && Or(0xc000_0000, 0x017b_b9b1) == 0xc17b_b9b1
  {
  }

  lemma Five7()
    ensures FiveSteps(Regs(0x3b21_ee73, 0xc9d8_db12, 0x9c74_68d8, 0xb2de_d34d, 0x4b43_46ab), 35,
                      Regs(0xdc43_1886, 0x51f3_7b4c, 0xc17b_b9b1, 0xf793_57f4, 0xc7a5_04ae))
  {
    hide Op, Mix, Or, RotateLeft, IsWord;
    BlockIs();
    Words8();
    Words9();
    Bits7();
    Rotations(0x3b21_ee73, 0xc9d8_db12, 0x643d_ce60, 0x0000_0007, 0x643d_ce67, 0x8000_0000, 0x3276_36c4, 0xb276_36c4);
    OpIs(35, 0x3b21_ee73, 0xc9d8_db12, 0x9c74_68d8, 0xb2de_d34d, 0x4b43_46ab, 0xe772_6087, 0x18c6_b181, 0x1e94_12bb,
         0x643d_ce67, 0xb276_36c4);
    Rotations(0x1e94_12bb, 0x3b21_ee73, 0xd282_5760, 0x0000_0003, 0xd282_5763, 0xc000_0000, 0x0ec8_7b9c, 0xcec8_7b9c);
    OpIs(36, 0x1e94_12bb, 0x3b21_ee73, 0xb276_36c4, 0x9c74_68d8, 0xb2de_d34d, 0x1523_b06f, 0xd4ee_9913, 0xde4d_5fd3,
         0xd282_5763, 0xcec8_7b9c);
    Rotations(0xde4d_5fd3, 0x1e94_12bb, 0xc9ab_fa60, 0x0000_001b, 0xc9ab_fa7b, 0xc000_0000, 0x07a5_04ae, 0xc7a5_04ae);
    OpIs(37, 0xde4d_5fd3, 0x1e94_12bb, 0xcec8_7b9c, 0xb276_36c4, 0x9c74_68d8, 0x622a_5fe3, 0xceca_37f0, 0x05ee_e6c7,
         0xc9ab_fa7b, 0xc7a5_04ae);
    Rotations(0x05ee_e6c7, 0xde4d_5fd3, 0xbddc_d8e0, 0x0000_0000, 0xbddc_d8e0, 0xc000_0000, 0x3793_57f4, 0xf793_57f4);
    OpIs(38, 0x05ee_e6c7, 0xde4d_5fd3, 0xc7a5_04ae, 0xcec8_7b9c, 0xb276_36c4, 0xd720_20e1, 0x9ba6_5f26, 0x51f3_7b4c,
         0xbddc_d8e0, 0xf793_57f4);
    Rotations(0x51f3_7b4c, 0x05ee_e6c7, 0x3e6f_6980, 0x0000_000a, 0x3e6f_698a, 0xc000_0000, 0x017b_b9b1, 0xc17b_b9b1);
    OpIs(39, 0x51f3_7b4c, 0x05ee_e6c7, 0xf793_57f4, 0xc7a5_04ae, 0xcec8_7b9c, 0x35d8_b59d, 0x2a58_9222, 0xdc43_1886,
         0x3e6f_698a, 0xc17b_b9b1);
  }

  lemma Bits8()
    ensures Mix(40, 0x51f3_7b4c, 0xc17b_b9b1, 0xf793_57f4) == 0xd1f3_7bf4
    ensures Or(0x8863_10c0, 0x0000_001b) == 0x8863_10db && Or(0x0000_0000, 0x147c_ded3) == 0x147c_ded3
    ensures Mix(41, 0xdc43_1886, 0x147c_ded3, 0xc17b_b9b1) == 0xd47b_9893
    ensures Or(0xf134_3240, 0x0000_0004) == 0xf134_3244 && Or(0x8000_0000, 0x3710_c621) == 0xb710_c621
    ensures Mix(42, 0x2789_a192, 0xb710_c621, 0x147c_ded3) == 0x3718_c693
    ensures Or(0xcdfb_2d20, 0x0000_001d) == 0xcdfb_2d3d && Or(0x8000_0000, 0x09e2_6864) == 0x89e2_6864
    ensures Mix(43, 0xee6f_d969, 0x89e2_6864, 0xb710_c621) == 0xaf62_c861
    ensures Or(0x9b25_ca60, 0x0000_0008) == 0x9b25_ca68 && Or(0x4000_0000, 0x3b9b_f65a) == 0x7b9b_f65a
    ensures Mix(44, 0x44d9_2e53, 0x7b9b_f65a, 0x89e2_6864) == 0x49db_6e52
    ensures Or(0x01ee_9d60, 0x0000_0016) == 0x01ee_9d76 && Or(0xc000_0000, 0x1136_4b94) == 0xd136_4b94
  {
  }

  lemma Five8()
    ensures FiveSteps(Regs(0xdc43_1886, 0x51f3_7b4c, 0xc17b_b9b1, 0xf793_57f4, 0xc7a5_04ae), 40,
                      Regs(0xc33d_e60b, 0xb00f_74eb, 0xd136_4b94, 0x7b9b_f65a, 0x89e2_6864))
  {
    hide Op, Mix, Or, RotateLeft, IsWord;
    BlockIs();
    Words10();
    Words11();
    Bits8();
    Rotations(0xdc43_1886, 0x51f3_7b4c, 0x8863_10c0, 0x0000_001b, 0x8863_10db, 0x0000_0000, 0x147c_ded3, 0x147c_ded3);
    OpIs(40, 0xdc43_1886, 0x51f3_7b4c, 0xc17b_b9b1, 0xf793_57f4, 0xc7a5_04ae, 0xd1f3_7bf4, 0x7672_5339, 0x2789_a192,
         0x8863_10db, 0x147c_ded3);
    Rotations(0x2789_a192, 0xdc43_1886, 0xf134_3240, 0x0000_0004, 0xf134_3244, 0x8000_0000, 0x3710_c621, 0xb710_c621);
    OpIs(41, 0x2789_a192, 0xdc43_1886, 0x147c_ded3, 0xc17b_b9b1, 0xf793_57f4, 0xd47b_9893, 0xa210_f9c2, 0xee6f_d969,
         0xf134_3244, 0xb710_c621);
    Rotations(0xee6f_d969, 0x2789_a192, 0xcdfb_2d20, 0x0000_001d, 0xcdfb_2d3d, 0x8000_0000, 0x09e2_6864, 0x89e2_6864);
    OpIs(42, 0xee6f_d969, 0x2789_a192, 0xb710_c621, 0x147c_ded3, 0xc17b_b9b1, 0x3718_c693, 0xef2d_c3f6, 0x44d9_2e53,
         0xcdfb_2d3d, 0x89e2_6864);
    Rotations(0x44d9_2e53, 0xee6f_d969, 0x9b25_ca60, 0x0000_0008, 0x9b25_ca68, 0x4000_0000, 0x3b9b_f65a, 0x7b9b_f65a);
    OpIs(43, 0x44d9_2e53, 0xee6f_d969, 0x89e2_6864, 0xb710_c621, 0x147c_ded3, 0xaf62_c861, 0xc1ee_4673, 0xb00f_74eb,
         0x9b25_ca68, 0x7b9b_f65a);
    Rotations(0xb00f_74eb, 0x44d9_2e53, 0x01ee_9d60, 0x0000_0016, 0x01ee_9d76, 0xc000_0000, 0x1136_4b94, 0xd136_4b94);
    OpIs(44, 0xb00f_74eb, 0x44d9_2e53, 0x7b9b_f65a, 0x89e2_6864, 0xb710_c621, 0x49db_6e52, 0x3147_5746, 0xc33d_e60b,
         0x01ee_9d76, 0xd136_4b94);
  }

  lemma Bits9()
    ensures Mix(45, 0xb00f_74eb, 0xd136_4b94, 0x7b9b_f65a) == 0xf11f_76da
    ensures Or(0x67bc_c160, 0x0000_0018) == 0x67bc_c178 && Or(0xc000_0000, 0x2c03_dd3a) == 0xec03_dd3a
    ensures Mix(46, 0xc33d_e60b, 0xec03_dd3a, 0xd136_4b94) == 0xc137_cf1a
    ensures Or(0xcf08_68c0, 0x0000_001d) == 0xcf08_68dd && Or(0xc000_0000, 0x30cf_7982) == 0xf0cf_7982
    ensures Mix(47, 0xee78_4346, 0xf0cf_7982, 0xec03_dd3a) == 0xec4b_5902
    ensures Or(0xc80c_38a0, 0x0000_0007) == 0xc80c_38a7 && Or(0x8000_0000, 0x3b9e_10d1) == 0xbb9e_10d1
    ensures Mix(48, 0x3e40_61c5, 0xbb9e_10d1, 0xf0cf_7982) == 0xbace_71c1
    ensures Or(0x666f_bb80, 0x0000_000d) == 0x666f_bb8d && Or(0x4000_0000, 0x0f90_1871) == 0x4f90_1871
    ensures Mix(49, 0x6b33_7ddc, 0x4f90_1871, 0xbb9e_10d1) == 0x6b92_18d1
    ensures Or(0x3d26_1540, 0x0000_0000) == 0x3d26_1540 && Or(0x0000_0000, 0x1acc_df77) == 0x1acc_df77
  {
  }

  lemma Five9()
    ensures FiveSteps(Regs(0xc33d_e60b, 0xb00f_74eb, 0xd136_4b94, 0x7b9b_f65a, 0x89e2_6864), 45,
                      Regs(0x1477_a3b1, 0x01e9_30aa, 0x1acc_df77, 0x4f90_1871, 0xbb9e_10d1))
  {
    hide Op, Mix, Or, RotateLeft, IsWord;
    BlockIs();
    Words11();
    Words12();
    Bits9();
    Rotations(0xc33d_e60b, 0xb00f_74eb, 0x67bc_c160, 0x0000_0018, 0x67bc_c178, 0xc000_0000, 0x2c03_dd3a, 0xec03_dd3a);
    OpIs(45, 0xc33d_e60b, 0xb00f_74eb, 0xd136_4b94, 0x7b9b_f65a, 0x89e2_6864, 0xf11f_76da, 0x7c9d_e5b4, 0xee78_4346,
         0x67bc_c178, 0xec03_dd3a);
    Rotations(0xee78_4346, 0xc33d_e60b, 0xcf08_68c0, 0x0000_001d, 0xcf08_68dd, 0xc000_0000, 0x30cf_7982, 0xf0cf_7982);
    OpIs(46, 0xee78_4346, 0xc33d_e60b, 0xec03_dd3a, 0xd136_4b94, 0x7b9b_f65a, 0xc137_cf1a, 0xa348_7698, 0x3e40_61c5,
         0xcf08_68dd, 0xf0cf_7982);
    Rotations(0x3e40_61c5, 0xee78_4346, 0xc80c_38a0, 0x0000_0007, 0xc80c_38a7, 0x8000_0000, 0x3b9e_10d1, 0xbb9e_10d1);
    OpIs(47, 0x3e40_61c5, 0xee78_4346, 0xf0cf_7982, 0xec03_dd3a, 0xd136_4b94, 0xec4b_5902, 0x5689_e3c3, 0x6b33_7ddc,
         0xc80c_38a7, 0xbb9e_10d1);
    Rotations(0x6b33_7ddc, 0x3e40_61c5, 0x666f_bb80, 0x0000_000d, 0x666f_bb8d, 0x4000_0000, 0x0f90_1871, 0x4f90_1871);
    OpIs(48, 0x6b33_7ddc, 0x3e40_61c5, 0xbb9e_10d1, 0xf0cf_7982, 0xec03_dd3a, 0xbace_71c1, 0x658b_6946, 0x01e9_30aa,
         0x666f_bb8d, 0x4f90_1871);
    Rotations(0x01e9_30aa, 0x6b33_7ddc, 0x3d26_1540, 0x0000_0000, 0x3d26_1540, 0x0000_0000, 0x1acc_df77, 0x1acc_df77);
    OpIs(49, 0x01e9_30aa, 0x6b33_7ddc, 0x4f90_1871, 0xbb9e_10d1, 0xf0cf_7982, 0x6b92_18d1, 0xebd4_3f42, 0x1477_a3b1,
         0x3d26_1540, 0x1acc_df77);
  }

  lemma Bits10()
    ensures Mix(50, 0x01e9_30aa, 0x1acc_df77, 0x4f90_1871) == 0x0bc8_1873
    ensures Or(0x8ef4_7620, 0x0000_0002) == 0x8ef4_7622 && Or(0x8000_0000, 0x007a_4c2a) == 0x807a_4c2a
    ensures Mix(51, 0x1477_a3b1, 0x807a_4c2a, 0x1acc_df77) == 0x107e_cf33
    ensures Or(0x6dcd_12e0, 0x0000_0018) == 0x6dcd_12f8 && Or(0x4000_0000, 0x051d_e8ec) == 0x451d_e8ec
    ensures Mix(52, 0xc36e_6897, 0x451d_e8ec, 0x807a_4c2a) == 0xc17e_68ae
    ensures Or(0x3961_4000, 0x0000_0008) == 0x3961_4008 && Or(0xc000_0000, 0x30db_9a25) == 0xf0db_9a25
    ensures Mix(53, 0x41cb_0a00, 0xf0db_9a25, 0x451d_e8ec) == 0x41db_8a24
    ensures Or(0x0ff4_2d80, 0x0000_001a) == 0x0ff4_2d9a && Or(0x0000_0000, 0x1072_c280) == 0x1072_c280
    ensures Mix(54, 0xd07f_a16c, 0x1072_c280, 0xf0db_9a25) == 0xd07b_8224
    ensures Or(0xaa8b_2540, 0x0000_001d) == 0xaa8b_255d && Or(0x0000_0000, 0x341f_e85b) == 0x341f_e85b
  {
  }

  lemma Five10()
    ensures FiveSteps(Regs(0x1477_a3b1, 0x01e9_30aa, 0x1acc_df77, 0x4f90_1871, 0xbb9e_10d1), 50,
                      Regs(0xa3de_9d68, 0xed54_592a, 0x341f_e85b, 0x1072_c280, 0xf0db_9a25))
  {
    hide Op, Mix, Or, RotateLeft, IsWord;
    BlockIs();
    Words12();
    Words13();
    Bits10();
    Rotations(0x1477_a3b1, 0x01e9_30aa, 0x8ef4_7620, 0x0000_0002, 0x8ef4_7622, 0x8000_0000, 0x007a_4c2a, 0x807a_4c2a);
    OpIs(50, 0x1477_a3b1, 0x01e9_30aa, 0x1acc_df77, 0x4f90_1871, 0xbb9e_10d1, 0x0bc8_1873, 0xddf8_0c55, 0xc36e_6897,
         0x8ef4_7622, 0x807a_4c2a);
    Rotations(0xc36e_6897, 0x1477_a3b1, 0x6dcd_12e0, 0x0000_0018, 0x6dcd_12f8, 0x4000_0000, 0x051d_e8ec, 0x451d_e8ec);
    OpIs(51, 0xc36e_6897, 0x1477_a3b1, 0x807a_4c2a, 0x1acc_df77, 0x4f90_1871, 0x107e_cf33, 0xe4d3_5288, 0x41cb_0a00,
         0x6dcd_12f8, 0x451d_e8ec);
    Rotations(0x41cb_0a00, 0xc36e_6897, 0x3961_4000, 0x0000_0008, 0x3961_4008, 0xc000_0000, 0x30db_9a25, 0xf0db_9a25);
    OpIs(52, 0x41cb_0a00, 0xc36e_6897, 0x451d_e8ec, 0x807a_4c2a, 0x1acc_df77, 0xc17e_68ae, 0x2bb7_5c63, 0xd07f_a16c,
         0x3961_4008, 0xf0db_9a25);
    Rotations(0xd07f_a16c, 0x41cb_0a00, 0x0ff4_2d80, 0x0000_001a, 0x0ff4_2d9a, 0x0000_0000, 0x1072_c280, 0x1072_c280);
    OpIs(53, 0xd07f_a16c, 0x41cb_0a00, 0xf0db_9a25, 0x451d_e8ec, 0x807a_4c2a, 0x41db_8a24, 0x8bee_9866, 0xed54_592a,
         0x0ff4_2d9a, 0x1072_c280);
    Rotations(0xed54_592a, 0xd07f_a16c, 0xaa8b_2540, 0x0000_001d, 0xaa8b_255d, 0x0000_0000, 0x341f_e85b, 0x341f_e85b);
    OpIs(54, 0xed54_592a, 0xd07f_a16c, 0x1072_c280, 0xf0db_9a25, 0x451d_e8ec, 0xd07b_8224, 0x549e_501f, 0xa3de_9d68,
         0xaa8b_255d, 0x341f_e85b);
  }

  lemma Bits11()
    ensures Mix(55, 0xed54_592a, 0x341f_e85b, 0x1072_c280) == 0x3456_c80a
    ensures Or(0x7bd3_ad00, 0x0000_0014) == 0x7bd3_ad14 && Or(0x8000_0000, 0x3b55_164a) == 0xbb55_164a
    ensures Mix(56, 0xa3de_9d68, 0xbb55_164a, 0x341f_e85b) == 0xb35f_9c4a
    ensures Or(0x61ee_9400, 0x0000_0003) == 0x61ee_9403 && Or(0x0000_0000, 0x28f7_a75a) == 0x28f7_a75a
    ensures Mix(57, 0x1b0f_74a0, 0x28f7_a75a, 0xbb55_164a) == 0x3b57_364a
    ensures Or(0x6a2e_70e0, 0x0000_0014) == 0x6a2e_70f4 && Or(0x0000_0000, 0x06c3_dd28) == 0x06c3_dd28
    ensures Mix(58, 0xa351_7387, 0x06c3_dd28, 0x28f7_a75a) == 0x22d3_f70a
    ensures Or(0x455d_c9c0, 0x0000_0004) == 0x455d_c9c4 && Or(0xc000_0000, 0x28d4_5ce1) == 0xe8d4_5ce1
    ensures Mix(59, 0x222a_ee4e, 0xe8d4_5ce1, 0x06c3_dd28) == 0x22c2_dc68
    ensures Or(0xb41e_97a0, 0x0000_0010) == 0xb41e_97b0 && Or(0x8000_0000, 0x088a_bb93) == 0x888a_bb93
  {
  }

  lemma Five11()
    ensures FiveSteps(Regs(0xa3de_9d68, 0xed54_592a, 0x341f_e85b, 0x1072_c280, 0xf0db_9a25), 55,
                      Regs(0xfe9d_3d71, 0x85a0_f4bd, 0x888a_bb93, 0xe8d4_5ce1, 0x06c3_dd28))
  {
    hide Op, Mix, Or, RotateLeft, IsWord;
    BlockIs();
    Words13();
    Words14();
    Bits11();
    Rotations(0xa3de_9d68, 0xed54_592a, 0x7bd3_ad00, 0x0000_0014, 0x7bd3_ad14, 0x8000_0000, 0x3b55_164a, 0xbb55_164a);
    OpIs(55, 0xa3de_9d68, 0xed54_592a, 0x341f_e85b, 0x1072_c280, 0xf0db_9a25, 0x3456_c80a, 0xeaed_a881, 0x1b0f_74a0,
         0x7bd3_ad14, 0xbb55_164a);
    Rotations(0x1b0f_74a0, 0xa3de_9d68, 0x61ee_9400, 0x0000_0003, 0x61ee_9403, 0x0000_0000, 0x28f7_a75a, 0x28f7_a75a);
    OpIs(56, 0x1b0f_74a0, 0xa3de_9d68, 0xbb55_164a, 0x341f_e85b, 0x1072_c280, 0xb35f_9c4a, 0xee74_c3de, 0xa351_7387,
         0x61ee_9403, 0x28f7_a75a);
    Rotations(0xa351_7387, 0x1b0f_74a0, 0x6a2e_70e0, 0x0000_0014, 0x6a2e_70f4, 0x0000_0000, 0x06c3_dd28, 0x06c3_dd28);
    OpIs(57, 0xa351_7387, 0x1b0f_74a0, 0x28f7_a75a, 0xbb55_164a, 0x341f_e85b, 0x3b57_364a, 0xb969_a1d9, 0x222a_ee4e,
         0x6a2e_70f4, 0x06c3_dd28);
    Rotations(0x222a_ee4e, 0xa351_7387, 0x455d_c9c0, 0x0000_0004, 0x455d_c9c4, 0xc000_0000, 0x28d4_5ce1, 0xe8d4_5ce1);
    OpIs(58, 0x222a_ee4e, 0xa351_7387, 0x06c3_dd28, 0x28f7_a75a, 0xbb55_164a, 0x22d3_f70a, 0xd2fe_60c9, 0x85a0_f4bd,
         0x455d_c9c4, 0xe8d4_5ce1);
    Rotations(0x85a0_f4bd, 0x222a_ee4e, 0xb41e_97a0, 0x0000_0010, 0xb41e_97b0, 0x8000_0000, 0x088a_bb93, 0x888a_bb93);
    OpIs(59, 0x85a0_f4bd, 0x222a_ee4e, 0xe8d4_5ce1, 0x06c3_dd28, 0x28f7_a75a, 0x22c2_dc68, 0x6fa8_6523, 0xfe9d_3d71,
         0xb41e_97b0, 0x888a_bb93);
  }

  lemma Bits12()
    ensures Mix(60, 0x85a0_f4bd, 0x888a_bb93, 0xe8d4_5ce1) == 0xe5fe_13cf
    ensures Or(0xd3a7_ae20, 0x0000_001f) == 0xd3a7_ae3f && Or(0x4000_0000, 0x2168_3d2f) == 0x6168_3d2f
    ensures Mix(61, 0xfe9d_3d71, 0x6168_3d2f, 0x888a_bb93) == 0x177f_bbcd
    ensures Or(0x8e03_3a80, 0x0000_0011) == 0x8e03_3a91 && Or(0x4000_0000, 0x3fa7_4f5c) == 0x7fa7_4f5c
    ensures Mix(62, 0x8c70_19d4, 0x7fa7_4f5c, 0x6168_3d2f) == 0x92bf_6ba7
    ensures Or(0xd882_58a0, 0x0000_0007) == 0xd882_58a7 && Or(0x0000_0000, 0x231c_0675) == 0x231c_0675
    ensures Mix(63, 0x3ec4_12c5, 0x231c_0675, 0x7fa7_4f5c) == 0x627f_5bec
    ensures Or(0x4332_ef80, 0x0000_0017) == 0x4332_ef97 && Or(0x4000_0000, 0x0fb1_04b1) == 0x4fb1_04b1
    ensures Mix(64, 0xba19_977c, 0x4fb1_04b1, 0x231c_0675) == 0xd6b4_95b8
    ensures Or(0xb49c_8300, 0x0000_000f) == 0xb49c_830f && Or(0x0000_0000, 0x2e86_65df) == 0x2e86_65df
  {
  }

  lemma Five12()
    ensures FiveSteps(Regs(0xfe9d_3d71, 0x85a0_f4bd, 0x888a_bb93, 0xe8d4_5ce1, 0x06c3_dd28), 60,
                      Regs(0x3577_e0f4, 0x7da4_e418, 0x2e86_65df, 0x4fb1_04b1, 0x231c_0675))
  {
    hide Op, Mix, Or, RotateLeft, IsWord;
    BlockIs();
    Words15();
    Words16();
    Bits12();
    Rotations(0xfe9d_3d71, 0x85a0_f4bd, 0xd3a7_ae20, 0x0000_001f, 0xd3a7_ae3f, 0x4000_0000, 0x2168_3d2f, 0x6168_3d2f);
    OpIs(60, 0xfe9d_3d71, 0x85a0_f4bd, 0x888a_bb93, 0xe8d4_5ce1, 0x06c3_dd28, 0xe5fe_13cf, 0x01a3_b8c8, 0x8c70_19d4,
         0xd3a7_ae3f, 0x6168_3d2f);
    Rotations(0x8c70_19d4, 0xfe9d_3d71, 0x8e03_3a80, 0x0000_0011, 0x8e03_3a91, 0x4000_0000, 0x3fa7_4f5c, 0x7fa7_4f5c);
    OpIs(61, 0x8c70_19d4, 0xfe9d_3d71, 0x6168_3d2f, 0x888a_bb93, 0xe8d4_5ce1, 0x177f_bbcd, 0xe609_fdb0, 0x3ec4_12c5,
         0x8e03_3a91, 0x7fa7_4f5c);
    Rotations(0x3ec4_12c5, 0x8c70_19d4, 0xd882_58a0, 0x0000_0007, 0xd882_58a7, 0x0000_0000, 0x231c_0675, 0x231c_0675);
    OpIs(62, 0x3ec4_12c5, 0x8c70_19d4, 0x7fa7_4f5c, 0x6168_3d2f, 0x888a_bb93, 0x92bf_6ba7, 0xfbea_55c5, 0xba19_977c,
         0xd882_58a7, 0x231c_0675);
    Rotations(0xba19_977c, 0x3ec4_12c5, 0x4332_ef80, 0x0000_0017, 0x4332_ef97, 0x4000_0000, 0x0fb1_04b1, 0x4fb1_04b1);
    OpIs(63, 0xba19_977c, 0x3ec4_12c5, 0x231c_0675, 0x7fa7_4f5c, 0x6168_3d2f, 0x627f_5bec, 0xac27_9990, 0x7da4_e418,
         0x4332_ef97, 0x4fb1_04b1);
    Rotations(0x7da4_e418, 0xba19_977c, 0xb49c_8300, 0x0000_000f, 0xb49c_830f, 0x0000_0000, 0x2e86_65df, 0x2e86_65df);
    OpIs(64, 0x7da4_e418, 0xba19_977c, 0x4fb1_04b1, 0x231c_0675, 0x7fa7_4f5c, 0xd6b4_95b8, 0x601c_b6fb, 0x3577_e0f4,
         0xb49c_830f, 0x2e86_65df);
  }

  lemma Bits13()
    ensures Mix(65, 0x7da4_e418, 0x2e86_65df, 0x4fb1_04b1) == 0x1c93_8576
    ensures Or(0xaefc_1e80, 0x0000_0006) == 0xaefc_1e86 && Or(0x0000_0000, 0x1f69_3906) == 0x1f69_3906
    ensures Mix(66, 0x3577_e0f4, 0x1f69_3906, 0x2e86_65df) == 0x0498_bc2d
    ensures Or(0x82f3_fe60, 0x0000_000a) == 0x82f3_fe6a && Or(0x0000_0000, 0x0d5d_f83d) == 0x0d5d_f83d
    ensures Mix(67, 0x5417_9ff3, 0x0d5d_f83d, 0x1f69_3906) == 0x4623_5ec8
    ensures Or(0x59ba_7fa0, 0x0000_0016) == 0x59ba_7fb6 && Or(0xc000_0000, 0x1505_e7fc) == 0xd505_e7fc
    ensures Mix(68, 0xb2cd_d3fd, 0xd505_e7fc, 0x0d5d_f83d) == 0x6a95_cc3c
    ensures Or(0x3b27_13e0, 0x0000_000b) == 0x3b27_13eb && Or(0x4000_0000, 0x2cb3_74ff) == 0x6cb3_74ff
    ensures Mix(69, 0x59d9_389f, 0x6cb3_74ff, 0xd505_e7fc) == 0xe06f_ab9c
    ensures Or(0x51fd_2680, 0x0000_000b) == 0x51fd_268b && Or(0xc000_0000, 0x1676_4e27) == 0xd676_4e27
  {
  }

  lemma Five13()
    ensures FiveSteps(Regs(0x3577_e0f4, 0x7da4_e418, 0x2e86_65df, 0x4fb1_04b1, 0x231c_0675), 65,
                      Regs(0x367c_cb4b, 0x5a8f_e934, 0xd676_4e27, 0x6cb3_74ff, 0xd505_e7fc))
  {
    hide Op, Mix, Or, RotateLeft, IsWord;
    BlockIs();
    Words16();
    Words17();
    Bits13();
    Rotations(0x3577_e0f4, 0x7da4_e418, 0xaefc_1e80, 0x0000_0006, 0xaefc_1e86, 0x0000_0000, 0x1f69_3906, 0x1f69_3906);
    OpIs(65, 0x3577_e0f4, 0x7da4_e418, 0x2e86_65df, 0x4fb1_04b1, 0x231c_0675, 0x1c93_8576, 0x9b09_33ac, 0x5417_9ff3,
         0xaefc_1e86, 0x1f69_3906);
    Rotations(0x5417_9ff3, 0x3577_e0f4, 0x82f3_fe60, 0x0000_000a, 0x82f3_fe6a, 0x0000_0000, 0x0d5d_f83d, 0x0d5d_f83d);
    OpIs(66, 0x5417_9ff3, 0x3577_e0f4, 0x1f69_3906, 0x2e86_65df, 0x4fb1_04b1, 0x0498_bc2d, 0x112d_52df, 0xb2cd_d3fd,
         0x82f3_fe6a, 0x0d5d_f83d);
    Rotations(0xb2cd_d3fd, 0x5417_9ff3, 0x59ba_7fa0, 0x0000_0016, 0x59ba_7fb6, 0xc000_0000, 0x1505_e7fc, 0xd505_e7fc);
    OpIs(67, 0xb2cd_d3fd, 0x5417_9ff3, 0x0d5d_f83d, 0x1f69_3906, 0x2e86_65df, 0x4623_5ec8, 0xc112_326c, 0x59d9_389f,
         0x59ba_7fb6, 0xd505_e7fc);
    Rotations(0x59d9_389f, 0xb2cd_d3fd, 0x3b27_13e0, 0x0000_000b, 0x3b27_13eb, 0x4000_0000, 0x2cb3_74ff, 0x6cb3_74ff);
    OpIs(68, 0x59d9_389f, 0xb2cd_d3fd, 0xd505_e7fc, 0x0d5d_f83d, 0x1f69_3906, 0x6a95_cc3c, 0xcb07_0e31, 0x5a8f_e934,
         0x3b27_13eb, 0x6cb3_74ff);
    Rotations(0x5a8f_e934, 0x59d9_389f, 0x51fd_2680, 0x0000_000b, 0x51fd_268b, 0xc000_0000, 0x1676_4e27, 0xd676_4e27);
    OpIs(69, 0x5a8f_e934, 0x59d9_389f, 0x6cb3_74ff, 0xd505_e7fc, 0x0d5d_f83d, 0xe06f_ab9c, 0x2c4f_3f11, 0x367c_cb4b,
         0x51fd_268b, 0xd676_4e27);
  }

  lemma Bits14()
    ensures Mix(70, 0x5a8f_e934, 0xd676_4e27, 0x6cb3_74ff) == 0xe04a_d3ec
    ensures Or(0xcf99_6960, 0x0000_0006) == 0xcf99_6966 && Or(0x0000_0000, 0x16a3_fa4d) == 0x16a3_fa4d
    ensures Mix(71, 0x367c_cb4b, 0x16a3_fa4d, 0xd676_4e27) == 0xf6a9_7f21
    ensures Or(0xee59_fea0, 0x0000_0009) == 0xee59_fea9 && Or(0xc000_0000, 0x0d9f_32d2) == 0xcd9f_32d2
    ensures Mix(72, 0x4f72_cff5, 0xcd9f_32d2, 0x16a3_fa4d) == 0x944e_076a
    ensures Or(0xac5e_5220, 0x0000_0010) == 0xac5e_5230 && Or(0x4000_0000, 0x13dc_b3fd) == 0x53dc_b3fd
    ensures Mix(73, 0x8562_f291, 0x53dc_b3fd, 0xcd9f_32d2) == 0x1b21_73be
    ensures Or(0x66f7_f220, 0x0000_0018) == 0x66f7_f238 && Or(0x4000_0000, 0x2158_bca4) == 0x6158_bca4
    ensures Mix(74, 0xc337_bf91, 0x6158_bca4, 0x53dc_b3fd) == 0xf1b3_b0c8
    ensures Or(0xdf4c_24e0, 0x0000_001f) == 0xdf4c_24ff && Or(0x4000_0000, 0x30cd_efe4) == 0x70cd_efe4
  {
  }

  lemma Five14()
    ensures FiveSteps(Regs(0x367c_cb4b, 0x5a8f_e934, 0xd676_4e27, 0x6cb3_74ff, 0xd505_e7fc), 70,
                      Regs(0xbf75_38c8, 0xfefa_6127, 0x70cd_efe4, 0x6158_bca4, 0x53dc_b3fd))
  {
    hide Op, Mix, Or, RotateLeft, IsWord;
    BlockIs();
    Words17();
    Words18();
    Bits14();
    Rotations(0x367c_cb4b, 0x5a8f_e934, 0xcf99_6960, 0x0000_0006, 0xcf99_6966, 0x0000_0000, 0x16a3_fa4d, 0x16a3_fa4d);
    OpIs(70, 0x367c_cb4b, 0x5a8f_e934, 0xd676_4e27, 0x6cb3_74ff, 0xd505_e7fc, 0xe04a_d3ec, 0x0025_e8d1, 0x4f72_cff5,
         0xcf99_6966, 0x16a3_fa4d);
    Rotations(0x4f72_cff5, 0x367c_cb4b, 0xee59_fea0, 0x0000_0009, 0xee59_fea9, 0xc000_0000, 0x0d9f_32d2, 0xcd9f_32d2);
    OpIs(71, 0x4f72_cff5, 0x367c_cb4b, 0x16a3_fa4d, 0xd676_4e27, 0x6cb3_74ff, 0xf6a9_7f21, 0x6949_3df2, 0x8562_f291,
         0xee59_fea9, 0xcd9f_32d2);
    Rotations(0x8562_f291, 0x4f72_cff5, 0xac5e_5220, 0x0000_0010, 0xac5e_5230, 0x4000_0000, 0x13dc_b3fd, 0x53dc_b3fd);
    OpIs(72, 0x8562_f291, 0x4f72_cff5, 0xcd9f_32d2, 0x16a3_fa4d, 0xd676_4e27, 0x944e_076a, 0xe1b2_55fa, 0xc337_bf91,
         0xac5e_5230, 0x53dc_b3fd);
    Rotations(0xc337_bf91, 0x8562_f291, 0x66f7_f220, 0x0000_0018, 0x66f7_f238, 0x4000_0000, 0x2158_bca4, 0x6158_bca4);
    OpIs(73, 0xc337_bf91, 0x8562_f291, 0x53dc_b3fd, 0xcd9f_32d2, 0x16a3_fa4d, 0x1b21_73be, 0x9bda_3f0e, 0xfefa_6127,
         0x66f7_f238, 0x6158_bca4);
    Rotations(0xfefa_6127, 0xc337_bf91, 0xdf4c_24e0, 0x0000_001f, 0xdf4c_24ff, 0x4000_0000, 0x30cd_efe4, 0x70cd_efe4);
    OpIs(74, 0xfefa_6127, 0xc337_bf91, 0x6158_bca4, 0x53dc_b3fd, 0xcd9f_32d2, 0xf1b3_b0c8, 0x5673_6e59, 0xbf75_38c8,
         0xdf4c_24ff, 0x70cd_efe4);
  }

  lemma Bits15()
    ensures Mix(75, 0xfefa_6127, 0x70cd_efe4, 0x6158_bca4) == 0xef6f_3267
    ensures Or(0xeea7_1900, 0x0000_0017) == 0xeea7_1917 && Or(0xc000_0000, 0x3fbe_9849) == 0xffbe_9849
    ensures Mix(76, 0xbf75_38c8, 0xffbe_9849, 0x70cd_efe4) == 0x3006_4f65
    ensures Or(0xcb37_eb80, 0x0000_0009) == 0xcb37_eb89 && Or(0x0000_0000, 0x2fdd_4e32) == 0x2fdd_4e32
    ensures Mix(77, 0x4e59_bf5c, 0x2fdd_4e32, 0xffbe_9849) == 0x9e3a_6927
    ensures Or(0x846e_39a0, 0x0000_000f) == 0x846e_39af && Or(0x0000_0000, 0x1396_6fd7) == 0x1396_6fd7
    ensures Mix(78, 0x7c23_71cd, 0x1396_6fd7, 0x2fdd_4e32) == 0x4068_5028
    ensures Or(0xbfb7_ec00, 0x0000_0017) == 0xbfb7_ec17 && Or(0x4000_0000, 0x1f08_dc73) == 0x5f08_dc73
    ensures Mix(79, 0xbdfd_bf60, 0x5f08_dc73, 0x1396_6fd7) == 0xf163_0cc4
    ensures Or(0xbc70_44e0, 0x0000_000b) == 0xbc70_44eb && Or(0x0000_0000, 0x2f7f_6fd8) == 0x2f7f_6fd8
  {
  }

  lemma Five15()
    ensures FiveSteps(Regs(0xbf75_38c8, 0xfefa_6127, 0x70cd_efe4, 0x6158_bca4, 0x53dc_b3fd), 75,
                      Regs(0xbeaf_c10d, 0x5de3_8227, 0x2f7f_6fd8, 0x5f08_dc73, 0x1396_6fd7))
  {
    hide Op, Mix, Or, RotateLeft, IsWord;
    BlockIs();
    Words18();
    Words19();
    Bits15();
    Rotations(0xbf75_38c8, 0xfefa_6127, 0xeea7_1900, 0x0000_0017, 0xeea7_1917, 0xc000_0000, 0x3fbe_9849, 0xffbe_9849);
    OpIs(75, 0xbf75_38c8, 0xfefa_6127, 0x70cd_efe4, 0x6158_bca4, 0x53dc_b3fd, 0xef6f_3267, 0x5203_fe0b, 0x4e59_bf5c,
         0xeea7_1917, 0xffbe_9849);
    Rotations(0x4e59_bf5c, 0xbf75_38c8, 0xcb37_eb80, 0x0000_0009, 0xcb37_eb89, 0x0000_0000, 0x2fdd_4e32, 0x2fdd_4e32);
    OpIs(76, 0x4e59_bf5c, 0xbf75_38c8, 0xffbe_9849, 0x70cd_efe4, 0x6158_bca4, 0x3006_4f65, 0x5529_b865, 0x7c23_71cd,
         0xcb37_eb89, 0x2fdd_4e32);
    Rotations(0x7c23_71cd, 0x4e59_bf5c, 0x846e_39a0, 0x0000_000f, 0x846e_39af, 0x0000_0000, 0x1396_6fd7, 0x1396_6fd7);
    OpIs(77, 0x7c23_71cd, 0x4e59_bf5c, 0x2fdd_4e32, 0xffbe_9849, 0x70cd_efe4, 0x9e3a_6927, 0x6024_6ad0, 0xbdfd_bf60,
         0x846e_39af, 0x1396_6fd7);
    Rotations(0xbdfd_bf60, 0x7c23_71cd, 0xbfb7_ec00, 0x0000_0017, 0xbfb7_ec17, 0x4000_0000, 0x1f08_dc73, 0x5f08_dc73);
    OpIs(78, 0xbdfd_bf60, 0x7c23_71cd, 0x1396_6fd7, 0x2fdd_4e32, 0xffbe_9849, 0x4068_5028, 0x93a1_ebc9, 0x5de3_8227,
         0xbfb7_ec17, 0x5f08_dc73);
    Rotations(0x5de3_8227, 0xbdfd_bf60, 0xbc70_44e0, 0x0000_000b, 0xbc70_44eb, 0x0000_0000, 0x2f7f_6fd8, 0x2f7f_6fd8);
    OpIs(79, 0x5de3_8227, 0xbdfd_bf60, 0x5f08_dc73, 0x1396_6fd7, 0x2fdd_4e32, 0xf163_0cc4, 0x169c_5f56, 0xbeaf_c10d,
         0xbc70_44eb, 0x2f7f_6fd8);
  }

  lemma AllSteps()
    ensures Reached(16, Regs(0xbeaf_c10d, 0x5de3_8227, 0x2f7f_6fd8, 0x5f08_dc73, 0x1396_6fd7))
  {
    hide Five, Fives, FiveSteps;
    BlockIs();
    FivesNext(BLOCK, INIT, 0);
    Five0();
    NextFive(0, Regs(0x6745_2301, 0xefcd_ab89, 0x98ba_dcfe, 0x1032_5476, 0xc3d2_e1f0),
             Regs(0xc8f0_03ec, 0x5244_aa3a, 0x3caa_dd37, 0x72b4_a4d4, 0xf83d_b6fd));
    Five1();
    NextFive(1, Regs(0xc8f0_03ec, 0x5244_aa3a, 0x3caa_dd37, 0x72b4_a4d4, 0xf83d_b6fd),
             Regs(0xe9f0_4370, 0x9c22_0b66, 0xec1e_eab1, 0x2d07_ab8b, 0x7db1_e49f));
    Five2();
    NextFive(2, Regs(0xe9f0_4370, 0x9c22_0b66, 0xec1e_eab1, 0x2d07_ab8b, 0x7db1_e49f),
             Regs(0x39ef_5e43, 0x92c2_1cf7, 0xd2a8_13b6, 0x7daa_94dc, 0x0cad_3a1c));
    Five3();
    NextFive(3, Regs(0x39ef_5e43, 0x92c2_1cf7, 0xd2a8_13b6, 0x7daa_94dc, 0x0cad_3a1c),
             Regs(0x6154_774b, 0xcffc_2168, 0xbda5_7a0e, 0x847c_6410, 0xa931_03a4));
    Five4();
    NextFive(4, Regs(0x6154_774b, 0xcffc_2168, 0xbda5_7a0e, 0x847c_6410, 0xa931_03a4),
             Regs(0x5350_97c3, 0x8fc7_e32b, 0x7859_4cb4, 0x8e83_d906, 0x2b0c_06da));
    Five5();
    NextFive(5, Regs(0x5350_97c3, 0x8fc7_e32b, 0x7859_4cb4, 0x8e83_d906, 0x2b0c_06da),
             Regs(0x14a6_aba6, 0xbd13_00d6, 0xd090_e355, 0x735c_6d2b, 0x5a0d_8c67));
    Five6();
    NextFive(6, Regs(0x14a6_aba6, 0xbd13_00d6, 0xd090_e355, 0x735c_6d2b, 0x5a0d_8c67),
             Regs(0x3b21_ee73, 0xc9d8_db12, 0x9c74_68d8, 0xb2de_d34d, 0x4b43_46ab));
    Five7();
    NextFive(7, Regs(0x3b21_ee73, 0xc9d8_db12, 0x9c74_68d8, 0xb2de_d34d, 0x4b43_46ab),
             Regs(0xdc43_1886, 0x51f3_7b4c, 0xc17b_b9b1, 0xf793_57f4, 0xc7a5_04ae));
    Five8();
    NextFive(8, Regs(0xdc43_1886, 0x51f3_7b4c, 0xc17b_b9b1, 0xf793_57f4, 0xc7a5_04ae),
             Regs(0xc33d_e60b, 0xb00f_74eb, 0xd136_4b94, 0x7b9b_f65a, 0x89e2_6864));
    Five9();
    NextFive(9, Regs(0xc33d_e60b, 0xb00f_74eb, 0xd136_4b94, 0x7b9b_f65a, 0x89e2_6864),
             Regs(0x1477_a3b1, 0x01e9_30aa, 0x1acc_df77, 0x4f90_1871, 0xbb9e_10d1));
    Five10();
    NextFive(10, Regs(0x1477_a3b1, 0x01e9_30aa, 0x1acc_df77, 0x4f90_1871, 0xbb9e_10d1),
             Regs(0xa3de_9d68, 0xed54_592a, 0x341f_e85b, 0x1072_c280, 0xf0db_9a25));
    Five11();
    NextFive(11, Regs(0xa3de_9d68, 0xed54_592a, 0x341f_e85b, 0x1072_c280, 0xf0db_9a25),
             Regs(0xfe9d_3d71, 0x85a0_f4bd, 0x888a_bb93, 0xe8d4_5ce1, 0x06c3_dd28));
    Five12();
    NextFive(12, Regs(0xfe9d_3d71, 0x85a0_f4bd, 0x888a_bb93, 0xe8d4_5ce1, 0x06c3_dd28),
             Regs(0x3577_e0f4, 0x7da4_e418, 0x2e86_65df, 0x4fb1_04b1, 0x231c_0675));
    Five13();
    NextFive(13, Regs(0x3577_e0f4, 0x7da4_e418, 0x2e86_65df, 0x4fb1_04b1, 0x231c_0675),
             Regs(0x367c_cb4b, 0x5a8f_e934, 0xd676_4e27, 0x6cb3_74ff, 0xd505_e7fc));
    Five14();
    NextFive(14, Regs(0x367c_cb4b, 0x5a8f_e934, 0xd676_4e27, 0x6cb3_74ff, 0xd505_e7fc),
             Regs(0xbf75_38c8, 0xfefa_6127, 0x70cd_efe4, 0x6158_bca4, 0x53dc_b3fd));
    Five15();
    NextFive(15, Regs(0xbf75_38c8, 0xfefa_6127, 0x70cd_efe4, 0x6158_bca4, 0x53dc_b3fd),
             Regs(0xbeaf_c10d, 0x5de3_8227, 0x2f7f_6fd8, 0x5f08_dc73, 0x1396_6fd7));
  }

  lemma BeIs(n: nat, a: byte, b: byte, c: byte, d: byte)
    requires n == Word(d, c, b, a)
    ensures Be32(n) == [a, b, c, d]
  {
    WordDigits(d, c, b, a);
  }

  lemma OutputIs()
    ensures Output(Regs(0x25f4_e40e, 0x4db1_2db0, 0xc83a_4cd6, 0x6f3b_30e9, 0xd769_51c7)) == [
      0x25, 0xf4, 0xe4, 0xe, 0x4d, 0xb1, 0x2d, 0xb0, 0xc8, 0x3a, 0x4c, 0xd6, 0x6f, 0x3b, 0x30, 0xe9, 0xd7, 0x69,
      0x51, 0xc7
    ]
  {
    hide Be32;
    BeIs(0x25f4_e40e, 0x25, 0xf4, 0xe4, 0xe);
    BeIs(0x4db1_2db0, 0x4d, 0xb1, 0x2d, 0xb0);
    BeIs(0xc83a_4cd6, 0xc8, 0x3a, 0x4c, 0xd6);
    BeIs(0x6f3b_30e9, 0x6f, 0x3b, 0x30, 0xe9);
    BeIs(0xd769_51c7, 0xd7, 0x69, 0x51, 0xc7);
  }

  /** The digest of a message that gives every word of its block another value. */
  lemma KnownDigest()
    ensures Digest(MESSAGE) == [
      0x25, 0xf4, 0xe4, 0xe, 0x4d, 0xb1, 0x2d, 0xb0, 0xc8, 0x3a, 0x4c, 0xd6, 0x6f, 0x3b, 0x30, 0xe9, 0xd7, 0x69,
      0x51, 0xc7
    ]
  {
    hide Fives, Padded, Output, Absorb;
    BlockIs();
    AllSteps();
    AbsorbBlock(Compress, INIT, BLOCK);
    OutputIs();
  }

  /** The length field is the number of message bits modulo 2^64, the most significant byte first. */
  lemma LengthIs(n: nat)
    ensures M32 * GetBe32(LengthBytes(n)[..4]) + GetBe32(LengthBytes(n)[4..]) == 8 * n % M64
  {
    hide Be32, GetBe32;
    assert LengthBytes(n)[..4] == Be32(8 * n / M32) && LengthBytes(n)[4..] == Be32(8 * n);
    WordRoundTrip(8 * n / M32);
    WordRoundTrip(8 * n);
    TwoWords(8 * n);
  }
}
