/** The CRC in numbers: the residue that RFC 1952 relies on, and its check value. */
module Crc32Known {
  import opened Bytes
  import opened BitSeqs
  import Words
  import opened WordBits
  import opened Crc32

  /** The register that holds a number. */
  function Holds(n: Words.word): Reg { BitsOf(n, 32) }

  lemma HoldsBit(n: Words.word, k: nat)
    requires k < 32
    ensures Holds(n)[k] == BitOf(n, k)
  {
    BitAt(n, 32, k);
  }

  // ------------------------------------------------------------ division steps on numbers

  function HalfN(n: Words.word): Words.word { if n % 2 == 1 then Words.Xor(n / 2, 0xEDB8_8320) else n / 2 }

  lemma ShiftedBit(n: Words.word, k: nat)
    requires k < 32
    ensures BitOf(n / 2, k) == (k < 31 && BitOf(n, k + 1))
  {
    if k == 31 {
      BitByDivision(n / 2, 31);
      Powers();
    }
  }

  /** What the polynomial adds to bit `k`. */
  lemma PolyBit(k: nat)
    requires k < 32
    ensures POLY[k] == BitOf(0xEDB8_8320, k)
  {
    hide BitsOf, BitOf;
    PolyIs();
    BitAt(0xEDB8_8320, 32, k);
  }

  lemma HalfBitIs(c: Reg, k: nat)
    requires k < 32
    ensures Half(c)[k] == ((k < 31 && c[k + 1]) != (c[0] && POLY[k]))
  {
    hide POLY;
  }

  lemma HalfIs(n: Words.word)
    ensures Half(Holds(n)) == Holds(HalfN(n))
  {
    hide BitsOf, BitOf, Words.Xor, POLY, Half, Holds;
    forall k: nat | k < 32 ensures Half(Holds(n))[k] == Holds(HalfN(n))[k] {
      HalfBitIs(Holds(n), k);
      HoldsBit(n, 0);
      LowestBit(n);
      if k < 31 { HoldsBit(n, k + 1); }
      HoldsBit(HalfN(n), k);
      ShiftedBit(n, k);
      PolyBit(k);
      XorBits(n / 2, 0xEDB8_8320, k);
    }
  }

  lemma LowestBit(n: nat)
    ensures BitOf(n, 0) == (n % 2 == 1)
  {
  }

  /** Eight division steps. */
  predicate Eight(n: Words.word, r: Words.word) { Roll(Holds(n), 8) == Holds(r) }

  lemma EightSteps(a: Words.word, b: Words.word, c: Words.word, d: Words.word, e: Words.word, f: Words.word,
                   g: Words.word, h: Words.word, i: Words.word)
    requires b == HalfN(a) && c == HalfN(b) && d == HalfN(c) && e == HalfN(d)
    requires f == HalfN(e) && g == HalfN(f) && h == HalfN(g) && i == HalfN(h)
    ensures Eight(a, i)
  {
    hide Holds, HalfN, Half, Roll;
    HalfIs(a);
    HalfIs(b);
    HalfIs(c);
    HalfIs(d);
    HalfIs(e);
    HalfIs(f);
    HalfIs(g);
    HalfIs(h);
    RollNext(Holds(a), 8);
    RollNext(Holds(b), 7);
    RollNext(Holds(c), 6);
    RollNext(Holds(d), 5);
    RollNext(Holds(e), 4);
    RollNext(Holds(f), 3);
    RollNext(Holds(g), 2);
    RollNext(Holds(h), 1);
    RollNone(Holds(i));
  }

  /** The register after one message byte. */
  predicate Fed(n: Words.word, b: byte, r: Words.word) { Feed(Holds(n), BitsOf(b, 8)) == Holds(r) }

  lemma OneByte(n: Words.word, b: byte, x: Words.word, r: Words.word)
    requires x == Words.Xor(n, b) && Eight(x, r)
    ensures Fed(n, b, r)
  {
    hide BitsOf, BitOf, Words.Xor, Roll, Holds;
    var bits := BitsOf(b, 8);
    FeedRoll(Holds(n), bits);
    forall k: nat | k < 32 ensures Xor(Holds(n), Wide(bits))[k] == Holds(x)[k] {
      HoldsBit(n, k);
      HoldsBit(x, k);
      XorBits(n, b, k);
      SmallBit(b, k);
    }
    assert Xor(Holds(n), Wide(bits)) == Holds(x);
  }

  lemma SmallBit(b: byte, k: nat)
    requires k < 32
    ensures BitOf(b, k) == (k < 8 && BitsOf(b, 8)[k])
  {
    if k < 8 {
      BitAt(b, 8, k);
    } else {
      hide BitOf;
      BitByDivision(b, k);
      PowerGrows(8, k);
      EightBits();
      SmallQuotient(b, Power2(k));
    }
  }

  lemma SmallQuotient(b: byte, p: nat)
    requires p >= 256
    ensures b / p == 0
  {
  }

  // ------------------------------------------------------------ the check value

  /** The register after `m`, starting with all ones. */
  predicate After(m: seq<byte>, r: Words.word) { Raw(Not(ZERO), m) == Holds(r) }

  lemma NextByte(m: seq<byte>, b: byte, n: Words.word, r: Words.word)
    requires After(m, n) && Fed(n, b, r)
    ensures After(m + [b], r)
  {
    hide BitsOf, Holds, Feed;
    MessageConcat(m, [b]);
    FeedConcat(Not(ZERO), MessageBits(m), MessageBits([b]));
    MessageByte(b);
  }

  lemma MessageByte(b: byte)
    ensures MessageBits([b]) == BitsOf(b, 8)
  {
    hide BitsOf;
    assert [b][1..] == [];
    assert MessageBits([]) == [] && BitsOf(b, 8) + [] == BitsOf(b, 8);
  }

  lemma Digit1()
    ensures Fed(0xffff_ffff, 0x31, 0x7c23_1048)
  {
    hide Eight, Fed;
    EightSteps(0xffff_ffce, 0x7fff_ffe7, 0xd247_7cd3, 0x849b_3d49, 0xaff5_1d84,
               0x57fa_8ec2, 0x2bfd_4761, 0xf846_2090, 0x7c23_1048);
    OneByte(0xffff_ffff, 0x31, 0xffff_ffce, 0x7c23_1048);
  }

  lemma Digit2()
    ensures Fed(0x7c23_1048, 0x32, 0xb0ac_bb32)
  {
    hide Eight, Fed;
    EightSteps(0x7c23_107a, 0x3e11_883d, 0xf2b0_473e, 0x7958_239f, 0xd114_92ef,
               0x8532_ca57, 0xaf21_e60b, 0xba28_7025, 0xb0ac_bb32);
    OneByte(0x7c23_1048, 0x32, 0x7c23_107a, 0xb0ac_bb32);
  }

  lemma Digit3()
    ensures Fed(0xb0ac_bb32, 0x33, 0x77b7_9c2d)
  {
    hide Eight, Fed;
    EightSteps(0xb0ac_bb01, 0xb5ee_dea0, 0x5af7_6f50, 0x2d7b_b7a8, 0x16bd_dbd4,
               0x0b5e_edea, 0x05af_76f5, 0xef6f_385a, 0x77b7_9c2d);
    OneByte(0xb0ac_bb32, 0x33, 0xb0ac_bb01, 0x77b7_9c2d);
  }

  lemma Digit4()
    ensures Fed(0x77b7_9c2d, 0x34, 0x641c_1f5c)
  {
    hide Eight, Fed;
    EightSteps(0x77b7_9c19, 0xd663_4d2c, 0x6b31_a696, 0x3598_d34b, 0xf774_ea85,
               0x9602_f662, 0x4b01_7b31, 0xc838_3eb8, 0x641c_1f5c);
    OneByte(0x77b7_9c2d, 0x34, 0x77b7_9c19, 0x641c_1f5c);
  }

  lemma Digit5()
    ensures Fed(0x641c_1f5c, 0x35, 0x340a_c5e3)
  {
    hide Eight, Fed;
    EightSteps(0x641c_1f69, 0xdfb6_8c94, 0x6fdb_464a, 0x37ed_a325, 0xf64e_52b2,
               0x7b27_2959, 0xd02b_178c, 0x6815_8bc6, 0x340a_c5e3);
    OneByte(0x641c_1f5c, 0x35, 0x641c_1f69, 0x340a_c5e3);
  }

  lemma Digit6()
    ensures Fed(0x340a_c5e3, 0x36, 0xf68d_2c9e)
  {
    hide Eight, Fed;
    EightSteps(0x340a_c5d5, 0xf7bd_e1ca, 0x7bde_f0e5, 0xd057_fb52, 0x682b_fda9,
               0xd9ad_7df4, 0x6cd6_befa, 0x366b_5f7d, 0xf68d_2c9e);
    OneByte(0x340a_c5e3, 0x36, 0x340a_c5d5, 0xf68d_2c9e);
  }

  lemma Digit7()
    ensures Fed(0xf68d_2c9e, 0x37, 0xaffc_9660)
  {
    hide Eight, Fed;
    EightSteps(0xf68d_2ca9, 0x96fe_1574, 0x4b7f_0aba, 0x25bf_855d, 0xff67_418e,
               0x7fb3_a0c7, 0xd261_5343, 0x8488_2a81, 0xaffc_9660);
    OneByte(0xf68d_2c9e, 0x37, 0xf68d_2ca9, 0xaffc_9660);
  }

  lemma Digit8()
    ensures Fed(0xaffc_9660, 0x38, 0x651f_2550)
  {
    hide Eight, Fed;
    EightSteps(0xaffc_9658, 0x57fe_4b2c, 0x2bff_2596, 0x15ff_92cb, 0xe747_4a45,
               0x9e1b_2602, 0x4f0d_9301, 0xca3e_4aa0, 0x651f_2550);
    OneByte(0xaffc_9660, 0x38, 0xaffc_9658, 0x651f_2550);
  }

  lemma Digit9()
    ensures Fed(0x651f_2550, 0x39, 0x340b_c6d9)
  {
    hide Eight, Fed;
    EightSteps(0x651f_2569, 0xdf37_1194, 0x6f9b_88ca, 0x37cd_c465, 0xf65e_6112,
               0x7b2f_3089, 0xd02f_1b64, 0x6817_8db2, 0x340b_c6d9);
    OneByte(0x651f_2550, 0x39, 0x651f_2569, 0x340b_c6d9);
  }

  /** The nine digits, and the first `n` of them. */
  const DIGITS: seq<byte> := [0x31, 0x32, 0x33, 0x34, 0x35, 0x36, 0x37, 0x38, 0x39]

  lemma NoBytes()
    ensures After([], 0xffff_ffff)
  {
    hide BitOf;
    forall k: nat | k < 32 ensures Holds(0xffff_ffff)[k] {
      HoldsBit(0xffff_ffff, k);
      AllOnes(32, k);
      Powers();
    }
    assert MessageBits([]) == [];
    assert Not(ZERO) == Holds(0xffff_ffff);
  }

  lemma {:induction false} AllOnes(w: nat, k: nat)
    requires k < w
    ensures BitOf(Power2(w) - 1, k)
  {
    if k > 0 { AllOnes(w - 1, k - 1); }
  }

  lemma NineDigits()
    ensures After(DIGITS, 0x340b_c6d9)
  {
    hide After, Fed;
    NoBytes();
    Digit1();
    NextByte(DIGITS[..0], 0x31, 0xffff_ffff, 0x7c23_1048);
    assert DIGITS[..0] + [0x31] == DIGITS[..1];
    Digit2();
    NextByte(DIGITS[..1], 0x32, 0x7c23_1048, 0xb0ac_bb32);
    assert DIGITS[..1] + [0x32] == DIGITS[..2];
    Digit3();
    NextByte(DIGITS[..2], 0x33, 0xb0ac_bb32, 0x77b7_9c2d);
    assert DIGITS[..2] + [0x33] == DIGITS[..3];
    Digit4();
    NextByte(DIGITS[..3], 0x34, 0x77b7_9c2d, 0x641c_1f5c);
    assert DIGITS[..3] + [0x34] == DIGITS[..4];
    Digit5();
    NextByte(DIGITS[..4], 0x35, 0x641c_1f5c, 0x340a_c5e3);
    assert DIGITS[..4] + [0x35] == DIGITS[..5];
    Digit6();
    NextByte(DIGITS[..5], 0x36, 0x340a_c5e3, 0xf68d_2c9e);
    assert DIGITS[..5] + [0x36] == DIGITS[..6];
    Digit7();
    NextByte(DIGITS[..6], 0x37, 0xf68d_2c9e, 0xaffc_9660);
    assert DIGITS[..6] + [0x37] == DIGITS[..7];
    Digit8();
    NextByte(DIGITS[..7], 0x38, 0xaffc_9660, 0x651f_2550);
    assert DIGITS[..7] + [0x38] == DIGITS[..8];
    Digit9();
    NextByte(DIGITS[..8], 0x39, 0x651f_2550, 0x340b_c6d9);
    assert DIGITS[..8] + [0x39] == DIGITS[..9];
    assert DIGITS[..0] == [] && DIGITS[..9] == DIGITS;
  }

  /** The check value of the CRC: that of the nine digits. */
  lemma CheckValue()
    ensures Crc(DIGITS) == BitsOf(0xCBF4_3926, 32)
  {
    hide BitsOf, BitOf, Raw;
    NineDigits();
    assert Not(ZERO) == Not(Clear(32));
    forall k: nat | k < 32 ensures Crc(DIGITS)[k] == Holds(0xCBF4_3926)[k] {
      HoldsBit(0x340b_c6d9, k);
      HoldsBit(0xCBF4_3926, k);
      NotBits(0x340b_c6d9, 0xCBF4_3926, k);
    }
    assert Crc(DIGITS) == Holds(0xCBF4_3926);
  }

  /** Two numbers that add up to all ones have opposite bits. */
  lemma {:induction false} Opposite(x: nat, y: nat, w: nat, k: nat)
    requires k < w && x + y == Power2(w) - 1
    ensures BitOf(x, k) == !BitOf(y, k)
  {
    if k > 0 { Opposite(x / 2, y / 2, w - 1, k - 1); }
  }

  lemma NotBits(x: Words.word, y: Words.word, k: nat)
    requires k < 32 && x + y == 0xffff_ffff
    ensures BitOf(x, k) == !BitOf(y, k)
  {
    hide BitOf;
    Powers();
    Opposite(x, y, 32, k);
  }

  // ------------------------------------------------------------ the residue

  lemma Ones0()
    ensures Eight(0xffff_ffff, 0x2dfd_1072)
  {
    hide Eight;
    EightSteps(0xffff_ffff, 0x9247_7cdf, 0xa49b_3d4f, 0xbff5_1d87, 0xb242_0de3,
               0xb499_85d1, 0xb7f4_41c8, 0x5bfa_20e4, 0x2dfd_1072);
  }

  lemma Ones1()
    ensures Eight(0x2dfd_1072, 0xbe26_ed00)
  {
    hide Eight;
    EightSteps(0x2dfd_1072, 0x16fe_8839, 0xe6c7_c73c, 0x7363_e39e, 0x39b1_f1cf,
               0xf160_7bc7, 0x9508_bec3, 0xa73c_dc41, 0xbe26_ed00);
  }

  lemma Ones2()
    ensures Eight(0xbe26_ed00, 0x00be_26ed)
  {
    hide Eight;
    EightSteps(0xbe26_ed00, 0x5f13_7680, 0x2f89_bb40, 0x17c4_dda0, 0x0be2_6ed0,
               0x05f1_3768, 0x02f8_9bb4, 0x017c_4dda, 0x00be_26ed);
  }

  lemma Ones3()
    ensures Eight(0x00be_26ed, 0xdebb_20e3)
  {
    hide Eight;
    EightSteps(0x00be_26ed, 0xede7_9056, 0x76f3_c82b, 0xd6c1_6735, 0x86d8_30ba,
               0x436c_185d, 0xcc0e_8f0e, 0x6607_4787, 0xdebb_20e3);
  }

  lemma {:induction false} RollTwice(c: Reg, m: nat, n: nat)
    ensures Roll(c, m + n) == Roll(Roll(c, m), n)
    decreases m
  {
    hide Half;
    if m > 0 { RollTwice(Half(c), m - 1, n); }
  }

  lemma RollOnes()
    ensures Roll(Holds(0xffff_ffff), 32) == Holds(0xDEBB_20E3)
  {
    hide Roll, Holds;
    Ones0();
    Ones1();
    Ones2();
    Ones3();
    RollTwice(Holds(0xffff_ffff), 8, 24);
    RollTwice(Holds(0x2dfd_1072), 8, 16);
    RollTwice(Holds(0xbe26_ed00), 8, 8);
  }

  /** The bits of a stored register are the register. */
  lemma StoredBits(s: Reg)
    ensures ValueOf(s) < 0x1_0000_0000 && MessageBits(Le32(ValueOf(s))) == s
  {
    hide Le32, MessageBits, BitsOf, BitOf;
    BitsOfValue(s);
    Powers();
    var n := ValueOf(s);
    var a, b, c, d := n % 256, n / 0x100 % 256, n / 0x1_0000 % 256, n / 0x100_0000 % 256;
    FourBytes(n);
    FourBytesBits(a, b, c, d);
    var bits := BitsOf(a, 8) + BitsOf(b, 8) + BitsOf(c, 8) + BitsOf(d, 8);
    forall k: nat | k < 32 ensures bits[k] == s[k] {
      BitAt(n, 32, k);
      ByteOfBit(n, k);
      FourAt(BitsOf(a, 8), BitsOf(b, 8), BitsOf(c, 8), BitsOf(d, 8), k);
    }
    assert bits == s;
  }

  lemma FourAt(a: seq<bool>, b: seq<bool>, c: seq<bool>, d: seq<bool>, k: nat)
    requires |a| == |b| == |c| == |d| == 8 && k < 32
    ensures (a + b + c + d)[k] == (if k < 8 then a else if k < 16 then b else if k < 24 then c else d)[k % 8]
  {
  }

  /** Message bits of four bytes. */
  lemma FourBytesBits(a: byte, b: byte, c: byte, d: byte)
    ensures MessageBits([a, b, c, d]) == BitsOf(a, 8) + BitsOf(b, 8) + BitsOf(c, 8) + BitsOf(d, 8)
  {
    hide BitsOf;
    assert [a, b, c, d] == [a] + [b] + [c] + [d];
    MessageConcat([a] + [b] + [c], [d]);
    MessageConcat([a] + [b], [c]);
    MessageConcat([a], [b]);
    MessageByte(a);
    MessageByte(b);
    MessageByte(c);
    MessageByte(d);
  }

  /** Bit `k` of a number lies in one of its bytes. */
  lemma ByteOfBit(n: nat, k: nat)
    requires k < 32
    ensures var b := if k < 8 then n % 256 else if k < 16 then n / 0x100 % 256
                     else if k < 24 then n / 0x1_0000 % 256 else n / 0x100_0000 % 256;
            BitOf(n, k) == BitsOf(b, 8)[k % 8]
  {
    var p := if k < 8 then 1 else if k < 16 then 0x100 else if k < 24 then 0x1_0000 else 0x100_0000;
    BitOfQuotient(n, k / 8, k % 8);
    BitOfRemainder(n / p, k % 8);
    BitAt(n / p % 256, 8, k % 8);
  }

  lemma {:induction false} BitOfQuotient(n: nat, j: nat, k: nat)
    requires j < 4
    ensures BitOf(n, 8 * j + k) == BitOf(n / (if j == 0 then 1 else if j == 1 then 0x100 else if j == 2 then 0x1_0000 else 0x100_0000), k)
  {
    if j > 0 {
      EightDown(n, 8 * (j - 1) + k);
      BitOfQuotient(n / 256, j - 1, k);
    }
  }

  lemma EightDown(n: nat, k: nat)
    ensures BitOf(n, 8 + k) == BitOf(n / 256, k)
  {
    var a, b, c, d := n / 2, n / 4, n / 8, n / 16;
    assert BitOf(n, 8 + k) == BitOf(a, 7 + k) == BitOf(a / 2, 6 + k);
    assert a / 2 == b && b / 2 == c && c / 2 == d;
    assert BitOf(b, 6 + k) == BitOf(c, 5 + k) == BitOf(d, 4 + k);
    assert BitOf(d, 4 + k) == BitOf(d / 2, 3 + k) == BitOf(d / 2 / 2, 2 + k);
    assert BitOf(d / 2 / 2, 2 + k) == BitOf(d / 2 / 2 / 2, 1 + k) == BitOf(d / 2 / 2 / 2 / 2, k);
    assert d / 2 / 2 / 2 / 2 == n / 256;
  }

  lemma {:induction false} BitOfRemainder(n: nat, k: nat)
    requires k < 8
    ensures BitOf(n, k) == BitOf(n % 256, k)
  {
    RemainderBit(n, 8, k);
    EightBits();
  }

  lemma {:induction false} RemainderBit(n: nat, w: nat, k: nat)
    requires k < w
    ensures BitOf(n, k) == BitOf(n % Power2(w), k)
  {
    HalfRemainder(n, Power2(w - 1));
    if k > 0 { RemainderBit(n / 2, w - 1, k - 1); }
  }

  lemma HalfRemainder(n: nat, p: nat)
    requires p > 0
    ensures n % (2 * p) / 2 == n / 2 % p && n % (2 * p) % 2 == n % 2
  {
    var q, r := n / (2 * p), n % (2 * p);
    var h := p * q;
    assert n == r + 2 * h by { assert 2 * p * q == 2 * (p * q); }
    assert n / 2 == r / 2 + h && n % 2 == r % 2;
    FieldsSplit(r / 2, q, p);
  }

  /** A message followed by its CRC always leaves the same register: the residue. */
  lemma Residue(m: seq<byte>)
    ensures Raw(Not(ZERO), m + Le32(ValueOf(Crc(m)))) == BitsOf(0xDEBB_20E3, 32)
  {
    hide BitsOf, Roll, Le32, MessageBits, Feed, BitOf;
    var r: Reg := Raw(Not(ZERO), m);
    var stored := Crc(m);
    assert Not(ZERO) == Not(Clear(32));
    assert stored == Not(r);
    StoredBits(stored);
    RawConcat(Not(ZERO), m, Le32(ValueOf(stored)));
    FeedRoll(r, stored);
    NoBytes();
    NothingFed();
    forall k: nat | k < 32 ensures Xor(r, Wide(stored))[k] == Not(ZERO)[k] {
    }
    assert Xor(r, Wide(stored)) == Not(ZERO);
    RollOnes();
  }

  lemma NothingFed()
    ensures Raw(Not(ZERO), []) == Not(ZERO)
  {
  }
}
