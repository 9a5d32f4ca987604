/** The firmware tools' SHA-1: sums in `unsigned long`s that are wider than 32 bits and are never masked, and
    only sixteen words of the message schedule at a time. */
module Sha1Firmware {
  import opened Bytes
  import opened HashStream
  import opened Words
  import opened Sha1

  /** The macros F of the rounds on one 32-bit half; the second round's macro serves the fourth too. */
  function SelectV(x: bv32, y: bv32, z: bv32): bv32 { z ^ (x & (y ^ z)) }
  function MajorityV(x: bv32, y: bv32, z: bv32): bv32 { (x & y) | (z & (x | y)) }

  lemma SelectRaw(x: bv32, y: bv32, z: bv32)
    ensures z ^ (x & (y ^ z)) == (x & y) | (!x & z)
  {
  }

  lemma MajorityRaw(x: bv32, y: bv32, z: bv32)
    ensures (x & y) | (z & (x | y)) == (x & y) | (x & z) | (y & z)
  {
  }

  lemma SelectIs(x: bv32, y: bv32, z: bv32)
    ensures SelectV(x, y, z) == z ^ (x & (y ^ z)) && ChV(x, y, z) == (x & y) | (!x & z)
  {
  }

  lemma MajorityIs(x: bv32, y: bv32, z: bv32)
    ensures MajorityV(x, y, z) == (x & y) | (z & (x | y)) && MajV(x, y, z) == (x & y) | (x & z) | (y & z)
  {
  }

  lemma SelectAgrees(x: bv32, y: bv32, z: bv32)
    ensures SelectV(x, y, z) == ChV(x, y, z)
  {
    hide SelectV, ChV;
    SelectIs(x, y, z);
    SelectRaw(x, y, z);
  }

  lemma MajorityAgrees(x: bv32, y: bv32, z: bv32)
    ensures MajorityV(x, y, z) == MajV(x, y, z)
  {
    hide MajorityV, MajV;
    MajorityIs(x, y, z);
    MajorityRaw(x, y, z);
  }

  function Half1(x: word, y: word, z: word): (r: word)
    ensures r == Ch(x, y, z)
  {
    hide ChV, SelectV, Vector, Number;
    SelectAgrees(Vector(x), Vector(y), Vector(z));
    Number(SelectV(Vector(x), Vector(y), Vector(z)))
  }

  function Half3(x: word, y: word, z: word): (r: word)
    ensures r == Maj(x, y, z)
  {
    hide MajV, MajorityV, Vector, Number;
    MajorityAgrees(Vector(x), Vector(y), Vector(z));
    Number(MajorityV(Vector(x), Vector(y), Vector(z)))
  }

  function F1(x: long, y: long, z: long): (r: long)
    ensures Low(r) == Ch(Low(x), Low(y), Low(z))
  {
    hide Ch;
    Halves(Half1(High(x), High(y), High(z)), Half1(Low(x), Low(y), Low(z)))
  }

  function F2(x: long, y: long, z: long): (r: long)
    ensures Low(r) == Parity(Low(x), Low(y), Low(z))
  {
    hide Parity;
    Halves(Parity(High(x), High(y), High(z)), Parity(Low(x), Low(y), Low(z)))
  }

  function F3(x: long, y: long, z: long): (r: long)
    ensures Low(r) == Maj(Low(x), Low(y), Low(z))
  {
    hide Maj;
    Halves(Half3(High(x), High(y), High(z)), Half3(Low(x), Low(y), Low(z)))
  }

  function LowRegs(a: long, b: long, c: long, d: long, e: long): Regs { Regs(Low(a), Low(b), Low(c), Low(d), Low(e)) }

  // ------------------------------------------------------------ the steps

  /** The sixteen words hold the last sixteen words of the schedule before word `t`. */
  ghost predicate Circular(block: seq<byte>, w: seq<long>, t: nat)
    requires |block| == 64
  {
    |w| == 16 && t >= 16 && forall j :: t - 16 <= j < t ==> Low(w[j % 16]) == W(block, j)
  }

  /** The macro R(t): the next word of the schedule takes the place of the oldest. */
  method R(w: seq<long>, t: nat, ghost block: seq<byte>) returns (x: long, w': seq<long>)
    requires |block| == 64 && Circular(block, w, t)
    ensures Low(x) == W(block, t) && Circular(block, w', t + 1)
  {
    hide Low, RotateLeft, S, XorLong, W;
    var temp := XorLong(XorLong(XorLong(w[(t - 3) % 16], w[(t - 8) % 16]), w[(t - 14) % 16]), w[t % 16]);
    x := S(temp, 1);
    w' := w[t % 16 := x];
    NextWord(w, t, block);
    CircularNext(w, t, block, x);
  }

  lemma CircularNext(w: seq<long>, t: nat, block: seq<byte>, x: long)
    requires |block| == 64 && Circular(block, w, t) && Low(x) == W(block, t)
    ensures Circular(block, w[t % 16 := x], t + 1)
  {
    hide Low, W;
    var w' := w[t % 16 := x];
    forall j | t + 1 - 16 <= j < t + 1 ensures Low(w'[j % 16]) == W(block, j) {
      if j < t { Distinct16(j, t); }
    }
  }

  lemma NextWord(w: seq<long>, t: nat, block: seq<byte>)
    requires |block| == 64 && Circular(block, w, t)
    ensures Low(S(XorLong(XorLong(XorLong(w[(t - 3) % 16], w[(t - 8) % 16]), w[(t - 14) % 16]), w[t % 16]), 1)) == W(block, t)
  {
    hide Low, RotateLeft, S, W, XorLong, Xor;
    assert (t - 16) % 16 == t % 16;
    XorFour(w[(t - 3) % 16], w[(t - 8) % 16], w[(t - 14) % 16], w[t % 16]);
    Schedule(block, t);
  }

  lemma Schedule(block: seq<byte>, t: nat)
    requires |block| == 64 && t >= 16
    ensures W(block, t) == RotateLeft(Xor(Xor(Xor(W(block, t - 3), W(block, t - 8)), W(block, t - 14)), W(block, t - 16)), 1)
  {
    hide RotateLeft;
  }

  lemma XorFour(p: long, q: long, r: long, s: long)
    ensures Low(S(XorLong(XorLong(XorLong(p, q), r), s), 1)) == RotateLeft(Xor(Xor(Xor(Low(p), Low(q)), Low(r)), Low(s)), 1)
  {
    hide RotateLeft, S, Xor;
    LowRotate(XorLong(XorLong(XorLong(p, q), r), s), 1);
  }

  lemma Distinct16(j: nat, t: nat)
    requires j < t < j + 16
    ensures j % 16 != t % 16
  {
  }

  /** The macro P, given the value of F: `e += S(a, 5) + f + k + x; b = S(b, 30)`. */
  method P(a: long, b: long, e: long, f: long, k: long, x: long) returns (e': long, b': long)
    ensures Low(e') == Temp(Low(a), Low(f), Low(e), Low(x), Low(k)) && Low(b') == RotateLeft(Low(b), 30)
  {
    hide Low, RotateLeft, S, Add, AddLong;
    e', b' := AddLong(e, AddLong(AddLong(AddLong(S(a, 5), f), k), x)), S(b, 30);
    LowRotate(a, 5);
    LowRotate(b, 30);
    SumFive(S(a, 5), f, k, x, e);
  }

  lemma SumFive(s: long, f: long, k: long, x: long, e: long)
    ensures Low(AddLong(e, AddLong(AddLong(AddLong(s, f), k), x))) == (Low(s) + Low(f) + Low(e) + Low(x) + Low(k)) % M32
  {
    hide Low, Add, AddLong;
    LowAdd(s, f);
    LowAdd(AddLong(s, f), k);
    LowAdd(AddLong(AddLong(s, f), k), x);
    LowAdd(e, AddLong(AddLong(AddLong(s, f), k), x));
    SumOrder(Low(s), Low(f), Low(k), Low(x), Low(e));
  }

  lemma Constants()
    ensures Low(0x5A827999) == K(0) && Low(0x6ED9EBA1) == K(20) && Low(0x8F1BBCDC) == K(40) && Low(0xCA62C1D6) == K(60)
  {
  }

  method Round1(block: seq<byte>, w0: seq<long>, a0: long, b0: long, c0: long, d0: long, e0: long, ghost r: Regs)
    returns (a: long, b: long, c: long, d: long, e: long, w: seq<long>)
    requires |block| == 64 && Circular(block, w0, 16) && LowRegs(a0, b0, c0, d0, e0) == Fives(block, r, 0)
    ensures Circular(block, w, 20) && LowRegs(a, b, c, d, e) == Fives(block, r, 4)
  {
    hide Low, RotateLeft, Fives, Temp, F1, F2, F3, Ch, Parity, Maj, W;
    Constants();
    a, b, c, d, e, w := a0, b0, c0, d0, e0, w0;
    var x;
    e, b := P(a, b, e, F1(b, c, d), 0x5A827999, w[0]);
    d, a := P(e, a, d, F1(a, b, c), 0x5A827999, w[1]);
    c, e := P(d, e, c, F1(e, a, b), 0x5A827999, w[2]);
    b, d := P(c, d, b, F1(d, e, a), 0x5A827999, w[3]);
    a, c := P(b, c, a, F1(c, d, e), 0x5A827999, w[4]);
    FivesNext(block, r, 0);
    assert LowRegs(a, b, c, d, e) == Fives(block, r, 1);
    e, b := P(a, b, e, F1(b, c, d), 0x5A827999, w[5]);
    d, a := P(e, a, d, F1(a, b, c), 0x5A827999, w[6]);
    c, e := P(d, e, c, F1(e, a, b), 0x5A827999, w[7]);
    b, d := P(c, d, b, F1(d, e, a), 0x5A827999, w[8]);
    a, c := P(b, c, a, F1(c, d, e), 0x5A827999, w[9]);
    FivesNext(block, r, 1);
    assert LowRegs(a, b, c, d, e) == Fives(block, r, 2);
    e, b := P(a, b, e, F1(b, c, d), 0x5A827999, w[10]);
    d, a := P(e, a, d, F1(a, b, c), 0x5A827999, w[11]);
    c, e := P(d, e, c, F1(e, a, b), 0x5A827999, w[12]);
    b, d := P(c, d, b, F1(d, e, a), 0x5A827999, w[13]);
    a, c := P(b, c, a, F1(c, d, e), 0x5A827999, w[14]);
    FivesNext(block, r, 2);
    assert LowRegs(a, b, c, d, e) == Fives(block, r, 3);
    e, b := P(a, b, e, F1(b, c, d), 0x5A827999, w[15]);
    x, w := R(w, 16, block);
    d, a := P(e, a, d, F1(a, b, c), 0x5A827999, x);
    x, w := R(w, 17, block);
    c, e := P(d, e, c, F1(e, a, b), 0x5A827999, x);
    x, w := R(w, 18, block);
    b, d := P(c, d, b, F1(d, e, a), 0x5A827999, x);
    x, w := R(w, 19, block);
    a, c := P(b, c, a, F1(c, d, e), 0x5A827999, x);
    FivesNext(block, r, 3);
    assert LowRegs(a, b, c, d, e) == Fives(block, r, 4);
  }

  method Round2(block: seq<byte>, w0: seq<long>, a0: long, b0: long, c0: long, d0: long, e0: long, ghost r: Regs)
    returns (a: long, b: long, c: long, d: long, e: long, w: seq<long>)
    requires |block| == 64 && Circular(block, w0, 20) && LowRegs(a0, b0, c0, d0, e0) == Fives(block, r, 4)
    ensures Circular(block, w, 40) && LowRegs(a, b, c, d, e) == Fives(block, r, 8)
  {
    hide Low, RotateLeft, Fives, Temp, F1, F2, F3, Ch, Parity, Maj, W, Circular;
    Constants();
    a, b, c, d, e, w := a0, b0, c0, d0, e0, w0;
    var x;
    x, w := R(w, 20, block);
    e, b := P(a, b, e, F2(b, c, d), 0x6ED9EBA1, x);
    x, w := R(w, 21, block);
    d, a := P(e, a, d, F2(a, b, c), 0x6ED9EBA1, x);
    x, w := R(w, 22, block);
    c, e := P(d, e, c, F2(e, a, b), 0x6ED9EBA1, x);
    x, w := R(w, 23, block);
    b, d := P(c, d, b, F2(d, e, a), 0x6ED9EBA1, x);
    x, w := R(w, 24, block);
    a, c := P(b, c, a, F2(c, d, e), 0x6ED9EBA1, x);
    FivesNext(block, r, 4);
    assert LowRegs(a, b, c, d, e) == Fives(block, r, 5);
    x, w := R(w, 25, block);
    e, b := P(a, b, e, F2(b, c, d), 0x6ED9EBA1, x);
    x, w := R(w, 26, block);
    d, a := P(e, a, d, F2(a, b, c), 0x6ED9EBA1, x);
    x, w := R(w, 27, block);
    c, e := P(d, e, c, F2(e, a, b), 0x6ED9EBA1, x);
    x, w := R(w, 28, block);
    b, d := P(c, d, b, F2(d, e, a), 0x6ED9EBA1, x);
    x, w := R(w, 29, block);
    a, c := P(b, c, a, F2(c, d, e), 0x6ED9EBA1, x);
    FivesNext(block, r, 5);
    assert LowRegs(a, b, c, d, e) == Fives(block, r, 6);
    x, w := R(w, 30, block);
    e, b := P(a, b, e, F2(b, c, d), 0x6ED9EBA1, x);
    x, w := R(w, 31, block);
    d, a := P(e, a, d, F2(a, b, c), 0x6ED9EBA1, x);
    x, w := R(w, 32, block);
    c, e := P(d, e, c, F2(e, a, b), 0x6ED9EBA1, x);
    x, w := R(w, 33, block);
    b, d := P(c, d, b, F2(d, e, a), 0x6ED9EBA1, x);
    x, w := R(w, 34, block);
    a, c := P(b, c, a, F2(c, d, e), 0x6ED9EBA1, x);
    FivesNext(block, r, 6);
    assert LowRegs(a, b, c, d, e) == Fives(block, r, 7);
    x, w := R(w, 35, block);
    e, b := P(a, b, e, F2(b, c, d), 0x6ED9EBA1, x);
    x, w := R(w, 36, block);
    d, a := P(e, a, d, F2(a, b, c), 0x6ED9EBA1, x);
    x, w := R(w, 37, block);
    c, e := P(d, e, c, F2(e, a, b), 0x6ED9EBA1, x);
    x, w := R(w, 38, block);
    b, d := P(c, d, b, F2(d, e, a), 0x6ED9EBA1, x);
    x, w := R(w, 39, block);
    a, c := P(b, c, a, F2(c, d, e), 0x6ED9EBA1, x);
    FivesNext(block, r, 7);
    assert LowRegs(a, b, c, d, e) == Fives(block, r, 8);
  }

  method Round3(block: seq<byte>, w0: seq<long>, a0: long, b0: long, c0: long, d0: long, e0: long, ghost r: Regs)
    returns (a: long, b: long, c: long, d: long, e: long, w: seq<long>)
    requires |block| == 64 && Circular(block, w0, 40) && LowRegs(a0, b0, c0, d0, e0) == Fives(block, r, 8)
    ensures Circular(block, w, 60) && LowRegs(a, b, c, d, e) == Fives(block, r, 12)
  {
    hide Low, RotateLeft, Fives, Temp, F1, F2, F3, Ch, Parity, Maj, W, Circular;
    Constants();
    a, b, c, d, e, w := a0, b0, c0, d0, e0, w0;
    var x;
    x, w := R(w, 40, block);
    e, b := P(a, b, e, F3(b, c, d), 0x8F1BBCDC, x);
    x, w := R(w, 41, block);
    d, a := P(e, a, d, F3(a, b, c), 0x8F1BBCDC, x);
    x, w := R(w, 42, block);
    c, e := P(d, e, c, F3(e, a, b), 0x8F1BBCDC, x);
    x, w := R(w, 43, block);
    b, d := P(c, d, b, F3(d, e, a), 0x8F1BBCDC, x);
    x, w := R(w, 44, block);
    a, c := P(b, c, a, F3(c, d, e), 0x8F1BBCDC, x);
    FivesNext(block, r, 8);
    assert LowRegs(a, b, c, d, e) == Fives(block, r, 9);
    x, w := R(w, 45, block);
    e, b := P(a, b, e, F3(b, c, d), 0x8F1BBCDC, x);
    x, w := R(w, 46, block);
    d, a := P(e, a, d, F3(a, b, c), 0x8F1BBCDC, x);
    x, w := R(w, 47, block);
    c, e := P(d, e, c, F3(e, a, b), 0x8F1BBCDC, x);
    x, w := R(w, 48, block);
    b, d := P(c, d, b, F3(d, e, a), 0x8F1BBCDC, x);
    x, w := R(w, 49, block);
    a, c := P(b, c, a, F3(c, d, e), 0x8F1BBCDC, x);
    FivesNext(block, r, 9);
    assert LowRegs(a, b, c, d, e) == Fives(block, r, 10);
    x, w := R(w, 50, block);
    e, b := P(a, b, e, F3(b, c, d), 0x8F1BBCDC, x);
    x, w := R(w, 51, block);
    d, a := P(e, a, d, F3(a, b, c), 0x8F1BBCDC, x);
    x, w := R(w, 52, block);
    c, e := P(d, e, c, F3(e, a, b), 0x8F1BBCDC, x);
    x, w := R(w, 53, block);
    b, d := P(c, d, b, F3(d, e, a), 0x8F1BBCDC, x);
    x, w := R(w, 54, block);
    a, c := P(b, c, a, F3(c, d, e), 0x8F1BBCDC, x);
    FivesNext(block, r, 10);
    assert LowRegs(a, b, c, d, e) == Fives(block, r, 11);
    x, w := R(w, 55, block);
    e, b := P(a, b, e, F3(b, c, d), 0x8F1BBCDC, x);
    x, w := R(w, 56, block);
    d, a := P(e, a, d, F3(a, b, c), 0x8F1BBCDC, x);
    x, w := R(w, 57, block);
    c, e := P(d, e, c, F3(e, a, b), 0x8F1BBCDC, x);
    x, w := R(w, 58, block);
    b, d := P(c, d, b, F3(d, e, a), 0x8F1BBCDC, x);
    x, w := R(w, 59, block);
    a, c := P(b, c, a, F3(c, d, e), 0x8F1BBCDC, x);
    FivesNext(block, r, 11);
    assert LowRegs(a, b, c, d, e) == Fives(block, r, 12);
  }

  method Round4(block: seq<byte>, w0: seq<long>, a0: long, b0: long, c0: long, d0: long, e0: long, ghost r: Regs)
    returns (a: long, b: long, c: long, d: long, e: long, w: seq<long>)
    requires |block| == 64 && Circular(block, w0, 60) && LowRegs(a0, b0, c0, d0, e0) == Fives(block, r, 12)
    ensures Circular(block, w, 80) && LowRegs(a, b, c, d, e) == Fives(block, r, 16)
  {
    hide Low, RotateLeft, Fives, Temp, F1, F2, F3, Ch, Parity, Maj, W, Circular;
    Constants();
    a, b, c, d, e, w := a0, b0, c0, d0, e0, w0;
    var x;
    x, w := R(w, 60, block);
    e, b := P(a, b, e, F2(b, c, d), 0xCA62C1D6, x);
    x, w := R(w, 61, block);
    d, a := P(e, a, d, F2(a, b, c), 0xCA62C1D6, x);
    x, w := R(w, 62, block);
    c, e := P(d, e, c, F2(e, a, b), 0xCA62C1D6, x);
    x, w := R(w, 63, block);
    b, d := P(c, d, b, F2(d, e, a), 0xCA62C1D6, x);
    x, w := R(w, 64, block);
    a, c := P(b, c, a, F2(c, d, e), 0xCA62C1D6, x);
    FivesNext(block, r, 12);
    assert LowRegs(a, b, c, d, e) == Fives(block, r, 13);
    x, w := R(w, 65, block);
    e, b := P(a, b, e, F2(b, c, d), 0xCA62C1D6, x);
    x, w := R(w, 66, block);
    d, a := P(e, a, d, F2(a, b, c), 0xCA62C1D6, x);
    x, w := R(w, 67, block);
    c, e := P(d, e, c, F2(e, a, b), 0xCA62C1D6, x);
    x, w := R(w, 68, block);
    b, d := P(c, d, b, F2(d, e, a), 0xCA62C1D6, x);
    x, w := R(w, 69, block);
    a, c := P(b, c, a, F2(c, d, e), 0xCA62C1D6, x);
    FivesNext(block, r, 13);
    assert LowRegs(a, b, c, d, e) == Fives(block, r, 14);
    x, w := R(w, 70, block);
    e, b := P(a, b, e, F2(b, c, d), 0xCA62C1D6, x);
    x, w := R(w, 71, block);
    d, a := P(e, a, d, F2(a, b, c), 0xCA62C1D6, x);
    x, w := R(w, 72, block);
    c, e := P(d, e, c, F2(e, a, b), 0xCA62C1D6, x);
    x, w := R(w, 73, block);
    b, d := P(c, d, b, F2(d, e, a), 0xCA62C1D6, x);
    x, w := R(w, 74, block);
    a, c := P(b, c, a, F2(c, d, e), 0xCA62C1D6, x);
    FivesNext(block, r, 14);
    assert LowRegs(a, b, c, d, e) == Fives(block, r, 15);
    x, w := R(w, 75, block);
    e, b := P(a, b, e, F2(b, c, d), 0xCA62C1D6, x);
    x, w := R(w, 76, block);
    d, a := P(e, a, d, F2(a, b, c), 0xCA62C1D6, x);
    x, w := R(w, 77, block);
    c, e := P(d, e, c, F2(e, a, b), 0xCA62C1D6, x);
    x, w := R(w, 78, block);
    b, d := P(c, d, b, F2(d, e, a), 0xCA62C1D6, x);
    x, w := R(w, 79, block);
    a, c := P(b, c, a, F2(c, d, e), 0xCA62C1D6, x);
    FivesNext(block, r, 15);
    assert LowRegs(a, b, c, d, e) == Fives(block, r, 16);
  }

  // ------------------------------------------------------------ the context

  /** Two counters hold the number of message bytes. */
  predicate Counts(total0: nat, total1: nat, n: nat) { total0 == n % M32 && total1 == n / M32 }

  lemma CountMore(total0: nat, total1: nat, n: nat, k: nat)
    requires Counts(total0, total1, n) && k < M32
    ensures var t0 := (total0 + k) % M32; Counts(t0, if t0 < k then total1 + 1 else total1, n + k)
  {
    assert n + k == M32 * total1 + (total0 + k);
    if total0 + k >= M32 {
      FieldsSplit(total0 + k - M32, total1 + 1, M32);
    } else {
      FieldsSplit(total0 + k, total1, M32);
    }
  }

  /** The waiting bytes, and the length field that sha1_finish computes from the counters. */
  lemma CountLength(total0: nat, total1: nat, n: nat)
    requires Counts(total0, total1, n)
    ensures total0 % 64 == n % 64
    ensures Be32(total0 / 0x2000_0000 + 8 * total1) + Be32(8 * total0) == LengthBytes(n)
  {
    hide Be32;
    CountLeft(total0, total1, n);
    var q, r := total0 / 0x2000_0000, total0 % 0x2000_0000;
    assert 8 * n == 8 * r + M32 * (8 * total1 + q);
    FieldsSplit(8 * r, 8 * total1 + q, M32);
    assert 8 * total0 == 8 * r + M32 * q;
    FieldsSplit(8 * r, q, M32);
    BeModulo(8 * total0, 8 * n);
  }

  lemma CountLeft(total0: nat, total1: nat, n: nat)
    requires Counts(total0, total1, n)
    ensures total0 % 64 == n % 64
  {
    var q, r := total0 / 64, total0 % 64;
    assert n == r + 64 * (0x400_0000 * total1 + q);
    FieldsSplit(r, 0x400_0000 * total1 + q, 64);
  }

  lemma BeModulo(a: nat, b: nat)
    requires a % M32 == b % M32
    ensures Be32(a) == Be32(b)
  {
    WordRoundTrip(a);
    WordRoundTrip(b);
    BytesRoundTrip(Be32(a));
    BytesRoundTrip(Be32(b));
  }

  /** The sixteen GET_UINT32_BE. */
  method LoadWords(data: seq<byte>) returns (w: seq<long>)
    requires |data| == 64
    ensures Circular(data, w, 16)
  {
    hide WordAt;
    w := [];
    var i := 0;
    while i < 16
      invariant i <= 16 && |w| == i && forall j :: 0 <= j < i ==> Low(w[j]) == WordAt(data, j)
    {
      w := w + [WordAt(data, i)];
      i := i + 1;
    }
    assert forall j :: 0 <= j < 16 ==> j % 16 == j;
  }

  /** The bytes of a word do not depend on the upper half. */
  lemma LowBytes(x: long)
    ensures Be32(x) == Be32(Low(x))
  {
    BeModulo(x, Low(x));
  }

  lemma PadLength(last: nat, n: nat)
    requires last == n % 64
    ensures (if last < 56 then 56 - last else 120 - last) == 1 + (55 - n) % 64
  {
  }

  class Context {
    var total0: nat
    var total1: nat
    var state: seq<long>
    var buffer: array<byte>
    ghost var message: seq<byte>

    ghost function Registers(): Regs
      reads this
      requires |state| == 5
    {
      LowRegs(state[0], state[1], state[2], state[3], state[4])
    }

    ghost predicate Valid()
      reads this, buffer
    {
      && buffer.Length == 64 && |state| == 5 && Counts(total0, total1, |message|)
      && Streaming(Compress, INIT, message, Registers(), buffer[..|message| % 64])
    }

    /** sha1_starts */
    constructor ()
      ensures Valid() && fresh(buffer) && message == []
    {
      total0, total1, message := 0, 0, [];
      state := [0x67452301, 0xEFCDAB89, 0x98BADCFE, 0x10325476, 0xC3D2E1F0];
      buffer := new byte[64];
      new;
      StreamStart(Compress, INIT);
      assert buffer[..0] == [];
    }

    /** sha1_process */
    method Process(data: seq<byte>)
      requires |data| == 64 && |state| == 5
      modifies this`state
      ensures |state| == 5 && Registers() == Compress(old(Registers()), data)
    {
      hide Low, Fives, AddLong, Add;
      var w := LoadWords(data);
      ghost var r := Registers();
      FivesNext(data, r, 0);
      var s := state;
      var a, b, c, d, e := s[0], s[1], s[2], s[3], s[4];
      a, b, c, d, e, w := Round1(data, w, a, b, c, d, e, r);
      a, b, c, d, e, w := Round2(data, w, a, b, c, d, e, r);
      a, b, c, d, e, w := Round3(data, w, a, b, c, d, e, r);
      a, b, c, d, e, w := Round4(data, w, a, b, c, d, e, r);
      state := [AddLong(s[0], a), AddLong(s[1], b), AddLong(s[2], c), AddLong(s[3], d), AddLong(s[4], e)];
      LowAdd(s[0], a); LowAdd(s[1], b); LowAdd(s[2], c); LowAdd(s[3], d); LowAdd(s[4], e);
    }

    /** memcpy(buffer + left, input, n) */
    method Fetch(left: nat, input: seq<byte>)
      requires left + |input| <= buffer.Length
      modifies buffer
      ensures buffer[..left + |input|] == old(buffer[..left]) + input
    {
      var i := 0;
      while i < |input|
        invariant i <= |input| && buffer[..left + i] == old(buffer[..left]) + input[..i]
      {
        buffer[left + i] := input[i];
        i := i + 1;
      }
    }

    /** The update of the byte count in sha1_update. */
    method Count(length: nat, ghost n: nat)
      requires length < M32 && Counts(total0, total1, n)
      modifies this`total0, this`total1
      ensures Counts(total0, total1, n + length)
    {
      CountMore(total0, total1, n, length);
      total0 := (total0 + length) % M32;
      if total0 < length {
        total1 := total1 + 1;
      }
    }

    /** sha1_update */
    method Update(input: seq<byte>)
      requires Valid() && |input| < M32
      modifies this, buffer
      ensures Valid() && buffer == old(buffer) && message == old(message) + input
    {
      hide Streaming, Compress, Absorb, Counts, Low;
      if |input| == 0 {
        assert message + input == message;
        return;
      }
      CountLeft(total0, total1, |message|);
      var left: nat := total0 % 64;
      var fill := 64 - left;
      Count(|input|, |message|);
      ghost var m, waiting := message, buffer[..left];
      StreamSize(Compress, INIT, m, Registers(), waiting);
      message := message + input;
      var p := 0;
      if left != 0 && |input| >= fill {
        Fetch(left, input[..fill]);
        StreamFill(Compress, INIT, m, Registers(), waiting, input[..fill]);
        assert buffer[..] == waiting + input[..fill];
        Process(buffer[..]);
        p, left := fill, 0;
        waiting := [];
      }
      assert m + input[..0] == m;
      while |input| - p >= 64
        invariant p <= |input| && |state| == 5 && left < 64 && buffer == old(buffer) && buffer.Length == 64
        invariant waiting == buffer[..left] && Streaming(Compress, INIT, m + input[..p], Registers(), waiting)
        invariant left == 0 || (p == 0 && left + |input| < 64)
        invariant message == m + input && Counts(total0, total1, |message|)
      {
        StreamFill(Compress, INIT, m + input[..p], Registers(), [], input[p..p + 64]);
        Assoc(m, input[..p], input[p..p + 64]);
        assert input[..p] + input[p..p + 64] == input[..p + 64];
        assert [] + input[p..p + 64] == input[p..p + 64];
        assert waiting == [];
        Process(input[p..p + 64]);
        p := p + 64;
      }
      if |input| - p != 0 {
        Fetch(left, input[p..]);
      }
      assert buffer[..left + |input[p..]|] == waiting + input[p..];
      StreamKeep(Compress, INIT, m + input[..p], Registers(), waiting, input[p..]);
      Assoc(m, input[..p], input[p..]);
      assert input[..p] + input[p..] == input;
      StreamSize(Compress, INIT, message, Registers(), waiting + input[p..]);
    }

    /** sha1_finish */
    method Finish() returns (digest: seq<byte>)
      requires Valid()
      modifies this, buffer
      ensures digest == Digest(old(message))
    {
      hide Streaming, Compress, Absorb, Digest, Counts, PAD, Fill, LengthBytes, Low, Be32;
      ghost var m := message;
      CountLength(total0, total1, |m|);
      var high := total0 / 0x2000_0000 + 8 * total1;
      var low := 8 * total0;
      var msglen := Be32(high) + Be32(low);
      var last := total0 % 64;
      var padn := if last < 56 then 56 - last else 120 - last;
      PadIs(|m|);
      PadLength(last, |m|);
      Update(PAD[..padn]);
      Update(msglen);
      WholeBlocks<byte>(m, 0x80, 0, LengthBytes(|m|));
      assert buffer[..0] == [];
      StreamEnd(m, Registers());
      var s := state;
      LowBytes(s[0]); LowBytes(s[1]); LowBytes(s[2]); LowBytes(s[3]); LowBytes(s[4]);
      digest := Be32(s[0]) + Be32(s[1]) + Be32(s[2]) + Be32(s[3]) + Be32(s[4]);
    }
  }

  /** SHA-1 of a message does not depend on how it is cut into updates. */
  method Hash(parts: seq<seq<byte>>) returns (digest: seq<byte>)
    requires forall i :: 0 <= i < |parts| ==> |parts[i]| < M32
    ensures digest == Digest(Flattened(parts))
  {
    hide Digest;
    var context := new Context();
    var i := 0;
    while i < |parts|
      invariant i <= |parts| && context.Valid() && context.message == Flattened(parts[..i])
      invariant fresh(context) && fresh(context.buffer)
    {
      assert parts[..i + 1][..i] == parts[..i];
      context.Update(parts[i]);
      i := i + 1;
    }
    assert parts[..i] == parts;
    digest := context.Finish();
  }
}
