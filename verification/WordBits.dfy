/** The bits of machine words, by number: what ties the operators on bit vectors to division by powers of two. */
module WordBits {
  import opened Bytes
  import opened BitSeqs
  import opened Words

  /** 2^k as a bit pattern. */
  function Mask(k: nat): (m: bv32) {
    if k == 0 then 1 else Mask(k - 1) << 1
  }

  /** A bit pattern with one bit, and the power of two that it stands for. */
  predicate IsPlace(m: bv32, p: nat) {
    || (m == 0x1 && p == 0x1) || (m == 0x2 && p == 0x2) || (m == 0x4 && p == 0x4) || (m == 0x8 && p == 0x8)
    || (m == 0x10 && p == 0x10) || (m == 0x20 && p == 0x20) || (m == 0x40 && p == 0x40) || (m == 0x80 && p == 0x80)
    || (m == 0x100 && p == 0x100) || (m == 0x200 && p == 0x200) || (m == 0x400 && p == 0x400)
    || (m == 0x800 && p == 0x800) || (m == 0x1000 && p == 0x1000) || (m == 0x2000 && p == 0x2000)
    || (m == 0x4000 && p == 0x4000) || (m == 0x8000 && p == 0x8000) || (m == 0x1_0000 && p == 0x1_0000)
    || (m == 0x2_0000 && p == 0x2_0000) || (m == 0x4_0000 && p == 0x4_0000) || (m == 0x8_0000 && p == 0x8_0000)
    || (m == 0x10_0000 && p == 0x10_0000) || (m == 0x20_0000 && p == 0x20_0000) || (m == 0x40_0000 && p == 0x40_0000)
    || (m == 0x80_0000 && p == 0x80_0000) || (m == 0x100_0000 && p == 0x100_0000)
    || (m == 0x200_0000 && p == 0x200_0000) || (m == 0x400_0000 && p == 0x400_0000)
    || (m == 0x800_0000 && p == 0x800_0000) || (m == 0x1000_0000 && p == 0x1000_0000)
    || (m == 0x2000_0000 && p == 0x2000_0000) || (m == 0x4000_0000 && p == 0x4000_0000)
    || (m == 0x8000_0000 && p == 0x8000_0000)
  }

  lemma {:induction false} PlaceOf(k: nat)
    requires k < 32
    ensures IsPlace(Mask(k), Power2(k))
  {
    if k > 0 {
      PowerGrows(k, 31);
      Powers();
      PlaceOf(k - 1);
      NextPlace(Mask(k - 1), Power2(k - 1));
    }
  }

  lemma {:induction false} PowerGrows(k: nat, n: nat)
    requires k <= n
    ensures Power2(k) <= Power2(n)
  {
    if k < n { PowerGrows(k, n - 1); }
  }

  lemma NextPlace(m: bv32, p: nat)
    requires IsPlace(m, p) && p < 0x8000_0000
    ensures IsPlace(m << 1, 2 * p)
  {
  }

  /** A pattern with one bit. */
  predicate Single(m: bv32) { m & (m - 1) == 0 && m != 0 }

  lemma PlaceIsSingle(m: bv32, p: nat)
    requires IsPlace(m, p)
    ensures Single(m) && 0 < p <= 0x8000_0000
  {
  }

  // ------------------------------------------------------------ division

  /** A bit of a number, by masking. */
  predicate HasMask(x: word, m: bv32) { Vector(x) & m != 0 }

  /** Masking and dividing look at the same bit. */
  predicate Same(x: word, m: bv32, p: nat)
    requires p > 0
  {
    HasMask(x, m) == (x / p % 2 == 1)
  }

  lemma SameAll(x: word)
    ensures Same(x, 0x1, 0x1) && Same(x, 0x2, 0x2) && Same(x, 0x4, 0x4) && Same(x, 0x8, 0x8) && Same(x, 0x10, 0x10)
    ensures Same(x, 0x20, 0x20) && Same(x, 0x40, 0x40) && Same(x, 0x80, 0x80) && Same(x, 0x100, 0x100)
    ensures Same(x, 0x200, 0x200) && Same(x, 0x400, 0x400) && Same(x, 0x800, 0x800) && Same(x, 0x1000, 0x1000)
    ensures Same(x, 0x2000, 0x2000) && Same(x, 0x4000, 0x4000) && Same(x, 0x8000, 0x8000)
    ensures Same(x, 0x1_0000, 0x1_0000) && Same(x, 0x2_0000, 0x2_0000) && Same(x, 0x4_0000, 0x4_0000)
    ensures Same(x, 0x8_0000, 0x8_0000) && Same(x, 0x10_0000, 0x10_0000) && Same(x, 0x20_0000, 0x20_0000)
    ensures Same(x, 0x40_0000, 0x40_0000) && Same(x, 0x80_0000, 0x80_0000) && Same(x, 0x100_0000, 0x100_0000)
    ensures Same(x, 0x200_0000, 0x200_0000) && Same(x, 0x400_0000, 0x400_0000) && Same(x, 0x800_0000, 0x800_0000)
    ensures Same(x, 0x1000_0000, 0x1000_0000) && Same(x, 0x2000_0000, 0x2000_0000)
    ensures Same(x, 0x4000_0000, 0x4000_0000) && Same(x, 0x8000_0000, 0x8000_0000)
  {
  }

  lemma SameAt(x: word, m: bv32, p: nat)
    requires p > 0 && IsPlace(m, p)
    ensures Same(x, m, p)
  {
    hide Same;
    SameAll(x);
  }

  /** Bit `k` by division. */
  lemma {:induction false} BitByDivision(x: nat, k: nat)
    ensures BitOf(x, k) == (x / Power2(k) % 2 == 1)
  {
    if k > 0 {
      BitByDivision(x / 2, k - 1);
      DivideTwice(x, Power2(k - 1));
    }
  }

  lemma DivideTwice(x: nat, p: nat)
    requires p > 0
    ensures x / 2 / p == x / (2 * p)
  {
    var q, r := x / (2 * p), x % (2 * p);
    assert x == r + 2 * p * q;
    assert x / 2 == r / 2 + p * q;
    assert r / 2 < p;
    FieldsSplit(r / 2, q, p);
  }

  /** Bit `k` by masking. */
  lemma BitByMask(x: word, k: nat, m: bv32)
    requires k < 32 && m == Mask(k)
    ensures BitOf(x, k) == HasMask(x, m)
  {
    hide IsPlace, Power2, BitOf, Mask, Single, HasMask;
    PlaceOf(k);
    PlaceIsSingle(m, Power2(k));
    SameAt(x, m, Power2(k));
    BitByDivision(x, k);
  }

  /** The pattern for bit `k`. */
  lemma TakeMask(k: nat) returns (m: bv32)
    requires k < 32
    ensures m == Mask(k) && Single(m)
  {
    hide IsPlace, Power2, Mask, Single;
    m := Mask(k);
    PlaceOf(k);
    PlaceIsSingle(m, Power2(k));
  }

  lemma BackAgain(v: bv32)
    ensures Vector(Number(v)) == v
  {
  }

  lemma XorRaw(x: bv32, y: bv32, m: bv32)
    requires m & (m - 1) == 0 && m != 0
    ensures ((x ^ y) & m != 0) == ((x & m != 0) != (y & m != 0))
  {
  }

  lemma XorAt(x: word, y: word, r: word, m: bv32, v: bv32, a: bv32, b: bv32)
    requires Single(m) && a == Vector(x) && b == Vector(y) && v == Vector(r) && v == a ^ b
    ensures HasMask(r, m) == (HasMask(x, m) != HasMask(y, m))
  {
    hide Vector;
    XorRaw(a, b, m);
  }

  lemma XorBits(x: word, y: word, k: nat)
    requires k < 32
    ensures BitOf(Words.Xor(x, y), k) == (BitOf(x, k) != BitOf(y, k))
  {
    hide BitOf, HasMask, Mask, Single, Vector, Number;
    var m := TakeMask(k);
    var r := Words.Xor(x, y);
    BackAgain(Vector(x) ^ Vector(y));
    XorAt(x, y, r, m, Vector(r), Vector(x), Vector(y));
    BitByMask(x, k, m);
    BitByMask(y, k, m);
    BitByMask(r, k, m);
  }
}
