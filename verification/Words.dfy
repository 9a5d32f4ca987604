/** 32-bit words as the hash standards use them, and the same operations on 64-bit `unsigned long`s whose
    upper half nobody clears. */
module Words {
  import opened Bytes

  const M32 := 0x1_0000_0000
  const M64 := 0x1_0000_0000_0000_0000

  type word = n: int | 0 <= n < 0x1_0000_0000
  type long = n: int | 0 <= n < 0x1_0000_0000_0000_0000

  function Add(x: word, y: word): word { (x + y) % M32 }

  /** A word as a bit pattern, and back. */
  function Vector(x: word): bv32 { x as bv32 }
  function Number(v: bv32): word { v as int }

  function Xor(x: word, y: word): word { Number(Vector(x) ^ Vector(y)) }
  function Or(x: word, y: word): word { Number(Vector(x) | Vector(y)) }

  /** `(x << s) | (x >> (32 - s))` */
  function RotateLeft(x: word, s: nat): word
    requires 0 < s < 32
  {
    QuotientFits(x, Power2(32 - s));
    Or(x * Power2(s) % M32, x / Power2(32 - s))
  }

  lemma QuotientFits(x: word, p: nat)
    requires p > 0
    ensures 0 <= x / p < M32
  {
  }

  lemma ModuloAdd(a: int, b: int)
    ensures (a % M32 + b) % M32 == (a + b) % M32
  {
    var q := a / M32;
    assert a + b == M32 * q + (a % M32 + b);
    assert (a % M32 + b) % M32 == (a + b) % M32;
  }

  // ------------------------------------------------------------ 64-bit words

  /** The half that matters. */
  function Low(x: long): word { x % M32 }
  function High(x: long): word { x / M32 }

  function Halves(high: word, low: word): (x: long)
    ensures Low(x) == low && High(x) == high
  {
    FieldsSplit(low, high, M32);
    low + M32 * high
  }

  function AddLong(x: long, y: long): long { (x + y) % M64 }

  /** Bitwise operators act on each half. */
  function XorLong(x: long, y: long): long { Halves(Xor(High(x), High(y)), Xor(Low(x), Low(y))) }
  function OrLong(x: long, y: long): long { Halves(Or(High(x), High(y)), Or(Low(x), Low(y))) }

  /** `(x << n) | ((x & 0xFFFFFFFF) >> (32 - n))` */
  function S(x: long, n: nat): long
    requires 0 < n < 32
  {
    QuotientFits(Low(x), Power2(32 - n));
    OrLong(x * Power2(n) % M64, Low(x) / Power2(32 - n))
  }

  lemma LowModulo(n: nat)
    ensures n % M64 % M32 == n % M32
  {
    var q := n / M64;
    assert n == M32 * (M32 * q) + n % M64;
    ModuloAdd(M32 * (M32 * q), n % M64);
  }

  /** The two low words of a number. */
  lemma TwoWords(n: nat)
    ensures n % M32 + M32 * (n / M32 % M32) == n % M64
  {
    var q := n / M32;
    FieldsSplit(n % M32 + M32 * (q % M32), q / M32, M64);
  }

  /** Carries out of the low half never come back into it. */
  lemma LowAdd(x: long, y: long)
    ensures Low(AddLong(x, y)) == Add(Low(x), Low(y))
  {
    LowModulo(x + y);
    ModuloAdd(x, y);
    ModuloAdd(y, Low(x));
  }

  lemma LowProduct(x: nat, p: nat)
    ensures x * p % M32 == x % M32 * p % M32
  {
    var q := x / M32;
    assert x * p == M32 * (q * p) + x % M32 * p by {
      assert x == M32 * q + x % M32;
    }
    ModuloAdd(M32 * (q * p), x % M32 * p);
    assert M32 * (q * p) % M32 == 0;
  }

  /** The masked shift brings the right bits back in from the top of the low half. */
  lemma LowRotate(x: long, n: nat)
    requires 0 < n < 32
    ensures Low(S(x, n)) == RotateLeft(Low(x), n)
  {
    hide Or, Power2;
    QuotientFits(Low(x), Power2(32 - n));
    LowModulo(x * Power2(n));
    LowProduct(x, Power2(n));
  }

  lemma SumOrder(s: word, f: word, k: word, x: word, e: word)
    ensures Add(e, Add(Add(Add(s, f), k), x)) == (s + f + e + x + k) % M32
  {
    ModuloAdd(s + f, k);
    ModuloAdd(s + f + k, x);
    ModuloAdd(s + f + k + x, e);
  }
}
