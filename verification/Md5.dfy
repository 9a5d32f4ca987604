/** The MD5 message digest of RFC 1321, sections 3.1 to 3.5. */
module Md5 {
  import opened Bytes
  import opened HashStream
  import opened Words

  /** The auxiliary functions of section 3.4. */
  function F(x: word, y: word, z: word): word { Number(FV(Vector(x), Vector(y), Vector(z))) }
  function G(x: word, y: word, z: word): word { Number(GV(Vector(x), Vector(y), Vector(z))) }
  function H(x: word, y: word, z: word): word { Number(HV(Vector(x), Vector(y), Vector(z))) }
  function I(x: word, y: word, z: word): word { Number(IV(Vector(x), Vector(y), Vector(z))) }

  function FV(x: bv32, y: bv32, z: bv32): bv32 { (x & y) | (!x & z) }
  function GV(x: bv32, y: bv32, z: bv32): bv32 { (x & z) | (y & !z) }
  function HV(x: bv32, y: bv32, z: bv32): bv32 { x ^ y ^ z }
  function IV(x: bv32, y: bv32, z: bv32): bv32 { y ^ (x | !z) }

  datatype Regs = Regs(a: word, b: word, c: word, d: word)

  const INIT := Regs(0x67452301, 0xefcdab89, 0x98badcfe, 0x10325476)

  /** Which word of the block operation `i` uses. */
  function Index(i: nat): (k: nat)
    ensures k < 16
  {
    if i < 16 then i % 16 else if i < 32 then (1 + 5 * i) % 16 else if i < 48 then (5 + 3 * i) % 16 else 7 * i % 16
  }

  function Shift(i: nat): (s: nat)
    ensures 0 < s < 32
  {
    var j := i % 4;
    if i < 16 then (if j == 0 then 7 else if j == 1 then 12 else if j == 2 then 17 else 22)
    else if i < 32 then (if j == 0 then 5 else if j == 1 then 9 else if j == 2 then 14 else 20)
    else if i < 48 then (if j == 0 then 4 else if j == 1 then 11 else if j == 2 then 16 else 23)
    else (if j == 0 then 6 else if j == 1 then 10 else if j == 2 then 15 else 21)
  }

  /** The constants T[i + 1], integer parts of 4294967296 times abs(sin(i + 1)). */
  function Sine(i: nat): word {
    if i < 16 then Sine1(i) else if i < 32 then Sine2(i - 16) else if i < 48 then Sine3(i - 32) else Sine4(i - 48)
  }

  function Sine1(j: nat): word {
    match j
    case 0 => 0xd76aa478
    case 1 => 0xe8c7b756
    case 2 => 0x242070db
    case 3 => 0xc1bdceee
    case 4 => 0xf57c0faf
    case 5 => 0x4787c62a
    case 6 => 0xa8304613
    case 7 => 0xfd469501
    case 8 => 0x698098d8
    case 9 => 0x8b44f7af
    case 10 => 0xffff5bb1
    case 11 => 0x895cd7be
    case 12 => 0x6b901122
    case 13 => 0xfd987193
    case 14 => 0xa679438e
    case _ => 0x49b40821
  }

  function Sine2(j: nat): word {
    match j
    case 0 => 0xf61e2562
    case 1 => 0xc040b340
    case 2 => 0x265e5a51
    case 3 => 0xe9b6c7aa
    case 4 => 0xd62f105d
    case 5 => 0x02441453
    case 6 => 0xd8a1e681
    case 7 => 0xe7d3fbc8
    case 8 => 0x21e1cde6
    case 9 => 0xc33707d6
    case 10 => 0xf4d50d87
    case 11 => 0x455a14ed
    case 12 => 0xa9e3e905
    case 13 => 0xfcefa3f8
    case 14 => 0x676f02d9
    case _ => 0x8d2a4c8a
  }

  function Sine3(j: nat): word {
    match j
    case 0 => 0xfffa3942
    case 1 => 0x8771f681
    case 2 => 0x6d9d6122
    case 3 => 0xfde5380c
    case 4 => 0xa4beea44
    case 5 => 0x4bdecfa9
    case 6 => 0xf6bb4b60
    case 7 => 0xbebfbc70
    case 8 => 0x289b7ec6
    case 9 => 0xeaa127fa
    case 10 => 0xd4ef3085
    case 11 => 0x04881d05
    case 12 => 0xd9d4d039
    case 13 => 0xe6db99e5
    case 14 => 0x1fa27cf8
    case _ => 0xc4ac5665
  }

  function Sine4(j: nat): word {
    match j
    case 0 => 0xf4292244
    case 1 => 0x432aff97
    case 2 => 0xab9423a7
    case 3 => 0xfc93a039
    case 4 => 0x655b59c3
    case 5 => 0x8f0ccc92
    case 6 => 0xffeff47d
    case 7 => 0x85845dd1
    case 8 => 0x6fa87e4f
    case 9 => 0xfe2ce6e0
    case 10 => 0xa3014314
    case 11 => 0x4e0811a1
    case 12 => 0xf7537e82
    case 13 => 0xbd3af235
    case 14 => 0x2ad7d2bb
    case _ => 0xeb86d391
  }

  function Mix(i: nat, x: word, y: word, z: word): word {
    if i < 16 then F(x, y, z) else if i < 32 then G(x, y, z) else if i < 48 then H(x, y, z) else I(x, y, z)
  }

  /** `b + ((a + f + x + t) <<< s)` */
  function Step(a: word, b: word, f: word, x: word, s: nat, t: word): word
    requires 0 < s < 32
  {
    Add(b, RotateLeft((a + f + x + t) % M32, s))
  }

  /** Operation `i`; afterwards the registers have moved on by one place. */
  function Op(x: seq<word>, r: Regs, i: nat): Regs
    requires |x| == 16
  {
    Regs(r.d, Step(r.a, r.b, Mix(i, r.b, r.c, r.d), x[Index(i)], Shift(i), Sine(i)), r.b, r.c)
  }

  /** Four operations, one line of the RFC; afterwards every register is back in its place. */
  function Line(x: seq<word>, r: Regs, i: nat): Regs
    requires |x| == 16
  {
    Op(x, Op(x, Op(x, Op(x, r, i), i + 1), i + 2), i + 3)
  }

  /** The first `n` lines of section 3.4. */
  function Lines(x: seq<word>, r: Regs, n: nat): Regs
    requires |x| == 16
  {
    if n == 0 then r else Line(x, Lines(x, r, n - 1), 4 * (n - 1))
  }

  lemma LinesNext(x: seq<word>, r: Regs, n: nat)
    requires |x| == 16
    ensures Lines(x, r, 0) == r && Lines(x, r, n + 1) == Line(x, Lines(x, r, n), 4 * n)
  {
  }

  /** The sixteen words of a block, low-order byte first. */
  function BlockWords(b: seq<byte>): (x: seq<word>)
    requires |b| == 64
    ensures |x| == 16
  {
    seq(16, i requires 0 <= i < 16 => WordAt(b, i))
  }

  function WordAt(b: seq<byte>, i: nat): word
    requires |b| == 64 && i < 16
  {
    BytesRoundTrip(b[4 * i..4 * i + 4]);
    GetLe32(b[4 * i..4 * i + 4])
  }

  function Plus(r: Regs, s: Regs): Regs { Regs(Add(r.a, s.a), Add(r.b, s.b), Add(r.c, s.c), Add(r.d, s.d)) }

  function Compress(r: Regs, b: seq<byte>): Regs {
    if |b| != 64 then r else Plus(r, Lines(BlockWords(b), r, 16))
  }

  /** The length in bits modulo 2^64, low-order word first (section 3.2). */
  function LengthBytes(n: nat): (r: seq<byte>)
    ensures |r| == 8
  {
    Le32(8 * n) + Le32(8 * n / M32)
  }

  function Padded(m: seq<byte>): (r: seq<byte>)
    ensures |r| % 64 == 0
  {
    hide Fill, LengthBytes;
    WholeBlocks<byte>(m, 0x80, 0, LengthBytes(|m|));
    m + Fill<byte>(0x80, 0, |m|) + LengthBytes(|m|)
  }

  function Output(r: Regs): (d: seq<byte>)
    ensures |d| == 16
  {
    Le32(r.a) + Le32(r.b) + Le32(r.c) + Le32(r.d)
  }

  function Digest(m: seq<byte>): (d: seq<byte>)
    ensures |d| == 16
  {
    Output(Absorb(Compress, INIT, Padded(m)))
  }

  const PAD: seq<byte> := [0x80] + Zeros(63)

  /** The padding is a prefix of the constant that both programs keep. */
  lemma PadIs(n: nat)
    ensures |PAD| == 64 && 1 + (55 - n) % 64 <= 64 && PAD[..1 + (55 - n) % 64] == Fill<byte>(0x80, 0, n)
  {
  }

  /** The padding and the length, appended to the stream, complete its last block. */
  lemma StreamEnd(m: seq<byte>, st: Regs)
    requires Streaming(Compress, INIT, m + Fill<byte>(0x80, 0, |m|) + LengthBytes(|m|), st, [])
    ensures Output(st) == Digest(m)
  {
    StreamSize(Compress, INIT, m + Fill<byte>(0x80, 0, |m|) + LengthBytes(|m|), st, []);
  }

  // ------------------------------------------------------------ the bit counter

  /** Two 32-bit words hold the number of message bits modulo 2^64. */
  predicate Counts(low: word, high: word, n: nat) {
    low == 8 * n % M32 && high == 8 * n / M32 % M32
  }

  /** Adding the low words, carrying by comparison, and adding the high bits counts `k` more bytes. */
  lemma CountMore(low: word, high: word, n: nat, k: nat)
    requires Counts(low, high, n) && k < M32
    ensures var low', carry := (low + 8 * k) % M32, if (low + 8 * k) % M32 < 8 * k % M32 then 1 else 0;
            Counts(low', (high + k / 0x2000_0000 + carry) % M32, n + k)
    ensures (low + 8 * k) % M32 < 8 * k % M32 <==> (low + 8 * k % M32) % M32 < low
  {
    var x := 8 * k % M32;
    assert 8 * k == M32 * (k / 0x2000_0000) + x by { assert 8 * k / M32 == k / 0x2000_0000; }
    var total := 8 * n + 8 * k;
    var q := 8 * n / M32;
    assert 8 * n == M32 * q + low;
    assert total == M32 * (q + k / 0x2000_0000) + (low + x);
    var carry := if low + x >= M32 then 1 else 0;
    var low' := low + x - M32 * carry;
    DivMod(total, q + k / 0x2000_0000 + carry, low');
    DivMod(low + 8 * k, k / 0x2000_0000 + carry, low');
    ModuloAdd(q, k / 0x2000_0000 + carry);
  }

  lemma DivMod(n: nat, q: nat, r: nat)
    requires n == M32 * q + r && r < M32
    ensures n / M32 == q && n % M32 == r
  {
  }

  /** Reducing the addend first makes no difference. */
  lemma ModuloTwice(a: nat, k: nat)
    ensures (a + 8 * k % M32) % M32 == (a + 8 * k) % M32
  {
    ModuloAdd(8 * k, a);
  }

  /** The counter gives the number of waiting bytes. */
  lemma CountOffset(low: word, high: word, n: nat)
    requires Counts(low, high, n)
    ensures low / 8 % 64 == n % 64
    ensures Le32(low) + Le32(high) == LengthBytes(n)
  {
    LowOffset(n);
    Le32Modulo(8 * n);
    Le32Modulo(8 * n / M32);
  }

  lemma LowOffset(n: nat)
    ensures 8 * n % M32 / 8 % 64 == n % 64
  {
    var q, r := n / 0x2000_0000, n % 0x2000_0000;
    assert 8 * n == M32 * q + 8 * r;
    DivMod(8 * n, q, 8 * r);
    assert 8 * r / 8 == r;
    assert n == 64 * (0x80_0000 * q) + r;
  }

  lemma Le32Modulo(n: nat)
    ensures Le32(n % M32) == Le32(n)
  {
    WordRoundTrip(n);
    BytesRoundTrip(Le32(n));
  }
}
