/** The secure hash algorithm of FIPS PUB 180-1. */
module Sha1 {
  import opened Bytes
  import opened HashStream
  import opened Words

  /** The functions of section 5. */
  function Ch(b: word, c: word, d: word): word { Number(ChV(Vector(b), Vector(c), Vector(d))) }
  function Parity(b: word, c: word, d: word): word { Number(ParityV(Vector(b), Vector(c), Vector(d))) }
  function Maj(b: word, c: word, d: word): word { Number(MajV(Vector(b), Vector(c), Vector(d))) }

  function ChV(b: bv32, c: bv32, d: bv32): bv32 { (b & c) | (!b & d) }
  function ParityV(b: bv32, c: bv32, d: bv32): bv32 { b ^ c ^ d }
  function MajV(b: bv32, c: bv32, d: bv32): bv32 { (b & c) | (b & d) | (c & d) }

  function Mix(t: nat, b: word, c: word, d: word): word {
    if t < 20 then Ch(b, c, d) else if t < 40 then Parity(b, c, d) else if t < 60 then Maj(b, c, d) else Parity(b, c, d)
  }

  function K(t: nat): word {
    if t < 20 then 0x5A827999 else if t < 40 then 0x6ED9EBA1 else if t < 60 then 0x8F1BBCDC else 0xCA62C1D6
  }

  function WordAt(block: seq<byte>, t: nat): word
    requires |block| == 64 && t < 16
  {
    BytesRoundTrip(block[4 * t..4 * t + 4]);
    GetBe32(block[4 * t..4 * t + 4])
  }

  /** The 80-word schedule. */
  function W(block: seq<byte>, t: nat): word
    requires |block| == 64
  {
    if t < 16 then WordAt(block, t)
    else RotateLeft(Xor(Xor(Xor(W(block, t - 3), W(block, t - 8)), W(block, t - 14)), W(block, t - 16)), 1)
  }

  datatype Regs = Regs(a: word, b: word, c: word, d: word, e: word)

  const INIT := Regs(0x67452301, 0xEFCDAB89, 0x98BADCFE, 0x10325476, 0xC3D2E1F0)

  function Temp(a: word, f: word, e: word, w: word, k: word): word { (RotateLeft(a, 5) + f + e + w + k) % M32 }

  /** Step `t` of section 7. */
  function Op(block: seq<byte>, r: Regs, t: nat): Regs
    requires |block| == 64
  {
    Regs(Temp(r.a, Mix(t, r.b, r.c, r.d), r.e, W(block, t), K(t)), r.a, RotateLeft(r.b, 30), r.c, r.d)
  }

  /** Five steps, after which every register is back in its place. */
  function Five(block: seq<byte>, r: Regs, t: nat): Regs
    requires |block| == 64
  {
    Op(block, Op(block, Op(block, Op(block, Op(block, r, t), t + 1), t + 2), t + 3), t + 4)
  }

  function Fives(block: seq<byte>, r: Regs, n: nat): Regs
    requires |block| == 64
  {
    if n == 0 then r else Five(block, Fives(block, r, n - 1), 5 * (n - 1))
  }

  lemma FivesNext(block: seq<byte>, r: Regs, n: nat)
    requires |block| == 64
    ensures Fives(block, r, 0) == r && Fives(block, r, n + 1) == Five(block, Fives(block, r, n), 5 * n)
  {
  }

  function Plus(r: Regs, s: Regs): Regs {
    Regs(Add(r.a, s.a), Add(r.b, s.b), Add(r.c, s.c), Add(r.d, s.d), Add(r.e, s.e))
  }

  function Compress(r: Regs, block: seq<byte>): Regs {
    if |block| != 64 then r else Plus(r, Fives(block, r, 16))
  }

  /** The length in bits as two words, the high-order word first (section 4). */
  function LengthBytes(n: nat): (r: seq<byte>)
    ensures |r| == 8
  {
    Be32(8 * n / M32) + Be32(8 * n)
  }

  function Padded(m: seq<byte>): seq<byte> { m + Fill<byte>(0x80, 0, |m|) + LengthBytes(|m|) }

  function Output(r: Regs): (d: seq<byte>)
    ensures |d| == 20
  {
    Be32(r.a) + Be32(r.b) + Be32(r.c) + Be32(r.d) + Be32(r.e)
  }

  function Digest(m: seq<byte>): (d: seq<byte>)
    ensures |d| == 20
  {
    Output(Absorb(Compress, INIT, Padded(m)))
  }

  const PAD: seq<byte> := [0x80] + Zeros(63)

  lemma PadIs(n: nat)
    ensures |PAD| == 64 && 1 + (55 - n) % 64 <= 64 && PAD[..1 + (55 - n) % 64] == Fill<byte>(0x80, 0, n)
  {
  }

  lemma StreamEnd(m: seq<byte>, st: Regs)
    requires Streaming(Compress, INIT, Padded(m), st, [])
    ensures Output(st) == Digest(m)
  {
    StreamSize(Compress, INIT, Padded(m), st, []);
  }
}
