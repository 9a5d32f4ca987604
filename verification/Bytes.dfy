/** Bytes, fixed-width words and the slice facts every component needs. */
module Bytes {

  type byte = b: int | 0 <= b < 256

  datatype Option<+T> = None | Some(value: T)

  /** The low `k` bytes of `n`, least significant first. */
  function BytesOf(n: nat, k: nat): (r: seq<byte>)
    ensures |r| == k
    decreases n, k
  {
    if k == 0 then [] else [n % 256] + BytesOf(n / 256, k - 1)
  }

  function Backwards(s: seq<byte>): (r: seq<byte>)
    requires |s| == 4
    ensures r == [s[3], s[2], s[1], s[0]]
  {
    [s[3], s[2], s[1], s[0]]
  }

  /** The C cast to an unsigned 32-bit integer followed by a little-endian store. */
  function Le32(n: nat): (r: seq<byte>)
    ensures |r| == 4
  {
    BytesOf(n, 4)
  }

  function Be32(n: nat): (r: seq<byte>)
    ensures |r| == 4
  {
    Backwards(BytesOf(n, 4))
  }

  lemma FourBytes(n: nat)
    ensures Le32(n) == [n % 256, n / 0x100 % 256, n / 0x1_0000 % 256, n / 0x100_0000 % 256]
    ensures Be32(n) == [n / 0x100_0000 % 256, n / 0x1_0000 % 256, n / 0x100 % 256, n % 256]
  {
    var a := n / 256;
    var b := a / 256;
    var c := b / 256;
    assert b == n / 0x1_0000 && c == n / 0x100_0000;
    assert BytesOf(c, 1) == [c % 256] + BytesOf(c / 256, 0);
    assert BytesOf(b, 2) == [b % 256] + BytesOf(c, 1);
    assert BytesOf(a, 3) == [a % 256] + BytesOf(b, 2);
    assert BytesOf(n, 4) == [n % 256] + BytesOf(a, 3);
  }

  function Be16(n: nat): (r: seq<byte>)
    ensures |r| == 2
  {
    [n / 256 % 256, n % 256]
  }

  function GetBe16(s: seq<byte>): nat
    requires |s| == 2
  {
    0x100 * (s[0] as nat) + s[1] as nat
  }

  lemma Be16RoundTrip(n: nat)
    requires n < 0x1_0000
    ensures GetBe16(Be16(n)) == n
  {
  }

  function Min(a: nat, b: nat): nat { if a < b then a else b }

  lemma Assoc<T>(a: seq<T>, b: seq<T>, c: seq<T>)
    ensures a + b + c == a + (b + c)
  {
  }

  lemma CutAt<T>(s: seq<T>, a: nat, b: nat, c: nat)
    requires a <= b <= c <= |s|
    ensures s[a..c] == s[a..b] + s[b..c]
  {
  }

  /** The 32-bit word with the given bytes, least significant first. */
  function Word(a: nat, b: nat, c: nat, d: nat): (n: nat) {
    a + 0x100 * (b + 0x100 * (c + 0x100 * d))
  }

  function GetLe32(s: seq<byte>): (n: nat)
    requires |s| == 4
  {
    Word(s[0], s[1], s[2], s[3])
  }

  function GetBe32(s: seq<byte>): (n: nat)
    requires |s| == 4
  {
    Word(s[3], s[2], s[1], s[0])
  }

  lemma WordRoundTrip(n: nat)
    ensures GetLe32(Le32(n)) == n % 0x1_0000_0000
    ensures GetBe32(Be32(n)) == n % 0x1_0000_0000
  {
    FourBytes(n);
    var a, b, c := n / 0x100, n / 0x1_0000, n / 0x100_0000;
    assert b == a / 0x100 && c == b / 0x100;
    assert n / 0x1_0000_0000 == c / 0x100;
  }

  lemma SmallWord(n: nat)
    requires n < 0x1_0000_0000
    ensures GetLe32(Le32(n)) == n && GetBe32(Be32(n)) == n
  {
    WordRoundTrip(n);
  }

  lemma BytesRoundTrip(s: seq<byte>)
    requires |s| == 4
    ensures GetLe32(s) < 0x1_0000_0000 && Le32(GetLe32(s)) == s
    ensures GetBe32(s) < 0x1_0000_0000 && Be32(GetBe32(s)) == s
  {
    WordDigits(s[0], s[1], s[2], s[3]);
    WordDigits(s[3], s[2], s[1], s[0]);
  }

  lemma WordDigits(a: nat, b: nat, c: nat, d: nat)
    requires a < 256 && b < 256 && c < 256 && d < 256
    ensures Word(a, b, c, d) < 0x1_0000_0000
    ensures Le32(Word(a, b, c, d)) == [a, b, c, d]
    ensures Be32(Word(a, b, c, d)) == [d, c, b, a]
  {
    var n := Word(a, b, c, d);
    FourBytes(n);
    var n1 := b + 0x100 * (c + 0x100 * d);
    var n2 := c + 0x100 * d;
    assert n / 0x100 == n1 && n % 0x100 == a;
    assert n1 / 0x100 == n2 && n1 % 0x100 == b;
    assert n2 / 0x100 == d && n2 % 0x100 == c;
    assert n / 0x1_0000 == n2 && n / 0x100_0000 == d;
  }

  /** Quotient and remainder of a two-digit number. */
  lemma FieldsSplit(lo: nat, hi: nat, base: nat)
    requires lo < base
    ensures (lo + base * hi) % base == lo && (lo + base * hi) / base == hi
  {
    var n := lo + base * hi;
    var q, r := n / base, n % base;
    assert base * (q - hi) == lo - r;
    MulAtLeast(base, q - hi);
  }

  lemma MulAtLeast(base: int, d: int)
    requires base >= 0
    ensures d >= 1 ==> base * d >= base
    ensures d <= -1 ==> base * d <= -base
  {
  }

  function Power2(n: nat): (p: nat)
    ensures p > 0
  {
    if n == 0 then 1 else 2 * Power2(n - 1)
  }

  function Zeros(n: nat): (r: seq<byte>)
    ensures |r| == n
    ensures forall i :: 0 <= i < n ==> r[i] == 0
  {
    seq(n, i => 0)
  }

  /** `(x + 3) & ~3` */
  function RoundUp4(n: nat): (r: nat)
    ensures n <= r < n + 4 && r % 4 == 0
  {
    (n + 3) / 4 * 4
  }

  /** `s` holds the bytes `t` at offset `at`. */
  ghost predicate HoldsAt(s: seq<byte>, at: nat, t: seq<byte>)
  {
    at + |t| <= |s| && s[at..at + |t|] == t
  }

  lemma HoldsAtSplit(s: seq<byte>, at: nat, t: seq<byte>, u: seq<byte>)
    ensures HoldsAt(s, at, t + u) <==> HoldsAt(s, at, t) && HoldsAt(s, at + |t|, u)
  {
    if HoldsAt(s, at, t + u) {
      assert s[at..at + |t|] == s[at..at + |t + u|][..|t|] == t;
      assert s[at + |t|..at + |t| + |u|] == s[at..at + |t + u|][|t|..] == u;
    }
    if HoldsAt(s, at, t) && HoldsAt(s, at + |t|, u) {
      assert s[at..at + |t + u|] == s[at..at + |t|] + s[at + |t|..at + |t| + |u|];
    }
  }

  lemma HoldsAtSplit3(s: seq<byte>, at: nat, t: seq<byte>, u: seq<byte>, v: seq<byte>)
    ensures HoldsAt(s, at, t + u + v)
            <==> HoldsAt(s, at, t) && HoldsAt(s, at + |t|, u) && HoldsAt(s, at + |t| + |u|, v)
  {
    HoldsAtSplit(s, at, t + u, v);
    HoldsAtSplit(s, at, t, u);
  }

  lemma HoldsAtSlice(s: seq<byte>, at: nat, t: seq<byte>, i: nat, j: nat)
    requires HoldsAt(s, at, t) && i <= j <= |t|
    ensures HoldsAt(s, at + i, t[i..j])
  {
    forall k | i <= k < j ensures s[at + k] == t[k] {
      assert s[at..at + |t|][k] == t[k];
    }
    assert s[at + i..at + j] == t[i..j];
  }

  lemma HeldWithin(s: seq<byte>, at: nat, t: seq<byte>, i: nat, u: seq<byte>)
    requires HoldsAt(s, at, t) && HoldsAt(t, i, u)
    ensures HoldsAt(s, at + i, u)
  {
    HoldsAtSlice(s, at, t, i, i + |u|);
  }

  lemma HeldLater(front: seq<byte>, back: seq<byte>, at: nat, s: seq<byte>)
    requires HoldsAt(back, at, s)
    ensures HoldsAt(front + back, |front| + at, s)
  {
    assert (front + back)[|front| + at..|front| + at + |s|] == back[at..at + |s|];
  }

  lemma SliceOfRest(s: seq<byte>, n: nat, from: nat, to: nat)
    requires from <= to && n + to <= |s|
    ensures s[n + from..n + to] == s[n..][from..to]
  {
    forall k: nat | k < to - from ensures s[n + from..n + to][k] == s[n..][from..to][k] {
      assert s[n..][from + k] == s[n + from + k];
    }
  }
}
