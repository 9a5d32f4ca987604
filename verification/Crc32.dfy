/** The CRC of section 8 of RFC 1952, bit by bit and by table, and what it detects. */
module Crc32 {
  import opened Bytes
  import opened BitSeqs

  /** A `uint32_t`, the least significant bit first. */
  type Reg = s: seq<bool> | |s| == 32 witness
    [false, false, false, false, false, false, false, false, false, false, false, false, false, false, false, false,
     false, false, false, false, false, false, false, false, false, false, false, false, false, false, false, false]

  const ZERO: Reg := Clear(32)

  /** The terms of the polynomial other than x^32. */
  const TERMS: seq<nat> := [0, 1, 2, 4, 5, 7, 8, 10, 11, 12, 16, 22, 23, 26]

  /** The polynomial with its coefficients reversed. */
  const POLY: Reg := Reversed(TERMS)

  function Reversed(terms: seq<nat>): (r: seq<bool>)
    ensures |r| == 32 && forall k :: 0 <= k < 32 ==> r[k] == (31 - k in terms)
  {
    seq(32, k requires 0 <= k < 32 => 31 - k in terms)
  }

  /** `crc >> n` */
  function ShiftRight(c: Reg, n: nat): Reg
    requires n <= 32
  {
    c[n..] + Clear(n)
  }

  /** One division step: `crc & 1 ? (crc >> 1) ^ poly : crc >> 1`. */
  function Half(c: Reg): Reg {
    if c[0] then Xor(ShiftRight(c, 1), POLY) else ShiftRight(c, 1)
  }

  function Roll(c: Reg, n: nat): Reg
    decreases n
  {
    if n == 0 then c else Roll(Half(c), n - 1)
  }

  /** The register after one more message bit. */
  function FeedBit(c: Reg, b: bool): Reg { Half(c[0 := c[0] != b]) }

  /** The register after more message bits, in the order they are sent. */
  function Feed(c: Reg, bits: seq<bool>): Reg
    decreases |bits|
  {
    if bits == [] then c else Feed(FeedBit(c, bits[0]), bits[1..])
  }

  /** The bits of a message: each byte's least significant bit first. */
  function MessageBits(m: seq<byte>): (r: seq<bool>)
    ensures |r| == 8 * |m|
  {
    if m == [] then [] else BitsOf(m[0], 8) + MessageBits(m[1..])
  }

  /** The register after the message `m`, without inversion before or after. */
  function Raw(c: Reg, m: seq<byte>): Reg { Feed(c, MessageBits(m)) }

  /** The register `crc` chained over `m`, inverted before and after. */
  function Updated(crc: Reg, m: seq<byte>): Reg { Not(Raw(Not(crc), m)) }

  /** The CRC of a message. */
  function Crc(m: seq<byte>): Reg { Updated(ZERO, m) }

  // ------------------------------------------------------------ linearity

  lemma HalfXor(a: Reg, b: Reg)
    ensures Half(Xor(a, b)) == Xor(Half(a), Half(b))
  {
  }

  lemma {:induction false} RollXor(a: Reg, b: Reg, n: nat)
    ensures Roll(Xor(a, b), n) == Xor(Roll(a, n), Roll(b, n))
    decreases n
  {
    hide Half;
    if n > 0 {
      HalfXor(a, b);
      RollXor(Half(a), Half(b), n - 1);
    }
  }

  function Wide(s: seq<bool>): Reg
    requires |s| <= 32
  {
    s + Clear(32 - |s|)
  }

  /** Division steps that only meet zeros are shifts. */
  lemma {:induction false} RollZeros(c: Reg, n: nat)
    requires n <= 32 && forall k :: 0 <= k < n ==> !c[k]
    ensures Roll(c, n) == ShiftRight(c, n)
    decreases n
  {
    if n == 0 {
      assert ShiftRight(c, 0) == c;
    } else {
      var d := ShiftRight(c, 1);
      RollZeros(d, n - 1);
      assert ShiftRight(d, n - 1) == ShiftRight(c, n);
    }
  }

  /** Feeding up to 32 bits one by one is the same as adding them all first. */
  lemma {:induction false} FeedRoll(c: Reg, bits: seq<bool>)
    requires |bits| <= 32
    ensures Feed(c, bits) == Roll(Xor(c, Wide(bits)), |bits|)
    decreases |bits|
  {
    hide Roll;
    if bits == [] {
      RollNone(c);
      assert Xor(c, Wide(bits)) == c;
    } else {
      var rest := bits[1..];
      var c1, all := c[0 := c[0] != bits[0]], Xor(c, Wide(bits));
      FeedRoll(Half(c1), rest);
      var later := [false] + Wide(rest)[..31];
      assert all == Xor(c1, later);
      HalfXor(c1, later);
      assert Half(later) == Wide(rest);
      RollNext(all, |bits|);
    }
  }

  lemma RollNone(c: Reg)
    ensures Roll(c, 0) == c
  {
  }

  lemma RollNext(c: Reg, n: nat)
    requires n > 0
    ensures Roll(c, n) == Roll(Half(c), n - 1)
  {
  }

  lemma {:induction false} FeedConcat(c: Reg, a: seq<bool>, b: seq<bool>)
    ensures Feed(c, a + b) == Feed(Feed(c, a), b)
    decreases |a|
  {
    hide FeedBit;
    if a == [] {
      assert a + b == b;
    } else {
      FeedConcat(FeedBit(c, a[0]), a[1..], b);
      assert (a + b)[1..] == a[1..] + b;
    }
  }

  lemma {:induction false} MessageConcat(a: seq<byte>, b: seq<byte>)
    ensures MessageBits(a + b) == MessageBits(a) + MessageBits(b)
  {
    hide BitsOf;
    if a == [] {
      assert a + b == b;
    } else {
      MessageConcat(a[1..], b);
      assert (a + b)[0] == a[0] && (a + b)[1..] == a[1..] + b;
      Assoc(BitsOf(a[0], 8), MessageBits(a[1..]), MessageBits(b));
    }
  }

  lemma RawConcat(c: Reg, a: seq<byte>, b: seq<byte>)
    ensures Raw(c, a + b) == Raw(Raw(c, a), b)
  {
    MessageConcat(a, b);
    FeedConcat(c, MessageBits(a), MessageBits(b));
  }

  lemma NotNot(c: Reg)
    ensures Not(Not(c)) == c
  {
  }

  /** Chained updates give the CRC of the concatenation. */
  lemma UpdatedConcat(crc: Reg, a: seq<byte>, b: seq<byte>)
    ensures Updated(crc, a + b) == Updated(Updated(crc, a), b)
  {
    hide Raw, Not;
    RawConcat(Not(crc), a, b);
    NotNot(Raw(Not(crc), a));
  }

  // ------------------------------------------------------------ the table

  /** What the table must hold for the byte `n`. */
  function Entry(n: nat): Reg { Feed(ZERO, BitsOf(n, 8)) }

  predicate IsTable(tab: seq<Reg>) {
    |tab| == 256 && forall n :: 0 <= n < 256 ==> tab[n] == Entry(n)
  }

  /** `(crc ^ byte) & 0xff` */
  function Index(c: Reg, b: byte): (i: nat)
    ensures i < 256
  {
    var low := Xor(c[..8], BitsOf(b, 8));
    BitsOfValue(low);
    EightBits();
    ValueOf(low)
  }

  lemma EightBits()
    ensures Power2(8) == 256
  {
    assert Power2(4) == 16;
  }

  /** The table step is eight division steps. */
  lemma TableStep(c: Reg, b: byte)
    ensures Xor(Entry(Index(c, b)), ShiftRight(c, 8)) == Feed(c, BitsOf(b, 8))
  {
    hide Feed, Roll, BitsOf, ValueOf, Half;
    var bits := BitsOf(b, 8);
    var low := Xor(c[..8], bits);
    var high := Clear(8) + c[8..];
    BitsOfValue(low);
    FeedRoll(c, bits);
    FeedRoll(ZERO, low);
    assert Xor(ZERO, Wide(low)) == Wide(low);
    assert Xor(c, Wide(bits)) == Xor(Wide(low), high);
    RollXor(Wide(low), high, 8);
    RollZeros(high, 8);
    assert ShiftRight(high, 8) == ShiftRight(c, 8);
  }

  /** Feeding one bit is one shift and perhaps one addition. */
  lemma HalfBit(c: Reg, b: bool)
    ensures FeedBit(c, b) == if b then Xor(Half(c), POLY) else Half(c)
  {
  }

  /** makecrc: the register starts empty and the polynomial is added for every set bit of the index. */
  method EntryByIndexBits(i: nat, e: Reg) returns (c: Reg)
    requires i < 256 && e == POLY
    ensures c == Entry(i)
  {
    hide Half, Feed, BitsOf;
    c := ZERO;
    var k := 256 + i;
    EightBits();
    ghost var m: nat, r: nat := i, 8;
    while k != 1
      invariant m < Power2(r) && k == m + Power2(r) && Feed(c, BitsOf(m, r)) == Entry(i)
      decreases r
    {
      if r == 0 { assert false; }
      SplitBit(m, r, c);
      HalfBit(c, k % 2 == 1);
      c := Half(c);
      if k % 2 == 1 {
        c := Xor(c, e);
      }
      k, m, r := k / 2, m / 2, r - 1;
    }
    LastBit(m, r, c);
  }

  method InitByIndexBits(tab: array<Reg>)
    requires tab.Length == 256
    modifies tab
    ensures IsTable(tab[..])
  {
    hide Entry;
    var e := PolynomialFromTerms();
    tab[0] := ZERO;
    EntryZero();
    var i := 1;
    while i < 256
      invariant 1 <= i <= 256 && forall n :: 0 <= n < i ==> tab[n] == Entry(n)
    {
      tab[i] := EntryByIndexBits(i, e);
      i := i + 1;
    }
    assert forall n :: 0 <= n < 256 ==> tab[..][n] == tab[n];
  }

  lemma SplitBit(m: nat, r: nat, c: Reg)
    requires r > 0 && m < Power2(r)
    ensures m / 2 < Power2(r - 1) && (m + Power2(r)) / 2 == m / 2 + Power2(r - 1)
    ensures (m + Power2(r)) % 2 == m % 2
    ensures Feed(c, BitsOf(m, r)) == Feed(FeedBit(c, m % 2 == 1), BitsOf(m / 2, r - 1))
  {
    assert BitsOf(m, r)[1..] == BitsOf(m / 2, r - 1);
  }

  lemma LastBit(m: nat, r: nat, c: Reg)
    requires m < Power2(r) && m + Power2(r) == 1
    ensures Feed(c, BitsOf(m, r)) == c
  {
    if r > 0 { assert false; }
  }

  lemma EntryZero()
    ensures Entry(0) == ZERO
  {
    hide Feed, Roll, Half;
    FeedRoll(ZERO, BitsOf(0, 8));
    forall k | 0 <= k < 8 ensures !BitsOf(0, 8)[k] { BitAt(0, 8, k); ZeroBit(k); }
    assert Xor(ZERO, Wide(BitsOf(0, 8))) == ZERO;
    RollZeros(ZERO, 8);
    assert ShiftRight(ZERO, 8) == ZERO;
  }

  lemma {:induction false} ZeroBit(k: nat)
    ensures !BitOf(0, k)
  {
    if k > 0 { ZeroBit(k - 1); }
  }

  /** The exclusive-or pattern, from the list of terms. */
  method PolynomialFromTerms() returns (e: Reg)
    ensures e == POLY
  {
    e := ZERO;
    var i := 0;
    while i < |TERMS|
      invariant i <= |TERMS| && forall k :: 0 <= k < 32 ==> e[k] == (31 - k in TERMS[..i])
    {
      assert TERMS[..i + 1] == TERMS[..i] + [TERMS[i]];
      e := e[31 - TERMS[i] := true];
      i := i + 1;
    }
    assert TERMS[..i] == TERMS;
  }

  /** RFC 1952: the register starts with the index and takes eight division steps. */
  method EntryByDivision(n: nat, poly: Reg) returns (crc: Reg)
    requires n < 256 && poly == POLY
    ensures crc == Entry(n)
  {
    hide Half, Feed, Roll, BitsOf;
    crc := Wide(BitsOf(n, 8));
    var bit := 0;
    while bit < 8
      invariant bit <= 8 && Roll(crc, 8 - bit) == Roll(Wide(BitsOf(n, 8)), 8)
    {
      RollNext(crc, 8 - bit);
      HalfIs(crc, poly);
      crc := if crc[0] then Xor(poly, ShiftRight(crc, 1)) else ShiftRight(crc, 1);
      bit := bit + 1;
    }
    RollNone(crc);
    FeedRoll(ZERO, BitsOf(n, 8));
    assert Xor(ZERO, Wide(BitsOf(n, 8))) == Wide(BitsOf(n, 8));
  }

  method InitByDivision(tab: array<Reg>)
    requires tab.Length == 256
    modifies tab
    ensures IsTable(tab[..])
  {
    hide Entry;
    PolyIs();
    var poly := BitsOf(0xEDB88320, 32);
    var n := 0;
    while n < 256
      invariant n <= 256 && forall i :: 0 <= i < n ==> tab[i] == Entry(i)
    {
      tab[n] := EntryByDivision(n, poly);
      n := n + 1;
    }
    assert forall n :: 0 <= n < 256 ==> tab[..][n] == tab[n];
  }

  lemma HalfIs(c: Reg, poly: Reg)
    requires poly == POLY
    ensures Half(c) == if c[0] then Xor(poly, ShiftRight(c, 1)) else ShiftRight(c, 1)
  {
    assert Xor(poly, ShiftRight(c, 1)) == Xor(ShiftRight(c, 1), poly);
  }

  /** `ntohl(0x2083b8ed)` on a little-endian host is the polynomial of the list of terms. */
  lemma PolyIs()
    ensures BitsOf(0xEDB88320, 32) == POLY
  {
    hide BitsOf;
    Nibble(0xEDB88320, 0x0, 28); Nibble(0xEDB8832, 0x2, 24); Nibble(0xEDB883, 0x3, 20); Nibble(0xEDB88, 0x8, 16);
    Nibble(0xEDB8, 0x8, 12); Nibble(0xEDB, 0xB, 8); Nibble(0xED, 0xD, 4); Nibble(0xE, 0xE, 0);
    NoBits(0);
    PolyNibbles();
  }

  lemma PolyNibbles()
    ensures var f, t := false, true;
            POLY == [f, f, f, f] + ([f, t, f, f] + ([t, t, f, f] + ([f, f, f, t]
                    + ([f, f, f, t] + ([t, t, f, t] + ([t, f, t, t] + ([f, t, t, t] + [])))))))
  {
  }

  lemma NoBits(n: nat)
    ensures BitsOf(n, 0) == []
  {
  }

  /** The lowest four bits of `n`, whose last hexadecimal digit is `r`. */
  lemma Nibble(n: nat, r: nat, w: nat)
    requires n % 16 == r
    ensures BitsOf(n, w + 4) == [r % 2 == 1, r / 2 % 2 == 1, r / 4 % 2 == 1, r / 8 == 1] + BitsOf(n / 16, w)
  {
    hide BitsOf;
    BitsNext(n, w + 3); BitsNext(n / 2, w + 2); BitsNext(n / 2 / 2, w + 1); BitsNext(n / 2 / 2 / 2, w);
    Digits(n, r);
    FourBits(n % 2 == 1, n / 2 % 2 == 1, n / 2 / 2 % 2 == 1, n / 2 / 2 / 2 % 2 == 1, BitsOf(n / 16, w));
  }

  lemma BitsNext(n: nat, w: nat)
    ensures BitsOf(n, w + 1) == [n % 2 == 1] + BitsOf(n / 2, w)
  {
  }

  lemma Digits(n: nat, r: nat)
    requires n % 16 == r
    ensures n % 2 == r % 2 && n / 2 % 2 == r / 2 % 2 && n / 2 / 2 % 2 == r / 4 % 2 && n / 2 / 2 / 2 % 2 == r / 8
    ensures n / 2 / 2 / 2 / 2 == n / 16
  {
    var q := n / 16;
    assert n / 2 == 8 * q + r / 2;
    assert n / 2 / 2 == 4 * q + r / 4;
    assert n / 2 / 2 / 2 == 2 * q + r / 8;
  }

  lemma FourBits(a: bool, b: bool, c: bool, d: bool, rest: seq<bool>)
    ensures [a] + ([b] + ([c] + ([d] + rest))) == [a, b, c, d] + rest
  {
  }

  // ------------------------------------------------------------ the table-driven loops

  /** update_crc */
  method UpdateCrc(tab: array<Reg>, p: seq<byte>, crc: Reg) returns (r: Reg)
    requires tab.Length == 256 && IsTable(tab[..])
    ensures r == Updated(crc, p)
  {
    var t := Fold(tab, p, Not(crc));
    r := Not(t);
  }

  /** The loop over the bytes, which both programs share. */
  method Fold(tab: array<Reg>, p: seq<byte>, start: Reg) returns (t: Reg)
    requires tab.Length == 256 && IsTable(tab[..])
    ensures t == Raw(start, p)
  {
    hide Raw, Entry;
    t := start;
    RawNothing(start);
    var i := 0;
    while i < |p|
      invariant i <= |p| && t == Raw(start, p[..i])
    {
      assert p[..i + 1] == p[..i] + [p[i]];
      RawConcat(start, p[..i], [p[i]]);
      RawByte(t, p[i]);
      TableStep(t, p[i]);
      assert tab[..][Index(t, p[i])] == tab[Index(t, p[i])];
      t := Xor(tab[Index(t, p[i])], ShiftRight(t, 8));
      i := i + 1;
    }
    assert p[..i] == p;
  }

  lemma RawNothing(c: Reg)
    ensures Raw(c, []) == c
  {
  }

  lemma RawByte(c: Reg, b: byte)
    ensures Raw(c, [b]) == Feed(c, BitsOf(b, 8))
  {
    assert [b][1..] == [];
    assert BitsOf(b, 8) + [] == BitsOf(b, 8);
  }

  // ------------------------------------------------------------ what the CRC detects

  lemma HalfInjective(a: Reg, b: Reg)
    requires Half(a) == Half(b)
    ensures a == b
  {
    assert POLY[31];
    assert Half(a)[31] == a[0] && Half(b)[31] == b[0];
    forall k | 1 <= k < 32 ensures a[k] == b[k] {
      assert ShiftRight(a, 1)[k - 1] == a[k] && ShiftRight(b, 1)[k - 1] == b[k];
      assert Half(a)[k - 1] == (a[k] != (a[0] && POLY[k - 1])) && Half(b)[k - 1] == (b[k] != (b[0] && POLY[k - 1]));
    }
  }

  lemma {:induction false} RollInjective(a: Reg, b: Reg, n: nat)
    requires Roll(a, n) == Roll(b, n)
    ensures a == b
    decreases n
  {
    hide Half;
    if n > 0 {
      RollInjective(Half(a), Half(b), n - 1);
      HalfInjective(a, b);
    }
  }

  /** Different registers stay different over the same message. */
  lemma {:induction false} FeedInjective(a: Reg, b: Reg, bits: seq<bool>)
    requires Feed(a, bits) == Feed(b, bits)
    ensures a == b
    decreases |bits|
  {
    hide Half;
    if bits != [] {
      FeedInjective(FeedBit(a, bits[0]), FeedBit(b, bits[0]), bits[1..]);
      var a1, b1 := a[0 := a[0] != bits[0]], b[0 := b[0] != bits[0]];
      HalfInjective(a1, b1);
      assert forall k :: 0 <= k < 32 ==> a1[k] == b1[k];
      forall k | 0 <= k < 32 ensures a[k] == b[k] {
        assert a1[k] == b1[k];
      }
    }
  }

  /** Up to 32 different bits give different registers. */
  lemma FeedBurst(c: Reg, a: seq<bool>, b: seq<bool>)
    requires |a| == |b| <= 32 && Feed(c, a) == Feed(c, b)
    ensures a == b
  {
    hide Feed, Roll;
    FeedRoll(c, a);
    FeedRoll(c, b);
    var x, y := Xor(c, Wide(a)), Xor(c, Wide(b));
    RollInjective(x, y, |a|);
    forall k | 0 <= k < |a| ensures a[k] == b[k] {
      assert x[k] == (c[k] != a[k]) && y[k] == (c[k] != b[k]);
    }
  }

  lemma {:induction false} MessageInjective(a: seq<byte>, b: seq<byte>)
    requires |a| == |b| && MessageBits(a) == MessageBits(b)
    ensures a == b
  {
    hide BitsOf;
    if a != [] {
      assert MessageBits(a)[..8] == BitsOf(a[0], 8) && MessageBits(b)[..8] == BitsOf(b[0], 8);
      EightBits();
      ValueOfBits(a[0], 8);
      ValueOfBits(b[0], 8);
      assert MessageBits(a)[8..] == MessageBits(a[1..]) && MessageBits(b)[8..] == MessageBits(b[1..]);
      MessageInjective(a[1..], b[1..]);
    }
  }

  /** Two messages of the same length that differ only within four consecutive bytes never have the same
      CRC, whatever surrounds those bytes. */
  lemma BurstDetected(c: Reg, front: seq<byte>, a: seq<byte>, b: seq<byte>, back: seq<byte>)
    requires |a| == |b| <= 4 && a != b
    ensures Raw(c, front + a + back) != Raw(c, front + b + back)
  {
    hide Feed, MessageBits;
    var d := Raw(c, front);
    RawConcat(c, front + a, back);
    RawConcat(c, front + b, back);
    RawConcat(c, front, a);
    RawConcat(c, front, b);
    if Raw(c, front + a + back) == Raw(c, front + b + back) {
      FeedInjective(Raw(d, a), Raw(d, b), MessageBits(back));
      FeedBurst(d, MessageBits(a), MessageBits(b));
      MessageInjective(a, b);
    }
  }
}
