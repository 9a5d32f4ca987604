/** The Buffalo cipher step by step, and the bytes of a container. */
module BuffaloKnown {
  import opened Bytes
  import opened BitSeqs
  import opened Crc32
  import opened Buffalo

  // ------------------------------------------------------------ the steps

  /** One step of the stream: the new indices, the exchange of two elements, and the key byte, in terms of the
      state before the step. */
  lemma NextLaw(c: Cipher)
    requires c.Valid()
    ensures var n, d := |c.state|, c.Next();
            && |d.state| == n && d.i == (c.i + 1) % n % 256 && d.i < n
            && d.j == (c.j + c.state[d.i] as nat) % n % 256 && d.j < n
            && (forall x :: 0 <= x < n ==>
                  d.state[x] == if x == d.i then c.state[d.j] else if x == d.j then c.state[d.i] else c.state[x])
            && d.Output() == d.state[(c.state[d.i] as nat + c.state[d.j] as nat) % n]
  {
    SmallIndex(c.i + 1, |c.state|);
    SmallIndex(c.j + c.state[(c.i + 1) % |c.state| % 256], |c.state|);
  }

  lemma NextIndices(c: Cipher)
    requires c.Valid()
    ensures c.Next().i < |c.state| && c.Next().j < |c.state|
  {
    NextLaw(c);
  }

  lemma {:induction false} StreamAt(c: Cipher, len: nat, k: nat)
    requires c.Valid() && k < len
    ensures Stepped(c, k + 1).i < |c.state| && Stepped(c, k + 1).j < |c.state|
    ensures Stream(c, len)[k] == Stepped(c, k + 1).Output()
    decreases len
  {
    hide Cipher.Output, Cipher.Next;
    NextIndices(c);
    if k == 0 {
      assert Stepped(c, 1) == Stepped(c, 0).Next();
    } else {
      StreamAt(c.Next(), len - 1, k - 1);
      SteppedFirst(c, k);
    }
  }

  lemma {:induction false} SteppedFirst(c: Cipher, n: nat)
    requires c.Valid()
    ensures Stepped(c, n + 1) == Stepped(c.Next(), n)
  {
    hide Cipher.Next;
    if n > 0 { SteppedFirst(c, n - 1); }
  }

  /** Byte `k` of the result is the data byte combined with one element of the state after `k + 1` steps: the one
      at the sum of the two elements that the last step exchanged. */
  lemma CryptByte(seed: byte, key: seq<byte>, data: seq<byte>, longstate: bool, k: nat)
    requires k < |data|
    ensures var c := Stepped(Keyed(seed, key, StateLen(|data|, longstate)), k);
            var n, d := |c.state|, c.Next();
            && d.i < n && d.j < n
            && Crypt(seed, key, data, longstate)[k]
               == XorByte(data[k], d.state[(c.state[d.i] as nat + c.state[d.j] as nat) % n])
  {
    hide XorByte, Schedule, Stream, Stepped, Cipher.Next, Cipher.Output;
    var start := Keyed(seed, key, StateLen(|data|, longstate));
    assert Crypt(seed, key, data, longstate)[k] == XorByte(data[k], Stream(start, |data|)[k]);
    StreamAt(start, |data|, k);
    SteppedNext(start, k);
    NextLaw(Stepped(start, k));
  }

  lemma SteppedNext(c: Cipher, k: nat)
    requires c.Valid()
    ensures Stepped(c, k + 1) == Stepped(c, k).Next()
  {
    hide Cipher.Next;
  }

  /** The bits of a combined byte. */
  lemma XorByteBits(x: byte, y: byte, k: nat)
    requires k < 8
    ensures BitOf(XorByte(x, y), k) == (BitOf(x, k) != BitOf(y, k))
  {
    hide BitOf, BitsOf, ValueOf;
    var bits := BitSeqs.Xor(BitsOf(x, 8), BitsOf(y, 8));
    BitsOfValue(bits);
    BitAt(x, 8, k);
    BitAt(y, 8, k);
    BitAt(XorByte(x, y), 8, k);
  }

  /** One step of the key schedule: the running sum, and the exchange of two elements. */
  lemma ScheduleLaw(key: seq<byte>, s: seq<byte>, i: nat, k: nat, k': nat, t: seq<byte>)
    requires key != [] && i < |s| && |t| == |s|
    requires k' == (k + key[i % |key|] as nat + s[i] as nat) % |s|
    requires forall x :: 0 <= x < |s| ==> t[x] == if x == i then s[k'] else if x == k' then s[i] else s[x]
    ensures Schedule(key, s, i, k) == Schedule(key, t, i + 1, k')
  {
    assert t == Swap(s, i, k');
  }

  lemma ScheduleDone(key: seq<byte>, s: seq<byte>, k: nat)
    requires key != []
    ensures Schedule(key, s, |s|, k) == s
  {
  }

  // ------------------------------------------------------------ a known ciphertext

  /** Both defaults of the program: the seed 'O' and the key "Buffalo". */
  const SEED: byte := 0x4F
  const KEY: seq<byte> := [0x42, 0x75, 0x66, 0x66, 0x61, 0x6C, 0x6F]

  lemma KnownSchedule()
    ensures Schedule([SEED] + KEY, Counting(6), 0, 0) == [2, 5, 1, 3, 0, 4]
  {
    hide Schedule;
    var key := [SEED] + KEY;
    assert Counting(6) == [0, 1, 2, 3, 4, 5];
    ScheduleLaw(key, [0, 1, 2, 3, 4, 5], 0, 0, 1, [1, 0, 2, 3, 4, 5]);
    ScheduleLaw(key, [1, 0, 2, 3, 4, 5], 1, 1, 1, [1, 0, 2, 3, 4, 5]);
    ScheduleLaw(key, [1, 0, 2, 3, 4, 5], 2, 1, 0, [2, 0, 1, 3, 4, 5]);
    ScheduleLaw(key, [2, 0, 1, 3, 4, 5], 3, 0, 3, [2, 0, 1, 3, 4, 5]);
    ScheduleLaw(key, [2, 0, 1, 3, 4, 5], 4, 3, 1, [2, 4, 1, 3, 0, 5]);
    ScheduleLaw(key, [2, 4, 1, 3, 0, 5], 5, 1, 1, [2, 5, 1, 3, 0, 4]);
    ScheduleDone(key, [2, 5, 1, 3, 0, 4], 1);
  }

  lemma StreamStep(c: Cipher, len: nat, d: Cipher, out: byte)
    requires c.Valid() && len > 0 && d == c.Next() && d.i < |d.state| && d.j < |d.state| && out == d.Output()
    ensures Stream(c, len) == [out] + Stream(d, len - 1)
  {
    hide Cipher.Next, Cipher.Output;
  }

  lemma NextIs(c: Cipher, i: nat, j: nat, t: seq<byte>, out: byte)
    requires c.Valid() && |t| == |c.state| && i == (c.i + 1) % |t| % 256 && i < |t|
    requires j == (c.j + c.state[i] as nat) % |t| % 256 && j < |t|
    requires forall x :: 0 <= x < |t| ==> t[x] == if x == i then c.state[j] else if x == j then c.state[i] else c.state[x]
    requires out == t[(t[i] as nat + t[j] as nat) % |t|]
    ensures c.Next() == Cipher(t, i, j) && Cipher(t, i, j).Output() == out
  {
    NextLaw(c);
    assert c.Next().state == t;
  }

  lemma Step0()
    ensures Stream(Cipher([2, 5, 1, 3, 0, 4], 0, 0), 6)
         == [3] + Stream(Cipher([2, 4, 1, 3, 0, 5], 1, 5), 5)
  {
    hide Stream;
    NextIs(Cipher([2, 5, 1, 3, 0, 4], 0, 0), 1, 5, [2, 4, 1, 3, 0, 5], 3);
    StreamStep(Cipher([2, 5, 1, 3, 0, 4], 0, 0), 6, Cipher([2, 4, 1, 3, 0, 5], 1, 5), 3);
  }

  lemma Step1()
    ensures Stream(Cipher([2, 4, 1, 3, 0, 5], 1, 5), 5)
         == [3] + Stream(Cipher([1, 4, 2, 3, 0, 5], 2, 0), 4)
  {
    hide Stream;
    NextIs(Cipher([2, 4, 1, 3, 0, 5], 1, 5), 2, 0, [1, 4, 2, 3, 0, 5], 3);
    StreamStep(Cipher([2, 4, 1, 3, 0, 5], 1, 5), 5, Cipher([1, 4, 2, 3, 0, 5], 2, 0), 3);
  }

  lemma Step2()
    ensures Stream(Cipher([1, 4, 2, 3, 0, 5], 2, 0), 4)
         == [1] + Stream(Cipher([1, 4, 2, 3, 0, 5], 3, 3), 3)
  {
    hide Stream;
    NextIs(Cipher([1, 4, 2, 3, 0, 5], 2, 0), 3, 3, [1, 4, 2, 3, 0, 5], 1);
    StreamStep(Cipher([1, 4, 2, 3, 0, 5], 2, 0), 4, Cipher([1, 4, 2, 3, 0, 5], 3, 3), 1);
  }

  lemma Step3()
    ensures Stream(Cipher([1, 4, 2, 3, 0, 5], 3, 3), 3)
         == [0] + Stream(Cipher([1, 4, 2, 0, 3, 5], 4, 3), 2)
  {
    hide Stream;
    NextIs(Cipher([1, 4, 2, 3, 0, 5], 3, 3), 4, 3, [1, 4, 2, 0, 3, 5], 0);
    StreamStep(Cipher([1, 4, 2, 3, 0, 5], 3, 3), 3, Cipher([1, 4, 2, 0, 3, 5], 4, 3), 0);
  }

  lemma Step4()
    ensures Stream(Cipher([1, 4, 2, 0, 3, 5], 4, 3), 2)
         == [4] + Stream(Cipher([1, 4, 5, 0, 3, 2], 5, 2), 1)
  {
    hide Stream;
    NextIs(Cipher([1, 4, 2, 0, 3, 5], 4, 3), 5, 2, [1, 4, 5, 0, 3, 2], 4);
    StreamStep(Cipher([1, 4, 2, 0, 3, 5], 4, 3), 2, Cipher([1, 4, 5, 0, 3, 2], 5, 2), 4);
  }

  lemma Step5()
    ensures Stream(Cipher([1, 4, 5, 0, 3, 2], 5, 2), 1)
         == [4] + Stream(Cipher([0, 4, 5, 1, 3, 2], 0, 3), 0)
  {
    hide Stream;
    NextIs(Cipher([1, 4, 5, 0, 3, 2], 5, 2), 0, 3, [0, 4, 5, 1, 3, 2], 4);
    StreamStep(Cipher([1, 4, 5, 0, 3, 2], 5, 2), 1, Cipher([0, 4, 5, 1, 3, 2], 0, 3), 4);
  }

  lemma KnownStream()
    ensures Stream(Cipher([2, 5, 1, 3, 0, 4], 0, 0), 6) == [3, 3, 1, 0, 4, 4]
  {
    hide Stream;
    Step0();
    Step1();
    Step2();
    Step3();
    Step4();
    Step5();
    StreamNone(Cipher([0, 4, 5, 1, 3, 2], 0, 3));
  }

  lemma StreamNone(c: Cipher)
    requires c.Valid()
    ensures Stream(c, 0) == []
  {
  }

  predicate SameBit(x: byte, y: byte, r: byte, k: nat) { BitOf(r, k) == (BitOf(x, k) != BitOf(y, k)) }

  lemma XorByteIs(x: byte, y: byte, r: byte)
    requires SameBit(x, y, r, 0) && SameBit(x, y, r, 1) && SameBit(x, y, r, 2) && SameBit(x, y, r, 3)
    requires SameBit(x, y, r, 4) && SameBit(x, y, r, 5) && SameBit(x, y, r, 6) && SameBit(x, y, r, 7)
    ensures XorByte(x, y) == r
  {
    hide BitOf, BitsOf, ValueOf;
    var bits := BitSeqs.Xor(BitsOf(x, 8), BitsOf(y, 8));
    forall k: nat | k < 8 ensures BitsOf(r, 8)[k] == bits[k] {
      BitAt(x, 8, k);
      BitAt(y, 8, k);
      BitAt(r, 8, k);
    }
    assert BitsOf(r, 8) == bits;
    EightBits();
    ValueOfBits(r, 8);
  }

  /** What the program makes of six bytes with a state as long as the data. */
  lemma KnownCiphertext()
    ensures Crypt(SEED, KEY, [0x41, 0x0, 0x73, 0x65, 0x63, 0x72], true)
         == [0x42, 0x3, 0x72, 0x65, 0x67, 0x76]
  {
    hide Schedule, Stream, XorByte;
    KnownSchedule();
    KnownStream();
    XorByteIs(0x41, 3, 0x42);
    XorByteIs(0x0, 3, 0x3);
    XorByteIs(0x73, 1, 0x72);
    XorByteIs(0x65, 0, 0x65);
    XorByteIs(0x63, 4, 0x67);
    XorByteIs(0x72, 4, 0x76);
  }

  // ------------------------------------------------------------ the container, byte by byte

  /** What stands at which offset; every seed is the first ciphertext byte of the field before. */
  lemma ContainerBytes(p: Param, data: seq<byte>)
    requires p.Valid() && |data| < 0x1_0000_0000
    ensures var b, n, m := Container(p, data), |p.product| + 1, |p.version| + 1;
            var v := 11 + n;
            var d := v + 4 + m + 4;
            && |b| == d + |data| + 4
            && b[..5] == p.magic && b[5] == 0 && b[6] == p.seed
            && GetBe32(b[7..11]) == n && b[11..v] == Crypt(p.seed, p.key, p.product + [0], p.longstate)
            && GetBe32(b[v..v + 4]) == m && b[v + 4..v + 4 + m] == Crypt(b[11], p.key, p.version + [0], p.longstate)
            && GetBe32(b[d - 4..d]) == |data| && b[d..d + |data|] == Crypt(b[v + 4], p.key, data, p.longstate)
            && b[d + |data|..] == Checksum(data)
  {
    hide Crypt, Be32, GetBe32, Checksum;
    var n, m := |p.product| + 1, |p.version| + 1;
    SmallWord(n);
    SmallWord(m);
    SmallWord(|data|);
    var b := Container(p, data);
    var a := p.magic + [0] + [p.seed];
    Pieces(a, Be32(n), CryptedProduct(p), Be32(m), CryptedVersion(p), Be32(|data|), CryptedData(p, data), Checksum(data));
    assert b == a + Be32(n) + CryptedProduct(p) + Be32(m) + CryptedVersion(p) + Be32(|data|) + CryptedData(p, data)
                + Checksum(data);
  }

  lemma Pieces(a: seq<byte>, l1: seq<byte>, x: seq<byte>, l2: seq<byte>, y: seq<byte>, l3: seq<byte>, z: seq<byte>, c: seq<byte>)
    requires |a| == 7 && |l1| == |l2| == |l3| == |c| == 4 && |x| > 0 && |y| > 0
    ensures var b := a + l1 + x + l2 + y + l3 + z + c;
            var v := 11 + |x|;
            var d := v + 8 + |y|;
            && |b| == d + |z| + 4 && b[..7] == a && b[7..11] == l1 && b[11..v] == x && b[v..v + 4] == l2
            && b[v + 4..d - 4] == y && b[d - 4..d] == l3 && b[d..d + |z|] == z && b[d + |z|..] == c
            && b[11] == x[0] && b[v + 4] == y[0]
  {
  }

  /** Any other checksum is refused. */
  lemma WrongChecksumRefused(p: Param, data: seq<byte>, csum: seq<byte>, more: seq<byte>)
    requires p.Valid() && |data| < 0x1_0000_0000 && |csum| == 4 && csum != Checksum(data)
    ensures Decrypted(p.key, p.longstate, Header(p, |data|) + CryptedData(p, data) + csum + more) == None
  {
    hide Crypt, Be32, Checksum, TakeField;
    var product, version, crypted := CryptedProduct(p), CryptedVersion(p), CryptedData(p, data);
    var b := Header(p, |data|) + crypted + csum + more;
    var b3 := csum + more;
    var b2 := Be32(|data|) + crypted + b3;
    var b1 := Be32(|version|) + version + b2;
    var b0 := Be32(|product|) + product + b1;
    assert b == (p.magic + [0] + [p.seed]) + b0;
    assert b[MAGIC_LEN + 1..] == b0 && b3[..4] == csum;
    TakeBack(product, b1, PRODUCT_LEN);
    TakeBack(version, b2, VERSION_LEN);
    TakeBack(crypted, b3, 0x1_0000_0000);
    CryptTwice(version[0], p.key, data, p.longstate);
  }

  /** The checksum of text is its CRC without the final inversion. */
  lemma {:induction false} CsumOfText(c: Reg, data: seq<byte>)
    requires forall i :: 0 <= i < |data| ==> data[i] < 0x80
    ensures Csum(c, data) == Raw(c, data)
    decreases |data|
  {
    hide Roll, Feed, BitsOf;
    if data == [] {
      NothingFed(c);
    } else {
      var bits := BitsOf(data[0], 8);
      FeedRoll(c, bits);
      TopBitClear(data[0]);
      assert SignExtended(data[0]) == Wide(bits);
      CsumOfText(Roll(Xor(c, Wide(bits)), 8), data[1..]);
      FeedConcat(c, bits, MessageBits(data[1..]));
    }
  }

  lemma NothingFed(c: Reg)
    ensures Raw(c, []) == c
  {
  }

  lemma TopBitClear(b: byte)
    requires b < 0x80
    ensures !BitsOf(b, 8)[7]
  {
    BitAt(b, 8, 7);
    assert b / 2 / 2 / 2 / 2 / 2 / 2 / 2 == 0;
    assert BitOf(b, 7) == BitOf(b / 2, 6) == BitOf(b / 2 / 2, 5);
    assert BitOf(b / 2 / 2, 5) == BitOf(b / 2 / 2 / 2, 4) == BitOf(b / 2 / 2 / 2 / 2, 3);
    assert BitOf(b / 2 / 2 / 2 / 2, 3) == BitOf(b / 2 / 2 / 2 / 2 / 2, 2) == BitOf(b / 2 / 2 / 2 / 2 / 2 / 2, 1);
  }

  /** Every byte is widened with its sign. */
  lemma SignBits(b: byte, k: nat)
    requires k < 32
    ensures SignExtended(b)[k] == BitOf(b, if k < 8 then k else 7)
  {
    hide BitOf, BitsOf;
    BitAt(b, 8, if k < 8 then k else 7);
  }
}
