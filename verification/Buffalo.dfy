/** Buffalo's encrypted firmware container: the RC4-like cipher, the seeds that chain through ciphertext
    bytes, and the container format. */
module Buffalo {
  import opened BitSeqs
  import opened Bytes
  import opened Crc32

  // ------------------------------------------------------------ the cipher

  const DEFAULT_STATE_LEN := 256
  const MAX_KEYLEN := 254

  function XorByte(x: byte, y: byte): byte {
    var bits := BitSeqs.Xor(BitsOf(x, 8), BitsOf(y, 8));
    BitsOfValue(bits);
    EightBits();
    ValueOf(bits)
  }

  lemma XorByteTwice(x: byte, y: byte)
    ensures XorByte(XorByte(x, y), y) == x
  {
    hide BitsOf, ValueOf;
    var a, b := BitsOf(x, 8), BitsOf(y, 8);
    BitsOfValue(BitSeqs.Xor(a, b));
    assert BitSeqs.Xor(BitSeqs.Xor(a, b), b) == a;
    EightBits();
    ValueOfBits(x, 8);
  }

  function Swap(s: seq<byte>, i: nat, j: nat): (r: seq<byte>)
    requires i < |s| && j < |s|
    ensures |r| == |s|
  {
    s[i := s[j]][j := s[i]]
  }

  /** The state before the key is mixed in; its elements are bytes. */
  function Counting(n: nat): (s: seq<byte>)
    ensures |s| == n
  {
    seq(n, i requires 0 <= i < n => i % 256)
  }

  /** The key schedule from element `i` on. */
  function Schedule(key: seq<byte>, s: seq<byte>, i: nat, k: nat): (r: seq<byte>)
    requires key != []
    ensures |r| == |s|
    decreases |s| - i
  {
    if i >= |s| then s
    else
      var k' := (k + key[i % |key|] as nat + s[i] as nat) % |s|;
      Schedule(key, Swap(s, i, k'), i + 1, k')
  }

  /** `struct bcrypt_ctx`; `i` and `j` are bytes while the stream runs. */
  datatype Cipher = Cipher(state: seq<byte>, i: nat, j: nat)
  {
    predicate Valid() { 0 < |state| }

    /** One step of the stream; the indices pass through an `unsigned char`. */
    function Next(): (c: Cipher)
      requires Valid()
      ensures c.Valid() && |c.state| == |state|
    {
      var i' := (i + 1) % |state| % 256;
      SmallIndex(i + 1, |state|);
      var j' := (j + state[i'] as nat) % |state| % 256;
      SmallIndex(j + state[i'], |state|);
      Cipher(Swap(state, i', j'), i', j')
    }

    /** The key byte after a step. */
    function Output(): byte
      requires Valid() && i < |state| && j < |state|
    {
      state[(state[i] as nat + state[j] as nat) % |state|]
    }
  }

  lemma SmallIndex(a: nat, n: nat)
    requires n > 0
    ensures a % n % 256 < n
  {
  }

  function Stream(c: Cipher, len: nat): (r: seq<byte>)
    requires c.Valid()
    ensures |r| == len
    decreases len
  {
    if len == 0 then []
    else
      var d := c.Next();
      SmallIndex(c.i + 1, |c.state|);
      SmallIndex(c.j + c.state[d.i], |c.state|);
      [d.Output()] + Stream(d, len - 1)
  }

  function StateLen(len: nat, longstate: bool): nat { if longstate then len else DEFAULT_STATE_LEN }

  function Keyed(seed: byte, key: seq<byte>, n: nat): Cipher {
    Cipher(Schedule([seed] + key, Counting(n), 0, 0), 0, 0)
  }

  /** The key stream for `len` bytes. */
  function KeyStream(seed: byte, key: seq<byte>, len: nat, longstate: bool): (r: seq<byte>)
    ensures |r| == len
  {
    if len == 0 then [] else Stream(Keyed(seed, key, StateLen(len, longstate)), len)
  }

  function XorAll(a: seq<byte>, b: seq<byte>): (r: seq<byte>)
    requires |a| == |b|
    ensures |r| == |a|
  {
    seq(|a|, k requires 0 <= k < |a| => XorByte(a[k], b[k]))
  }

  /** bcrypt_buf as a function of the bytes. */
  function Crypt(seed: byte, key: seq<byte>, data: seq<byte>, longstate: bool): (r: seq<byte>)
    ensures |r| == |data|
  {
    XorAll(data, KeyStream(seed, key, |data|, longstate))
  }

  /** The same call decrypts what it encrypted. */
  lemma CryptTwice(seed: byte, key: seq<byte>, data: seq<byte>, longstate: bool)
    ensures Crypt(seed, key, Crypt(seed, key, data, longstate), longstate) == data
  {
    hide XorByte, KeyStream;
    var c := Crypt(seed, key, data, longstate);
    var ks := KeyStream(seed, key, |data|, longstate);
    forall k | 0 <= k < |data| ensures XorByte(c[k], ks[k]) == data[k] {
      XorByteTwice(data[k], ks[k]);
    }
  }

  // ------------------------------------------------------------ the state stays a permutation

  /** No byte occurs twice; with 256 elements, every byte occurs once. */
  predicate Distinct(s: seq<byte>) {
    forall i, j :: 0 <= i < j < |s| ==> s[i] != s[j]
  }

  lemma SwapDistinct(s: seq<byte>, i: nat, j: nat)
    requires i < |s| && j < |s| && Distinct(s)
    ensures Distinct(Swap(s, i, j)) && multiset(Swap(s, i, j)) == multiset(s)
  {
    var r := Swap(s, i, j);
    forall a, b | 0 <= a < b < |r| ensures r[a] != r[b] {
      var a' := if a == i then j else if a == j then i else a;
      var b' := if b == i then j else if b == j then i else b;
      assert r[a] == s[a'] && r[b] == s[b'];
    }
  }

  lemma {:induction false} ScheduleDistinct(key: seq<byte>, s: seq<byte>, i: nat, k: nat)
    requires key != [] && Distinct(s)
    ensures Distinct(Schedule(key, s, i, k)) && multiset(Schedule(key, s, i, k)) == multiset(s)
    decreases |s| - i
  {
    hide Distinct, Swap;
    if i < |s| {
      var k' := (k + key[i % |key|] as nat + s[i] as nat) % |s|;
      SwapDistinct(s, i, k');
      ScheduleDistinct(key, Swap(s, i, k'), i + 1, k');
    }
  }

  /** The state `n` steps into the stream. */
  function Stepped(c: Cipher, n: nat): (d: Cipher)
    requires c.Valid()
    ensures d.Valid() && |d.state| == |c.state|
  {
    if n == 0 then c else Stepped(c, n - 1).Next()
  }

  /** Throughout every run the default state is a permutation of the 256 bytes; a long state is one of its
      own indices as long as these fit a byte. */
  lemma {:induction false} StatePermutation(seed: byte, key: seq<byte>, n: nat, steps: nat)
    requires 0 < n <= 256
    ensures var s := Stepped(Keyed(seed, key, n), steps).state;
            |s| == n && Distinct(s) && multiset(s) == multiset(Counting(n))
  {
    hide Distinct, Swap;
    var c := Keyed(seed, key, n);
    if steps == 0 {
      CountingDistinct(n);
      ScheduleDistinct([seed] + key, Counting(n), 0, 0);
    } else {
      StatePermutation(seed, key, n, steps - 1);
      var d := Stepped(c, steps - 1);
      SmallIndex(d.i + 1, n);
      SmallIndex(d.j + d.state[(d.i + 1) % n % 256], n);
      SwapDistinct(d.state, (d.i + 1) % n % 256, (d.j + d.state[(d.i + 1) % n % 256] as nat) % n % 256);
    }
  }

  lemma CountingDistinct(n: nat)
    requires n <= 256
    ensures Distinct(Counting(n))
  {
    var s := Counting(n);
    assert forall i :: 0 <= i < n ==> s[i] == i;
  }

  // ------------------------------------------------------------ the container

  const MAGIC_LEN := 6
  const PRODUCT_LEN := 32
  const VERSION_LEN := 8

  /** The byte as the C type `char` widens it: with its sign. */
  function SignExtended(b: byte): Reg {
    var bits := BitsOf(b, 8);
    bits + seq(24, k => bits[7])
  }

  /** buffalo_csum */
  function Csum(csum: Reg, data: seq<byte>): Reg
    decreases |data|
  {
    if data == [] then csum else Csum(Roll(BitSeqs.Xor(csum, SignExtended(data[0])), 8), data[1..])
  }

  function Checksum(data: seq<byte>): (r: seq<byte>)
    ensures |r| == 4
  {
    Be32(ValueOf(Csum(BitsOf(|data|, 32), data)))
  }

  /** What the caller supplies: strings without their terminator. */
  datatype Param = Param(key: seq<byte>, magic: seq<byte>, product: seq<byte>, version: seq<byte>, seed: byte, longstate: bool)
  {
    predicate Valid() {
      && |key| <= MAX_KEYLEN && |magic| == MAGIC_LEN - 1 && |product| < PRODUCT_LEN && |version| < VERSION_LEN
    }
  }

  function HeaderLen(p: Param): nat { MAGIC_LEN + 1 + |p.product| + 1 + |p.version| + 1 + 3 * 4 }

  /** enc_compute_buf_len */
  function BufLen(p: Param, datalen: nat): nat {
    var ret := HeaderLen(p) + datalen + 4;
    ret + (4 - ret % 4)
  }

  function CryptedProduct(p: Param): (r: seq<byte>)
    ensures |r| == |p.product| + 1
  {
    Crypt(p.seed, p.key, p.product + [0], p.longstate)
  }

  function CryptedVersion(p: Param): (r: seq<byte>)
    ensures |r| == |p.version| + 1
  {
    Crypt(CryptedProduct(p)[0], p.key, p.version + [0], p.longstate)
  }

  function CryptedData(p: Param, data: seq<byte>): (r: seq<byte>)
    ensures |r| == |data|
  {
    Crypt(CryptedVersion(p)[0], p.key, data, p.longstate)
  }

  function Header(p: Param, datalen: nat): (r: seq<byte>)
    requires p.Valid()
    ensures |r| == HeaderLen(p)
  {
    p.magic + [0] + [p.seed] + Be32(|p.product| + 1) + CryptedProduct(p) + Be32(|p.version| + 1) + CryptedVersion(p)
    + Be32(datalen)
  }

  function Container(p: Param, data: seq<byte>): seq<byte>
    requires p.Valid()
  {
    Header(p, |data|) + CryptedData(p, data) + Checksum(data)
  }

  /** What decrypt_buf finds; the strings include whatever terminator they carry. */
  datatype Found = Found(magic: seq<byte>, seed: byte, product: seq<byte>, version: seq<byte>, data: seq<byte>, csum: seq<byte>)

  /** The first byte of a zeroed buffer into which `s` was copied. */
  function First(s: seq<byte>): byte { if s == [] then 0 else s[0] }

  /** A length-prefixed field of at most `limit` bytes and what follows it. */
  function TakeField(b: seq<byte>, limit: nat): Option<(seq<byte>, seq<byte>)> {
    if |b| < 4 then None
    else
      var n := GetBe32(b[..4]);
      if n > limit || |b| - 4 < n then None else Some((b[4..4 + n], b[4 + n..]))
  }

  /** decrypt_buf; every magic is accepted. */
  function Decrypted(key: seq<byte>, longstate: bool, b: seq<byte>): Option<Found> {
    if |b| < MAGIC_LEN + 1 then None
    else
      match TakeField(b[MAGIC_LEN + 1..], PRODUCT_LEN)
      case None => None
      case Some((product, b1)) =>
        match TakeField(b1, VERSION_LEN)
        case None => None
        case Some((version, b2)) =>
          match TakeField(b2, 0x1_0000_0000)
          case None => None
          case Some((crypted, b3)) =>
            var data := Crypt(First(version), key, crypted, longstate);
            if |b3| < 4 || b3[..4] != Checksum(data) then None
            else
              Some(Found(b[..MAGIC_LEN], b[MAGIC_LEN], Crypt(b[MAGIC_LEN], key, product, longstate),
                         Crypt(First(product), key, version, longstate), data, b3[..4]))
  }

  lemma TakeBack(s: seq<byte>, rest: seq<byte>, limit: nat)
    requires |s| <= limit <= 0x1_0000_0000 && |s| < 0x1_0000_0000
    ensures TakeField(Be32(|s|) + s + rest, limit) == Some((s, rest))
  {
    hide Be32, GetBe32;
    var b := Be32(|s|) + s + rest;
    assert b[..4] == Be32(|s|) && b[4..4 + |s|] == s && b[4 + |s|..] == rest;
    SmallWord(|s|);
  }

  /** Decrypting gives back what was encrypted: the names, the data and its length, whatever follows the
      checksum. */
  lemma DecryptContainer(p: Param, data: seq<byte>, more: seq<byte>)
    requires p.Valid() && |data| < 0x1_0000_0000
    ensures Decrypted(p.key, p.longstate, Container(p, data) + more)
         == Some(Found(p.magic + [0], p.seed, p.product + [0], p.version + [0], data, Checksum(data)))
  {
    hide Crypt, Be32, Checksum, TakeField;
    var product, version, crypted := CryptedProduct(p), CryptedVersion(p), CryptedData(p, data);
    var b := Container(p, data) + more;
    var b3 := Checksum(data) + more;
    var b2 := Be32(|data|) + crypted + b3;
    var b1 := Be32(|version|) + version + b2;
    var b0 := Be32(|product|) + product + b1;
    ContainerShape(p.magic + [0], [p.seed], Be32(|product|), product, Be32(|version|), version, Be32(|data|), crypted,
                   Checksum(data), more);
    assert b[MAGIC_LEN + 1..] == b0 && b[..MAGIC_LEN] == p.magic + [0] && b[MAGIC_LEN] == p.seed;
    TakeBack(product, b1, PRODUCT_LEN);
    TakeBack(version, b2, VERSION_LEN);
    TakeBack(crypted, b3, 0x1_0000_0000);
    assert b3[..4] == Checksum(data);
    CryptTwice(p.seed, p.key, p.product + [0], p.longstate);
    CryptTwice(product[0], p.key, p.version + [0], p.longstate);
    CryptTwice(version[0], p.key, data, p.longstate);
  }

  lemma ContainerShape(a: seq<byte>, b: seq<byte>, c: seq<byte>, d: seq<byte>, e: seq<byte>, f: seq<byte>, g: seq<byte>,
                       h: seq<byte>, i: seq<byte>, more: seq<byte>)
    ensures a + b + c + d + e + f + g + h + i + more == (a + b) + (c + d + (e + f + (g + h + (i + more))))
  {
    var x := g + h + (i + more);
    assert g + h + i + more == x;
    assert a + b + c + d + e + f + g + h + i + more == a + b + c + d + e + f + (g + h + i + more);
    assert a + b + c + d + e + f + x == a + b + (c + d + (e + f + x));
  }
}
