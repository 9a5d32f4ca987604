/** crcalc's MD5: whole blocks are compressed straight from the caller's data. */
module Md5Crcalc {
  import opened Bytes
  import opened HashStream
  import opened Md5
  import opened Words

  /** `t = a + f + x + Ti; a = ROTATE_LEFT(t, s) + b` */
  function Set(a: word, b: word, f: word, x: word, s: nat, ti: word): (r: word)
    requires 0 < s < 32
    ensures r == Step(a, b, f, x, s, ti)
  {
    hide RotateLeft;
    var t := Add(Add(Add(a, f), x), ti);
    SumModulo(a, f, x, ti);
    Add(RotateLeft(t, s), b)
  }

  lemma SumModulo(a: word, f: word, x: word, ti: word)
    ensures Add(Add(Add(a, f), x), ti) == (a + f + x + ti) % M32
  {
    ModuloAdd(a + f, x);
    ModuloAdd(a + f + x, ti);
  }

  method Round1(x: seq<word>, a0: word, b0: word, c0: word, d0: word, ghost r: Regs)
    returns (a: word, b: word, c: word, d: word)
    requires |x| == 16 && Regs(a0, b0, c0, d0) == Lines(x, r, 0)
    ensures Regs(a, b, c, d) == Lines(x, r, 4)
  {
    hide F, G, H, I, Set, Step, Lines;
    a, b, c, d := a0, b0, c0, d0;
    a := Set(a, b, F(b, c, d), x[0], 7, 0xd76aa478);
    d := Set(d, a, F(a, b, c), x[1], 12, 0xe8c7b756);
    c := Set(c, d, F(d, a, b), x[2], 17, 0x242070db);
    b := Set(b, c, F(c, d, a), x[3], 22, 0xc1bdceee);
    LinesNext(x, r, 0);
    assert Regs(a, b, c, d) == Lines(x, r, 1);
    a := Set(a, b, F(b, c, d), x[4], 7, 0xf57c0faf);
    d := Set(d, a, F(a, b, c), x[5], 12, 0x4787c62a);
    c := Set(c, d, F(d, a, b), x[6], 17, 0xa8304613);
    b := Set(b, c, F(c, d, a), x[7], 22, 0xfd469501);
    LinesNext(x, r, 1);
    assert Regs(a, b, c, d) == Lines(x, r, 2);
    a := Set(a, b, F(b, c, d), x[8], 7, 0x698098d8);
    d := Set(d, a, F(a, b, c), x[9], 12, 0x8b44f7af);
    c := Set(c, d, F(d, a, b), x[10], 17, 0xffff5bb1);
    b := Set(b, c, F(c, d, a), x[11], 22, 0x895cd7be);
    LinesNext(x, r, 2);
    assert Regs(a, b, c, d) == Lines(x, r, 3);
    a := Set(a, b, F(b, c, d), x[12], 7, 0x6b901122);
    d := Set(d, a, F(a, b, c), x[13], 12, 0xfd987193);
    c := Set(c, d, F(d, a, b), x[14], 17, 0xa679438e);
    b := Set(b, c, F(c, d, a), x[15], 22, 0x49b40821);
    LinesNext(x, r, 3);
    assert Regs(a, b, c, d) == Lines(x, r, 4);
  }

  method Round2(x: seq<word>, a0: word, b0: word, c0: word, d0: word, ghost r: Regs)
    returns (a: word, b: word, c: word, d: word)
    requires |x| == 16 && Regs(a0, b0, c0, d0) == Lines(x, r, 4)
    ensures Regs(a, b, c, d) == Lines(x, r, 8)
  {
    hide F, G, H, I, Set, Step, Lines;
    a, b, c, d := a0, b0, c0, d0;
    a := Set(a, b, G(b, c, d), x[1], 5, 0xf61e2562);
    d := Set(d, a, G(a, b, c), x[6], 9, 0xc040b340);
    c := Set(c, d, G(d, a, b), x[11], 14, 0x265e5a51);
    b := Set(b, c, G(c, d, a), x[0], 20, 0xe9b6c7aa);
    LinesNext(x, r, 4);
    assert Regs(a, b, c, d) == Lines(x, r, 5);
    a := Set(a, b, G(b, c, d), x[5], 5, 0xd62f105d);
    d := Set(d, a, G(a, b, c), x[10], 9, 0x02441453);
    c := Set(c, d, G(d, a, b), x[15], 14, 0xd8a1e681);
    b := Set(b, c, G(c, d, a), x[4], 20, 0xe7d3fbc8);
    LinesNext(x, r, 5);
    assert Regs(a, b, c, d) == Lines(x, r, 6);
    a := Set(a, b, G(b, c, d), x[9], 5, 0x21e1cde6);
    d := Set(d, a, G(a, b, c), x[14], 9, 0xc33707d6);
    c := Set(c, d, G(d, a, b), x[3], 14, 0xf4d50d87);
    b := Set(b, c, G(c, d, a), x[8], 20, 0x455a14ed);
    LinesNext(x, r, 6);
    assert Regs(a, b, c, d) == Lines(x, r, 7);
    a := Set(a, b, G(b, c, d), x[13], 5, 0xa9e3e905);
    d := Set(d, a, G(a, b, c), x[2], 9, 0xfcefa3f8);
    c := Set(c, d, G(d, a, b), x[7], 14, 0x676f02d9);
    b := Set(b, c, G(c, d, a), x[12], 20, 0x8d2a4c8a);
    LinesNext(x, r, 7);
    assert Regs(a, b, c, d) == Lines(x, r, 8);
  }

  method Round3(x: seq<word>, a0: word, b0: word, c0: word, d0: word, ghost r: Regs)
    returns (a: word, b: word, c: word, d: word)
    requires |x| == 16 && Regs(a0, b0, c0, d0) == Lines(x, r, 8)
    ensures Regs(a, b, c, d) == Lines(x, r, 12)
  {
    hide F, G, H, I, Set, Step, Lines;
    a, b, c, d := a0, b0, c0, d0;
    a := Set(a, b, H(b, c, d), x[5], 4, 0xfffa3942);
    d := Set(d, a, H(a, b, c), x[8], 11, 0x8771f681);
    c := Set(c, d, H(d, a, b), x[11], 16, 0x6d9d6122);
    b := Set(b, c, H(c, d, a), x[14], 23, 0xfde5380c);
    LinesNext(x, r, 8);
    assert Regs(a, b, c, d) == Lines(x, r, 9);
    a := Set(a, b, H(b, c, d), x[1], 4, 0xa4beea44);
    d := Set(d, a, H(a, b, c), x[4], 11, 0x4bdecfa9);
    c := Set(c, d, H(d, a, b), x[7], 16, 0xf6bb4b60);
    b := Set(b, c, H(c, d, a), x[10], 23, 0xbebfbc70);
    LinesNext(x, r, 9);
    assert Regs(a, b, c, d) == Lines(x, r, 10);
    a := Set(a, b, H(b, c, d), x[13], 4, 0x289b7ec6);
    d := Set(d, a, H(a, b, c), x[0], 11, 0xeaa127fa);
    c := Set(c, d, H(d, a, b), x[3], 16, 0xd4ef3085);
    b := Set(b, c, H(c, d, a), x[6], 23, 0x04881d05);
    LinesNext(x, r, 10);
    assert Regs(a, b, c, d) == Lines(x, r, 11);
    a := Set(a, b, H(b, c, d), x[9], 4, 0xd9d4d039);
    d := Set(d, a, H(a, b, c), x[12], 11, 0xe6db99e5);
    c := Set(c, d, H(d, a, b), x[15], 16, 0x1fa27cf8);
    b := Set(b, c, H(c, d, a), x[2], 23, 0xc4ac5665);
    LinesNext(x, r, 11);
    assert Regs(a, b, c, d) == Lines(x, r, 12);
  }

  method Round4(x: seq<word>, a0: word, b0: word, c0: word, d0: word, ghost r: Regs)
    returns (a: word, b: word, c: word, d: word)
    requires |x| == 16 && Regs(a0, b0, c0, d0) == Lines(x, r, 12)
    ensures Regs(a, b, c, d) == Lines(x, r, 16)
  {
    hide F, G, H, I, Set, Step, Lines;
    a, b, c, d := a0, b0, c0, d0;
    a := Set(a, b, I(b, c, d), x[0], 6, 0xf4292244);
    d := Set(d, a, I(a, b, c), x[7], 10, 0x432aff97);
    c := Set(c, d, I(d, a, b), x[14], 15, 0xab9423a7);
    b := Set(b, c, I(c, d, a), x[5], 21, 0xfc93a039);
    LinesNext(x, r, 12);
    assert Regs(a, b, c, d) == Lines(x, r, 13);
    a := Set(a, b, I(b, c, d), x[12], 6, 0x655b59c3);
    d := Set(d, a, I(a, b, c), x[3], 10, 0x8f0ccc92);
    c := Set(c, d, I(d, a, b), x[10], 15, 0xffeff47d);
    b := Set(b, c, I(c, d, a), x[1], 21, 0x85845dd1);
    LinesNext(x, r, 13);
    assert Regs(a, b, c, d) == Lines(x, r, 14);
    a := Set(a, b, I(b, c, d), x[8], 6, 0x6fa87e4f);
    d := Set(d, a, I(a, b, c), x[15], 10, 0xfe2ce6e0);
    c := Set(c, d, I(d, a, b), x[6], 15, 0xa3014314);
    b := Set(b, c, I(c, d, a), x[13], 21, 0x4e0811a1);
    LinesNext(x, r, 14);
    assert Regs(a, b, c, d) == Lines(x, r, 15);
    a := Set(a, b, I(b, c, d), x[4], 6, 0xf7537e82);
    d := Set(d, a, I(a, b, c), x[11], 10, 0xbd3af235);
    c := Set(c, d, I(d, a, b), x[2], 15, 0x2ad7d2bb);
    b := Set(b, c, I(c, d, a), x[9], 21, 0xeb86d391);
    LinesNext(x, r, 15);
    assert Regs(a, b, c, d) == Lines(x, r, 16);
  }

  /** The words of a block, whatever the byte order of the host. */
  method LoadWords(data: seq<byte>) returns (x: seq<word>)
    requires |data| == 64
    ensures x == BlockWords(data)
  {
    hide WordAt;
    x := [];
    var i := 0;
    while i < 16
      invariant i <= 16 && |x| == i && forall k :: 0 <= k < i ==> x[k] == WordAt(data, k)
    {
      x := x + [WordAt(data, i)];
      i := i + 1;
    }
  }

  lemma PadLength(k: nat, n: nat)
    requires k % 64 == n % 64
    ensures (55 - k) % 64 == (55 - n) % 64
  {
  }

  class State {
    var count0: word
    var count1: word
    var abcd: Regs
    var buf: array<byte>
    ghost var message: seq<byte>

    /** The context describes the message so far. */
    ghost predicate Valid()
      reads this, buf
    {
      && buf.Length == 64 && Counts(count0, count1, |message|)
      && Streaming(Compress, INIT, message, abcd, buf[..|message| % 64])
    }

    /** md5_init */
    constructor ()
      ensures Valid() && fresh(buf) && message == []
    {
      count0, count1, abcd, message := 0, 0, INIT, [];
      buf := new byte[64];
      new;
      StreamStart(Compress, INIT);
      assert buf[..0] == [];
    }

    /** md5_process */
    method Process(data: seq<byte>)
      requires |data| == 64
      modifies this`abcd
      ensures abcd == Compress(old(abcd), data)
    {
      hide Lines, BlockWords, Add;
      LinesNext(BlockWords(data), abcd, 0);
      var x := LoadWords(data);
      ghost var r := abcd;
      assert Regs(abcd.a, abcd.b, abcd.c, abcd.d) == r;
      var a, b, c, d := Round1(x, abcd.a, abcd.b, abcd.c, abcd.d, r);
      a, b, c, d := Round2(x, a, b, c, d, r);
      a, b, c, d := Round3(x, a, b, c, d, r);
      a, b, c, d := Round4(x, a, b, c, d, r);
      abcd := Regs(Add(abcd.a, a), Add(abcd.b, b), Add(abcd.c, c), Add(abcd.d, d));
    }

    /** memcpy(buf + offset, p, n) */
    method Fetch(offset: nat, data: seq<byte>)
      requires offset + |data| <= buf.Length
      modifies buf
      ensures buf[..offset + |data|] == old(buf[..offset]) + data
    {
      var i := 0;
      while i < |data|
        invariant i <= |data| && buf[..offset + i] == old(buf[..offset]) + data[..i]
      {
        buf[offset + i] := data[i];
        i := i + 1;
      }
    }

    /** The update of the message length in md5_append. */
    method Count(nbytes: nat, ghost n: nat)
      requires nbytes < 0x8000_0000 && Counts(count0, count1, n)
      modifies this`count0, this`count1
      ensures Counts(count0, count1, n + nbytes)
    {
      var nbits := 8 * nbytes % M32;
      CountMore(count0, count1, n, nbytes);
      ModuloTwice(count0, nbytes);
      ModuloAdd(count1 + nbytes / 0x2000_0000, 1);
      count1 := (count1 + nbytes / 0x2000_0000) % M32;
      count0 := (count0 + nbits) % M32;
      if count0 < nbits {
        count1 := (count1 + 1) % M32;
      }
    }

    /** md5_append; the caller's length is a non-negative `int` with room for a block. */
    method Append(data: seq<byte>)
      requires Valid() && |data| + 64 < 0x8000_0000
      modifies this, buf
      ensures Valid() && buf == old(buf) && message == old(message) + data
    {
      hide Streaming, Compress, Absorb, Counts;
      CountOffset(count0, count1, |message|);
      var offset := count0 / 8 % 64;
      if |data| == 0 {
        assert message + data == message;
        return;
      }
      Count(|data|, |message|);
      ghost var m, waiting := message, buf[..offset];
      StreamSize(Compress, INIT, m, abcd, waiting);
      message := message + data;
      var p := 0;
      if offset != 0 {
        var copy := if offset + |data| > 64 then 64 - offset else |data|;
        Fetch(offset, data[..copy]);
        if offset + copy < 64 {
          assert data[..copy] == data;
          StreamKeep(Compress, INIT, m, abcd, waiting, data);
          StreamSize(Compress, INIT, message, abcd, waiting + data);
          return;
        }
        p := copy;
        StreamFill(Compress, INIT, m, abcd, waiting, data[..p]);
        assert buf[..] == waiting + data[..p];
        Process(buf[..]);
      } else {
        assert waiting == [] && m + data[..0] == m;
      }
      while |data| - p >= 64
        invariant p <= |data| && Streaming(Compress, INIT, m + data[..p], abcd, [])
        invariant message == m + data && buf == old(buf) && Counts(count0, count1, |message|)
      {
        StreamFill(Compress, INIT, m + data[..p], abcd, [], data[p..p + 64]);
        Assoc(m, data[..p], data[p..p + 64]);
        assert data[..p] + data[p..p + 64] == data[..p + 64];
        assert [] + data[p..p + 64] == data[p..p + 64];
        Process(data[p..p + 64]);
        p := p + 64;
      }
      var left := |data| - p;
      if left != 0 {
        Fetch(0, data[p..]);
      }
      StreamKeep(Compress, INIT, m + data[..p], abcd, [], data[p..]);
      Assoc(m, data[..p], data[p..]);
      assert data[..p] + data[p..] == data;
      assert [] + data[p..] == data[p..] == buf[..left];
      StreamSize(Compress, INIT, message, abcd, data[p..]);
    }

    /** md5_finish */
    method Finish() returns (digest: seq<byte>)
      requires Valid()
      modifies this, buf
      ensures digest == Digest(old(message))
    {
      hide Streaming, Compress, Absorb, Digest, Counts, PAD, Fill, LengthBytes, Output;
      ghost var m := message;
      CountOffset(count0, count1, |m|);
      var data := Le32(count0) + Le32(count1);
      var n := (55 - count0 / 8) % 64 + 1;
      PadLength(count0 / 8, |m|);
      PadIs(|m|);
      Append(PAD[..n]);
      Append(data);
      WholeBlocks<byte>(m, 0x80, 0, LengthBytes(|m|));
      assert buf[..0] == [];
      StreamEnd(m, abcd);
      digest := Output(abcd);
    }
  }
}
