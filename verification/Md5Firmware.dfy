/** The firmware tools' MD5, after the RSA reference implementation: every byte goes through the
    context's buffer. */
module Md5Firmware {
  import opened Bytes
  import opened HashStream
  import opened Md5
  import Md5Crcalc
  import opened Words

  lemma SumModulo(a: word, f: word, x: word, ac: word)
    ensures Add(a, Add(Add(f, x), ac)) == (a + f + x + ac) % M32
  {
    ModuloAdd(f + x, ac);
    ModuloAdd(f + x + ac, a);
  }

  /** `a += f + x + ac; a = ROTATE_LEFT(a, s); a += b` */
  function Combine(a: word, b: word, f: word, x: word, s: nat, ac: word): (r: word)
    requires 0 < s < 32
    ensures r == Step(a, b, f, x, s, ac)
  {
    hide RotateLeft;
    SumModulo(a, f, x, ac);
    Add(RotateLeft(Add(a, Add(Add(f, x), ac)), s), b)
  }

  function FF(a: word, b: word, c: word, d: word, x: word, s: nat, ac: word): (r: word)
    requires 0 < s < 32
    ensures r == Step(a, b, F(b, c, d), x, s, ac)
  {
    Combine(a, b, F(b, c, d), x, s, ac)
  }

  function GG(a: word, b: word, c: word, d: word, x: word, s: nat, ac: word): (r: word)
    requires 0 < s < 32
    ensures r == Step(a, b, G(b, c, d), x, s, ac)
  {
    Combine(a, b, G(b, c, d), x, s, ac)
  }

  function HH(a: word, b: word, c: word, d: word, x: word, s: nat, ac: word): (r: word)
    requires 0 < s < 32
    ensures r == Step(a, b, H(b, c, d), x, s, ac)
  {
    Combine(a, b, H(b, c, d), x, s, ac)
  }

  function II(a: word, b: word, c: word, d: word, x: word, s: nat, ac: word): (r: word)
    requires 0 < s < 32
    ensures r == Step(a, b, I(b, c, d), x, s, ac)
  {
    Combine(a, b, I(b, c, d), x, s, ac)
  }

  method Round1(x: seq<word>, a0: word, b0: word, c0: word, d0: word, ghost r: Regs)
    returns (a: word, b: word, c: word, d: word)
    requires |x| == 16 && Regs(a0, b0, c0, d0) == Lines(x, r, 0)
    ensures Regs(a, b, c, d) == Lines(x, r, 4)
  {
    hide F, G, H, I, FF, GG, HH, II, Step, Lines;
    a, b, c, d := a0, b0, c0, d0;
    a := FF(a, b, c, d, x[0], 7, 3614090360);
    d := FF(d, a, b, c, x[1], 12, 3905402710);
    c := FF(c, d, a, b, x[2], 17, 606105819);
    b := FF(b, c, d, a, x[3], 22, 3250441966);
    LinesNext(x, r, 0);
    assert Regs(a, b, c, d) == Lines(x, r, 1);
    a := FF(a, b, c, d, x[4], 7, 4118548399);
    d := FF(d, a, b, c, x[5], 12, 1200080426);
    c := FF(c, d, a, b, x[6], 17, 2821735955);
    b := FF(b, c, d, a, x[7], 22, 4249261313);
    LinesNext(x, r, 1);
    assert Regs(a, b, c, d) == Lines(x, r, 2);
    a := FF(a, b, c, d, x[8], 7, 1770035416);
    d := FF(d, a, b, c, x[9], 12, 2336552879);
    c := FF(c, d, a, b, x[10], 17, 4294925233);
    b := FF(b, c, d, a, x[11], 22, 2304563134);
    LinesNext(x, r, 2);
    assert Regs(a, b, c, d) == Lines(x, r, 3);
    a := FF(a, b, c, d, x[12], 7, 1804603682);
    d := FF(d, a, b, c, x[13], 12, 4254626195);
    c := FF(c, d, a, b, x[14], 17, 2792965006);
    b := FF(b, c, d, a, x[15], 22, 1236535329);
    LinesNext(x, r, 3);
    assert Regs(a, b, c, d) == Lines(x, r, 4);
  }

  method Round2(x: seq<word>, a0: word, b0: word, c0: word, d0: word, ghost r: Regs)
    returns (a: word, b: word, c: word, d: word)
    requires |x| == 16 && Regs(a0, b0, c0, d0) == Lines(x, r, 4)
    ensures Regs(a, b, c, d) == Lines(x, r, 8)
  {
    hide F, G, H, I, FF, GG, HH, II, Step, Lines;
    a, b, c, d := a0, b0, c0, d0;
    a := GG(a, b, c, d, x[1], 5, 4129170786);
    d := GG(d, a, b, c, x[6], 9, 3225465664);
    c := GG(c, d, a, b, x[11], 14, 643717713);
    b := GG(b, c, d, a, x[0], 20, 3921069994);
    LinesNext(x, r, 4);
    assert Regs(a, b, c, d) == Lines(x, r, 5);
    a := GG(a, b, c, d, x[5], 5, 3593408605);
    d := GG(d, a, b, c, x[10], 9, 38016083);
    c := GG(c, d, a, b, x[15], 14, 3634488961);
    b := GG(b, c, d, a, x[4], 20, 3889429448);
    LinesNext(x, r, 5);
    assert Regs(a, b, c, d) == Lines(x, r, 6);
    a := GG(a, b, c, d, x[9], 5, 568446438);
    d := GG(d, a, b, c, x[14], 9, 3275163606);
    c := GG(c, d, a, b, x[3], 14, 4107603335);
    b := GG(b, c, d, a, x[8], 20, 1163531501);
    LinesNext(x, r, 6);
    assert Regs(a, b, c, d) == Lines(x, r, 7);
    a := GG(a, b, c, d, x[13], 5, 2850285829);
    d := GG(d, a, b, c, x[2], 9, 4243563512);
    c := GG(c, d, a, b, x[7], 14, 1735328473);
    b := GG(b, c, d, a, x[12], 20, 2368359562);
    LinesNext(x, r, 7);
    assert Regs(a, b, c, d) == Lines(x, r, 8);
  }

  method Round3(x: seq<word>, a0: word, b0: word, c0: word, d0: word, ghost r: Regs)
    returns (a: word, b: word, c: word, d: word)
    requires |x| == 16 && Regs(a0, b0, c0, d0) == Lines(x, r, 8)
    ensures Regs(a, b, c, d) == Lines(x, r, 12)
  {
    hide F, G, H, I, FF, GG, HH, II, Step, Lines;
    a, b, c, d := a0, b0, c0, d0;
    a := HH(a, b, c, d, x[5], 4, 4294588738);
    d := HH(d, a, b, c, x[8], 11, 2272392833);
    c := HH(c, d, a, b, x[11], 16, 1839030562);
    b := HH(b, c, d, a, x[14], 23, 4259657740);
    LinesNext(x, r, 8);
    assert Regs(a, b, c, d) == Lines(x, r, 9);
    a := HH(a, b, c, d, x[1], 4, 2763975236);
    d := HH(d, a, b, c, x[4], 11, 1272893353);
    c := HH(c, d, a, b, x[7], 16, 4139469664);
    b := HH(b, c, d, a, x[10], 23, 3200236656);
    LinesNext(x, r, 9);
    assert Regs(a, b, c, d) == Lines(x, r, 10);
    a := HH(a, b, c, d, x[13], 4, 681279174);
    d := HH(d, a, b, c, x[0], 11, 3936430074);
    c := HH(c, d, a, b, x[3], 16, 3572445317);
    b := HH(b, c, d, a, x[6], 23, 76029189);
    LinesNext(x, r, 10);
    assert Regs(a, b, c, d) == Lines(x, r, 11);
    a := HH(a, b, c, d, x[9], 4, 3654602809);
    d := HH(d, a, b, c, x[12], 11, 3873151461);
    c := HH(c, d, a, b, x[15], 16, 530742520);
    b := HH(b, c, d, a, x[2], 23, 3299628645);
    LinesNext(x, r, 11);
    assert Regs(a, b, c, d) == Lines(x, r, 12);
  }

  method Round4(x: seq<word>, a0: word, b0: word, c0: word, d0: word, ghost r: Regs)
    returns (a: word, b: word, c: word, d: word)
    requires |x| == 16 && Regs(a0, b0, c0, d0) == Lines(x, r, 12)
    ensures Regs(a, b, c, d) == Lines(x, r, 16)
  {
    hide F, G, H, I, FF, GG, HH, II, Step, Lines;
    a, b, c, d := a0, b0, c0, d0;
    a := II(a, b, c, d, x[0], 6, 4096336452);
    d := II(d, a, b, c, x[7], 10, 1126891415);
    c := II(c, d, a, b, x[14], 15, 2878612391);
    b := II(b, c, d, a, x[5], 21, 4237533241);
    LinesNext(x, r, 12);
    assert Regs(a, b, c, d) == Lines(x, r, 13);
    a := II(a, b, c, d, x[12], 6, 1700485571);
    d := II(d, a, b, c, x[3], 10, 2399980690);
    c := II(c, d, a, b, x[10], 15, 4293915773);
    b := II(b, c, d, a, x[1], 21, 2240044497);
    LinesNext(x, r, 13);
    assert Regs(a, b, c, d) == Lines(x, r, 14);
    a := II(a, b, c, d, x[8], 6, 1873313359);
    d := II(d, a, b, c, x[15], 10, 4264355552);
    c := II(c, d, a, b, x[6], 15, 2734768916);
    b := II(b, c, d, a, x[13], 21, 1309151649);
    LinesNext(x, r, 14);
    assert Regs(a, b, c, d) == Lines(x, r, 15);
    a := II(a, b, c, d, x[4], 6, 4149444226);
    d := II(d, a, b, c, x[11], 10, 3174756917);
    c := II(c, d, a, b, x[2], 15, 718787259);
    b := II(b, c, d, a, x[9], 21, 3951481745);
    LinesNext(x, r, 15);
    assert Regs(a, b, c, d) == Lines(x, r, 16);
  }

  /** Transform */
  method Transform(buf: Regs, x: seq<word>) returns (r: Regs)
    requires |x| == 16
    ensures r == Plus(buf, Lines(x, buf, 16))
  {
    hide Lines, Add;
    LinesNext(x, buf, 0);
    assert Regs(buf.a, buf.b, buf.c, buf.d) == buf;
    var a, b, c, d := Round1(x, buf.a, buf.b, buf.c, buf.d, buf);
    a, b, c, d := Round2(x, a, b, c, d, buf);
    a, b, c, d := Round3(x, a, b, c, d, buf);
    a, b, c, d := Round4(x, a, b, c, d, buf);
    r := Regs(Add(buf.a, a), Add(buf.b, b), Add(buf.c, c), Add(buf.d, d));
  }

  /** The first `n` words of the block. */
  method LoadWords(data: seq<byte>, n: nat) returns (x: seq<word>)
    requires n <= 16 && |data| == 64
    ensures x == BlockWords(data)[..n]
  {
    hide WordAt;
    x := [];
    var i := 0;
    while i < n
      invariant i <= n && |x| == i && forall k :: 0 <= k < i ==> x[k] == WordAt(data, k)
    {
      x := x + [WordAt(data, i)];
      i := i + 1;
    }
  }

  class Context {
    var i0: word
    var i1: word
    var buf: Regs
    var input: array<byte>
    ghost var message: seq<byte>

    ghost predicate Valid()
      reads this, input
    {
      && input.Length == 64 && Counts(i0, i1, |message|)
      && Streaming(Compress, INIT, message, buf, input[..|message| % 64])
    }

    /** MD5_Init */
    constructor ()
      ensures Valid() && fresh(input) && message == []
    {
      i0, i1, buf, message := 0, 0, INIT, [];
      input := new byte[64];
      new;
      StreamStart(Compress, INIT);
      assert input[..0] == [];
    }

    /** Compresses the full buffer. */
    method TransformInput()
      requires input.Length == 64
      modifies this`buf
      ensures buf == Compress(old(buf), input[..])
    {
      hide Compress, Lines, BlockWords, Plus;
      var x := LoadWords(input[..], 16);
      assert x == BlockWords(input[..]);
      BlockIs(buf, input[..]);
      buf := Transform(buf, x);
    }

    /** The update of the number of bits in MD5_Update. */
    method Count(inLen: nat, ghost n: nat)
      requires inLen < M32 && Counts(i0, i1, n)
      modifies this`i0, this`i1
      ensures Counts(i0, i1, n + inLen)
    {
      CountMore(i0, i1, n, inLen);
      ModuloTwice(i0, inLen);
      ModuloAdd(i1 + 1, inLen / 0x2000_0000);
      if (i0 + 8 * inLen % M32) % M32 < i0 {
        i1 := (i1 + 1) % M32;
      }
      i0 := (i0 + 8 * inLen % M32) % M32;
      i1 := (i1 + inLen / 0x2000_0000) % M32;
    }

    /** MD5_Update */
    method Update(inBuf: seq<byte>)
      requires Valid() && |inBuf| < M32
      modifies this, input
      ensures Valid() && input == old(input) && message == old(message) + inBuf
    {
      hide Streaming, Compress, Absorb, Counts;
      CountOffset(i0, i1, |message|);
      var mdi: nat := i0 / 8 % 64;
      Count(|inBuf|, |message|);
      ghost var m := message;
      message := m + inBuf;
      var p := 0;
      assert m + inBuf[..0] == m;
      while p < |inBuf|
        invariant p <= |inBuf| && mdi < 64
        invariant message == m + inBuf && input == old(input) && input.Length == 64 && Counts(i0, i1, |message|)
        invariant Streaming(Compress, INIT, m + inBuf[..p], buf, input[..mdi])
      {
        ghost var waiting, next := input[..mdi], [inBuf[p]];
        input[mdi] := inBuf[p];
        assert input[..mdi + 1] == waiting + next;
        assert inBuf[..p + 1] == inBuf[..p] + next;
        Assoc(m, inBuf[..p], next);
        mdi := mdi + 1;
        if mdi == 0x40 {
          StreamFill(Compress, INIT, m + inBuf[..p], buf, waiting, next);
          assert input[..] == waiting + next;
          TransformInput();
          mdi := 0;
        } else {
          StreamKeep(Compress, INIT, m + inBuf[..p], buf, waiting, next);
        }
        p := p + 1;
      }
      assert inBuf[..p] == inBuf;
      StreamSize(Compress, INIT, message, buf, input[..mdi]);
    }

    /** MD5_Final */
    method Final() returns (hash: seq<byte>)
      requires Valid()
      modifies this, input
      ensures hash == Digest(old(message))
    {
      hide Streaming, Compress, Absorb, Digest, Counts, PAD, Fill, LengthBytes, Output, Lines, BlockWords, Plus;
      ghost var m := message;
      var low, high := i0, i1;
      CountOffset(i0, i1, |m|);
      var mdi := i0 / 8 % 64;
      var padLen := if mdi < 56 then 56 - mdi else 120 - mdi;
      PadIs(|m|);
      PadLength(mdi, |m|);
      Update(PAD[..padLen]);
      FilledSize(m);
      StreamFill(Compress, INIT, message, buf, input[..56], LengthBytes(|m|));
      var x := LoadWords(input[..], 14);
      LastBlock(input[..56], input[..], low, high);
      BlockIs(buf, input[..56] + LengthBytes(|m|));
      buf := Transform(buf, x + [low, high]);
      StreamEnd(m, buf);
      hash := Output(buf);
    }
  }

  lemma BlockIs(r: Regs, b: seq<byte>)
    requires |b| == 64
    ensures Compress(r, b) == Plus(r, Lines(BlockWords(b), r, 16))
  {
  }

  lemma PadLength(mdi: nat, n: nat)
    requires mdi == n % 64
    ensures (if mdi < 56 then 56 - mdi else 120 - mdi) == 1 + (55 - n) % 64
  {
  }

  lemma FilledSize(m: seq<byte>)
    ensures |m + Fill<byte>(0x80, 0, |m|)| % 64 == 56 && |LengthBytes(|m|)| == 8
  {
  }

  /** The words of the last block: fourteen from the buffer, two from the counter. */
  lemma LastBlock(front: seq<byte>, buffer: seq<byte>, low: word, high: word)
    requires |front| == 56 && |buffer| == 64 && front == buffer[..56]
    ensures |front + (Le32(low) + Le32(high))| == 64
    ensures BlockWords(front + (Le32(low) + Le32(high))) == BlockWords(buffer)[..14] + [low, high]
  {
    hide GetLe32, Le32, WordAt;
    var b := front + (Le32(low) + Le32(high));
    forall i | 0 <= i < 14 ensures WordAt(b, i) == WordAt(buffer, i) {
      SameWord(b, buffer, i);
    }
    CounterWord(b, 14, low);
    CounterWord(b, 15, high);
  }

  lemma SameWord(a: seq<byte>, b: seq<byte>, i: nat)
    requires |a| == |b| == 64 && i < 14 && a[..56] == b[..56]
    ensures WordAt(a, i) == WordAt(b, i)
  {
    assert a[4 * i..4 * i + 4] == a[..56][4 * i..4 * i + 4];
    assert b[4 * i..4 * i + 4] == b[..56][4 * i..4 * i + 4];
  }

  lemma CounterWord(b: seq<byte>, i: nat, w: word)
    requires |b| == 64 && i < 16 && b[4 * i..4 * i + 4] == Le32(w)
    ensures WordAt(b, i) == w
  {
    WordRoundTrip(w);
  }

  // ------------------------------------------------------------ the two programs agree

  /** Whatever the message and however it is cut into updates for each program, both programs return the
      digest of the message. */
  method Agree(message: seq<byte>, cutsA: seq<seq<byte>>, cutsB: seq<seq<byte>>) returns (a: seq<byte>, b: seq<byte>)
    requires Flattened(cutsA) == message && Flattened(cutsB) == message
    requires forall i :: 0 <= i < |cutsA| ==> |cutsA[i]| + 64 < 0x8000_0000
    requires forall i :: 0 <= i < |cutsB| ==> |cutsB[i]| < M32
    ensures a == b == Digest(message)
  {
    hide Digest;
    var crcalc := new Md5Crcalc.State();
    var i := 0;
    while i < |cutsA|
      invariant i <= |cutsA| && crcalc.Valid() && crcalc.message == Flattened(cutsA[..i]) && fresh(crcalc) && fresh(crcalc.buf)
    {
      assert cutsA[..i + 1][..i] == cutsA[..i];
      crcalc.Append(cutsA[i]);
      i := i + 1;
    }
    assert cutsA[..i] == cutsA;
    a := crcalc.Finish();
    var context := new Context();
    i := 0;
    while i < |cutsB|
      invariant i <= |cutsB| && context.Valid() && context.message == Flattened(cutsB[..i]) && fresh(context) && fresh(context.input)
    {
      assert cutsB[..i + 1][..i] == cutsB[..i];
      context.Update(cutsB[i]);
      i := i + 1;
    }
    assert cutsB[..i] == cutsB;
    b := context.Final();
  }
}
