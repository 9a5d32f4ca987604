/** mkzynfw: the one's-complement checksum, the layout of the image, and the word that fixes its checksum. */
module Zyxel {
  import opened Bytes

  // ------------------------------------------------------------ the sum

  /** Sum of the big-endian 16-bit words of `m`; an odd last byte counts as the high half of a word. */
  function WordSum(m: seq<byte>): nat {
    if m == [] then 0
    else if |m| == 1 then BeWord(m[0], 0)
    else BeWord(m[0], m[1]) + WordSum(m[2..])
  }

  function BeWord(x: byte, y: byte): (w: nat)
    ensures w <= 0xFFFF
  {
    0x100 * (x as nat) + y as nat
  }

  /** The representative of `n` modulo 65535 that end-around carries arrive at. */
  function Folded(n: nat): (r: nat)
    ensures r <= 0xFFFF && r % 0xFFFF == n % 0xFFFF && (r == 0 <==> n == 0)
  {
    if n == 0 then 0 else (n - 1) % 0xFFFF + 1
  }

  function Checksum(m: seq<byte>): (r: nat)
    ensures r <= 0xFFFF
  {
    Folded(WordSum(m))
  }

  /** One addition with end-around carry, as csum_update does it. */
  function AddWord(sum: nat, w: nat): nat {
    var s := sum + w;
    if s > 0xFFFF then (s + 1) % 0x1_0000 else s
  }

  lemma AddFolded(n: nat, w: nat)
    requires w <= 0xFFFF
    ensures AddWord(Folded(n), w) == Folded(n + w)
  {
    if n == 0 {
      if w > 0 { FieldsSplit(w - 1, 0, 0xFFFF); }
    } else {
      var q, r := (n - 1) / 0xFFFF, (n - 1) % 0xFFFF;
      if r + 1 + w <= 0xFFFF {
        FieldsSplit(r + w, q, 0xFFFF);
      } else {
        FieldsSplit(r + w - 0xFFFF, q + 1, 0xFFFF);
      }
    }
  }

  lemma {:induction false} WordSumConcat(a: seq<byte>, b: seq<byte>)
    requires |a| % 2 == 0
    ensures WordSum(a + b) == WordSum(a) + WordSum(b)
  {
    if a == [] {
      assert a + b == b;
    } else {
      WordSumConcat(a[2..], b);
      assert (a + b)[2..] == a[2..] + b;
    }
  }

  lemma WordSumPair(a: seq<byte>, x: byte, y: byte)
    requires |a| % 2 == 0
    ensures WordSum(a + [x, y]) == WordSum(a) + BeWord(x, y) && WordSum(a + [x]) == WordSum(a) + BeWord(x, 0)
  {
    WordSumConcat(a, [x, y]);
    WordSumConcat(a, [x]);
    assert [x, y][2..] == [];
  }

  // ------------------------------------------------------------ the running sum

  class CsumState {
    var odd: bool
    var sum: nat
    var tmp: byte
    ghost var message: seq<byte>

    /** The sum covers all complete words; an odd last byte waits. */
    ghost predicate Valid()
      reads this
    {
      && (odd <==> |message| % 2 == 1)
      && sum == Folded(WordSum(WholeWords(message)))
      && (odd ==> tmp == message[|message| - 1])
    }

    constructor ()
      ensures Valid() && message == []
    {
      odd, sum, tmp, message := false, 0, 0, [];
      new;
      assert message[..0] == [];
    }

    /** csum_update */
    method Update(p: seq<byte>)
      requires Valid()
      modifies this
      ensures Valid() && message == old(message) + p
    {
      hide Folded, WordSum, AddWord, BeWord, WholeWords;
      if |p| == 0 {
        assert message + p == message;
        return;
      }
      var i: nat := 0;
      ghost var m := message;
      ghost var done: seq<byte> := WholeWords(m);
      EvenLength(m);
      if odd {
        AddPair(done, sum, tmp, p[0]);
        OddJoin(m, done, p);
        done := done + [tmp, p[0]];
        sum := AddWord(sum, BeWord(tmp, p[0]));
        odd := false;
        i := 1;
      } else {
        assert p[0..] == p;
      }
      while |p| - i > 1
        invariant i <= |p| && !odd && |done| % 2 == 0 && sum == Folded(WordSum(done)) && done + p[i..] == m + p
      {
        AddPair(done, sum, p[i], p[i + 1]);
        TwoMore(done, p, i);
        done := done + [p[i], p[i + 1]];
        sum := AddWord(sum, BeWord(p[i], p[i + 1]));
        i := i + 2;
      }
      message := m + p;
      EvenPrefix(done, p[i..]);
      if |p| - i == 1 {
        tmp := p[i];
        odd := true;
      }
    }

    /** csum_get */
    method Get() returns (r: nat)
      requires Valid()
      modifies this
      ensures r == Checksum(old(message))
    {
      hide Folded, WordSum, WholeWords;
      ghost var m := message;
      ghost var done: seq<byte> := WholeWords(m);
      EvenLength(m);
      if |m| % 2 == 1 {
        WordSumPair(done, m[|m| - 1], 0);
        assert m + [0] == done + [m[|m| - 1], 0];
        EvenPrefix(done + [m[|m| - 1], 0], []);
        assert m + [0] + [] == m + [0];
      } else {
        EvenPrefix(m, [0]);
      }
      Update([0]);
      r := sum;
    }
  }

  /** The bytes of all complete words. */
  function WholeWords(m: seq<byte>): seq<byte> {
    m[..|m| / 2 * 2]
  }

  lemma AddPair(done: seq<byte>, sum: nat, x: byte, y: byte)
    requires |done| % 2 == 0 && sum == Folded(WordSum(done))
    ensures AddWord(sum, BeWord(x, y)) == Folded(WordSum(done + [x, y]))
  {
    hide Folded, WordSum, AddWord, BeWord;
    AddFolded(WordSum(done), BeWord(x, y));
    WordSumPair(done, x, y);
  }

  lemma EvenLength(m: seq<byte>)
    ensures |WholeWords(m)| % 2 == 0
    ensures |m| % 2 == 1 ==> m != [] && m == WholeWords(m) + [m[|m| - 1]] && WholeWords(m) == m[..|m| - 1]
    ensures |m| % 2 == 0 ==> WholeWords(m) == m
  {
    if |m| % 2 == 1 { assert |m| / 2 * 2 == |m| - 1; }
  }

  lemma OddJoin(m: seq<byte>, done: seq<byte>, p: seq<byte>)
    requires |m| > 0 && done == m[..|m| - 1] && |p| > 0
    ensures done + [m[|m| - 1], p[0]] + p[1..] == m + p
  {
  }

  lemma TwoMore(done: seq<byte>, p: seq<byte>, i: nat)
    requires i + 1 < |p|
    ensures done + [p[i], p[i + 1]] + p[i + 2..] == done + p[i..]
  {
  }

  lemma EvenPrefix(done: seq<byte>, tail: seq<byte>)
    requires |done| % 2 == 0 && |tail| <= 1
    ensures var m := done + tail;
            && WholeWords(m) == done && (|m| % 2 == 1 <==> |tail| == 1)
            && (|tail| == 1 ==> m[|m| - 1] == tail[0])
  {
    var m := done + tail;
    assert |m| / 2 * 2 == |done|;
  }

  // ------------------------------------------------------------ the fix-up word

  /** `ocsum - csum`, with the borrow of one's-complement arithmetic, as an unsigned 16-bit value. */
  function FixUp(csum: nat, ocsum: nat): nat
    requires csum <= 0xFFFF && ocsum <= 0xFFFF
  {
    if csum <= ocsum then ocsum - csum else (ocsum - csum - 1) % 0x1_0000
  }

  /** The appended word makes the sum equal to the wanted one, except that a sum of zero cannot be reached
      from a body that is not all zero: then it becomes 0xFFFF. */
  lemma FixUpWorks(body: seq<byte>, ocsum: nat)
    requires |body| % 2 == 0 && ocsum <= 0xFFFF
    ensures var t := FixUp(Checksum(body), ocsum);
            && t <= 0xFFFF
            && (Checksum(body + Be16(t)) == ocsum <==> ocsum != 0 || Checksum(body) == 0)
            && (ocsum == 0 && Checksum(body) != 0 ==> Checksum(body + Be16(t)) == 0xFFFF)
  {
    hide Folded, WordSum;
    var csum := Checksum(body);
    var t := FixUp(csum, ocsum);
    FixUpRange(csum, ocsum);
    WordSumPair(body, t / 256 % 256, t % 256);
    TwoDigits(t);
    AddFolded(WordSum(body), t);
  }

  lemma FixUpRange(csum: nat, ocsum: nat)
    requires csum <= 0xFFFF && ocsum <= 0xFFFF
    ensures FixUp(csum, ocsum) <= 0xFFFF
    ensures csum > ocsum ==> csum + FixUp(csum, ocsum) == ocsum + 0xFFFF
  {
  }

  lemma TwoDigits(t: nat)
    requires t <= 0xFFFF
    ensures BeWord(t / 256 % 256, t % 256) == t
  {
  }

  // ------------------------------------------------------------ the image

  const HEADER_SIZE := 48
  const MMAP_HEADER_SIZE := 24
  const MMAP_SIZE := 1024
  const MMAP_ALIGN := 16
  const FILE_BUF_LEN := 16384
  const PAD_BUF_LEN := 512
  const TYPE_BOOTEXT := 3
  const FLAG_OCSUM := 0x40
  const SIGNATURE: seq<byte> := [0x53, 0x49, 0x47]

  type word16 = n: nat | n < 0x1_0000

  datatype Board = Board(codeStart: nat, flashBase: nat, romioOffs: nat, bootextSize: nat, vendor: word16, model: word16)

  /** A raw block; the alignment is a power of two, for which the mask of ALIGN is a rounding. */
  datatype Block = Block(align: nat, data: seq<byte>)

  ghost predicate AlignedBlocks(blocks: seq<Block>) {
    forall i :: 0 <= i < |blocks| ==> blocks[i].align > 0 && exists k: nat :: blocks[i].align == Power2(k)
  }

  /** `ALIGN(x, a)` for a power of two `a`. */
  function AlignUp(x: nat, a: nat): (r: nat)
    requires a > 0
    ensures x <= r < x + a && r % a == 0
  {
    var q, rest := x / a, x % a;
    if rest == 0 then x
    else
      FieldsSplit(0, q + 1, a);
      assert x == rest + a * q;
      a * (q + 1)
  }

  function Fill(n: nat): (r: seq<byte>)
    ensures |r| == n
  {
    seq(n, i => 0xFF)
  }

  function Header(b: Board, osize: nat, ocsum: nat, mmapAddr: nat): (r: seq<byte>)
    ensures |r| == HEADER_SIZE
  {
    Be32(b.codeStart) + Zeros(2) + SIGNATURE + [TYPE_BOOTEXT] + Be32(osize) + Be32(0) + [FLAG_OCSUM, 0] + Be16(ocsum)
    + Be16(0) + Zeros(15) + Be32(mmapAddr) + Zeros(4) + [0]
  }

  /** `%d` */
  function Decimal(n: nat): (r: seq<byte>)
    ensures n < 10 ==> |r| == 1
    ensures n < 100 ==> |r| <= 2
    ensures n < 1000 ==> |r| <= 3
    ensures n < 10000 ==> |r| <= 4
    ensures n < 100000 ==> |r| <= 5
  {
    if n < 10 then [0x30 + n] else Decimal(n / 10) + [0x30 + n % 10]
  }

  /** The strings "Vendor 1 ", "Model 1 " and "HwVerRange 2 0 0". */
  const VENDOR: seq<byte> := [0x56, 0x65, 0x6E, 0x64, 0x6F, 0x72, 0x20, 0x31, 0x20]
  const MODEL: seq<byte> := [0x4D, 0x6F, 0x64, 0x65, 0x6C, 0x20, 0x31, 0x20]
  const HW_RANGE: seq<byte> :=
    [0x48, 0x77, 0x56, 0x65, 0x72, 0x52, 0x61, 0x6E, 0x67, 0x65, 0x20, 0x32, 0x20, 0x30, 0x20, 0x30]

  /** The user data section; the model number is printed after a byte swap. */
  function UserData(b: Board): (r: seq<byte>)
    ensures 0 < |r| && |r| + 2 * MMAP_HEADER_SIZE <= MMAP_SIZE && r[0] == VENDOR[0]
  {
    VENDOR + Decimal(b.vendor) + [0] + MODEL + Decimal(b.model % 256 * 256 + b.model / 256) + [0] + HW_RANGE + [0]
  }

  /** The memory map table at flash address `addr`; `user` is the user data section. */
  function Mmap(addr: nat, user: seq<byte>): (r: seq<byte>)
    requires |user| + 2 * MMAP_HEADER_SIZE <= MMAP_SIZE
    ensures |r| == MMAP_SIZE
  {
    var userSize := MMAP_HEADER_SIZE + |user|;
    Be16(0) + Be32(addr + MMAP_HEADER_SIZE) + Be32(addr + userSize)
    + Be16(Checksum(user + Zeros(MMAP_HEADER_SIZE))) + Zeros(12) + user + Zeros(MMAP_SIZE - userSize)
  }

  /** Flash offset of the memory map table. */
  function MmapOffset(b: Board, bootext: seq<byte>): nat {
    AlignUp(b.romioOffs + HEADER_SIZE + |bootext|, MMAP_ALIGN)
  }

  /** Flash offset behind the boot extension area. */
  function BootextEnd(b: Board, bootext: seq<byte>): nat {
    var offset := MmapOffset(b, bootext) + MMAP_SIZE;
    if offset < b.romioOffs + b.bootextSize then b.romioOffs + b.bootextSize else offset
  }

  /** The blocks from flash offset `offset` on, each at its own alignment, and the last padding. */
  function BlocksBytes(offset: nat, blocks: seq<Block>): seq<byte>
    requires forall i :: 0 <= i < |blocks| ==> blocks[i].align > 0
    decreases |blocks|
  {
    if blocks == [] then Fill(AlignUp(offset, 4) - offset)
    else
      var at := AlignUp(offset, blocks[0].align);
      Fill(at - offset) + blocks[0].data + BlocksBytes(at + |blocks[0].data|, blocks[1..])
  }

  /** Everything between the header and the fix-up word. */
  function Body(b: Board, bootext: seq<byte>, blocks: seq<Block>): seq<byte>
    requires forall i :: 0 <= i < |blocks| ==> blocks[i].align > 0
  {
    var mmap, end := MmapOffset(b, bootext), BootextEnd(b, bootext);
    bootext + Fill(mmap - (b.romioOffs + HEADER_SIZE + |bootext|)) + Mmap(b.flashBase + mmap, UserData(b))
    + Fill(end - (mmap + MMAP_SIZE)) + BlocksBytes(end, blocks)
  }

  /** The wanted sum is the first word of the boot extension. */
  function Magic(bootext: seq<byte>): (r: nat)
    requires |bootext| >= 2
    ensures r <= 0xFFFF
  {
    BeWord(bootext[0], bootext[1])
  }

  function Image(b: Board, bootext: seq<byte>, blocks: seq<Block>): seq<byte>
    requires |bootext| >= 2
    requires forall i :: 0 <= i < |blocks| ==> blocks[i].align > 0
  {
    var body := Body(b, bootext, blocks);
    Header(b, 2, Magic(bootext), b.flashBase + MmapOffset(b, bootext)) + body + Be16(FixUp(Checksum(body), Magic(bootext)))
  }

  // ------------------------------------------------------------ where things are

  /** Flash offsets of the blocks. */
  function Places(offset: nat, blocks: seq<Block>): (r: seq<nat>)
    requires forall i :: 0 <= i < |blocks| ==> blocks[i].align > 0
    ensures |r| == |blocks|
    decreases |blocks|
  {
    if blocks == [] then []
    else
      var at := AlignUp(offset, blocks[0].align);
      [at] + Places(at + |blocks[0].data|, blocks[1..])
  }

  /** Every block is at a multiple of its alignment, after everything before it, with its own bytes; the
      whole ends on a word boundary. */
  lemma {:induction false} BlocksPlaced(offset: nat, blocks: seq<Block>)
    requires forall i :: 0 <= i < |blocks| ==> blocks[i].align > 0
    ensures (offset + |BlocksBytes(offset, blocks)|) % 4 == 0
    ensures forall i :: 0 <= i < |blocks| ==>
              && Places(offset, blocks)[i] >= offset && Places(offset, blocks)[i] % blocks[i].align == 0
              && HoldsAt(BlocksBytes(offset, blocks), Places(offset, blocks)[i] - offset, blocks[i].data)
    decreases |blocks|
  {
    hide HoldsAt;
    if blocks != [] {
      var at := AlignUp(offset, blocks[0].align);
      var gap, data := Fill(at - offset), blocks[0].data;
      var next := at + |data|;
      var rest := BlocksBytes(next, blocks[1..]);
      BlocksPlaced(next, blocks[1..]);
      var all := gap + data + rest;
      HeldParts(gap, data, rest);
      forall i | 0 <= i < |blocks|
        ensures Places(offset, blocks)[i] >= offset && Places(offset, blocks)[i] % blocks[i].align == 0
        ensures HoldsAt(all, Places(offset, blocks)[i] - offset, blocks[i].data)
      {
        if i > 0 {
          assert blocks[1..][i - 1] == blocks[i];
          HeldLater(gap + data, rest, Places(next, blocks[1..])[i - 1] - next, blocks[i].data);
        }
      }
    }
  }

  lemma HeldParts(a: seq<byte>, b: seq<byte>, c: seq<byte>)
    ensures HoldsAt(a + b + c, |a|, b) && HoldsAt(a + b + c, |a| + |b|, c)
  {
  }

  /** The finished image: the memory map table is where the header says, every block is at its aligned flash
      offset, and the body sums to the header's checksum if and only if the boot extension does not start with
      a zero word; otherwise it sums to 0xFFFF. */
  lemma ImageConsistent(b: Board, bootext: seq<byte>, blocks: seq<Block>)
    requires |bootext| >= 2 && b.romioOffs % 4 == 0
    requires AlignedBlocks(blocks)
    ensures var img, mmap, end := Image(b, bootext, blocks), MmapOffset(b, bootext), BootextEnd(b, bootext);
            && mmap >= b.romioOffs && mmap % MMAP_ALIGN == 0
            && HoldsAt(img, mmap - b.romioOffs, Mmap(b.flashBase + mmap, UserData(b)))
            && (forall i :: 0 <= i < |blocks| ==>
                  && Places(end, blocks)[i] >= end && Places(end, blocks)[i] % blocks[i].align == 0
                  && HoldsAt(img, Places(end, blocks)[i] - b.romioOffs, blocks[i].data))
    ensures |Image(b, bootext, blocks)| >= HEADER_SIZE
    ensures Checksum(Image(b, bootext, blocks)[HEADER_SIZE..]) == if Magic(bootext) != 0 then Magic(bootext) else 0xFFFF
    ensures Checksum(Image(b, bootext, blocks)[HEADER_SIZE..]) == Magic(bootext) <==> Magic(bootext) != 0
  {
    hide HoldsAt, Header, Mmap, BlocksBytes, Checksum, FixUp, Magic;
    var mmap, end := MmapOffset(b, bootext), BootextEnd(b, bootext);
    var head := Header(b, 2, Magic(bootext), b.flashBase + mmap);
    var pad1, table := Fill(mmap - (b.romioOffs + HEADER_SIZE + |bootext|)), Mmap(b.flashBase + mmap, UserData(b));
    var pad2, raw := Fill(end - (mmap + MMAP_SIZE)), BlocksBytes(end, blocks);
    var fix := Be16(FixUp(Checksum(Body(b, bootext, blocks)), Magic(bootext)));
    var img := Image(b, bootext, blocks);
    BlocksPlaced(end, blocks);
    SevenParts(head, bootext, pad1, table, pad2, raw, fix);
    assert |head + bootext + pad1| == mmap - b.romioOffs;
    assert |head + bootext + pad1 + table + pad2| == end - b.romioOffs;
    forall i | 0 <= i < |blocks| ensures HoldsAt(img, Places(end, blocks)[i] - b.romioOffs, blocks[i].data) {
      HeldWithin(img, end - b.romioOffs, raw, Places(end, blocks)[i] - end, blocks[i].data);
    }
    ImageSums(b, bootext, blocks);
  }

  lemma ImageSums(b: Board, bootext: seq<byte>, blocks: seq<Block>)
    requires |bootext| >= 2 && b.romioOffs % 4 == 0 && forall i :: 0 <= i < |blocks| ==> blocks[i].align > 0
    ensures |Image(b, bootext, blocks)| >= HEADER_SIZE
    ensures Checksum(Image(b, bootext, blocks)[HEADER_SIZE..]) == if Magic(bootext) != 0 then Magic(bootext) else 0xFFFF
  {
    hide Header, Mmap, BlocksBytes, Checksum, FixUp, Magic, AlignUp, Places;
    var end := BootextEnd(b, bootext);
    var body := Body(b, bootext, blocks);
    BlocksPlaced(end, blocks);
    BodyEven(b.romioOffs, end, |BlocksBytes(end, blocks)|, |body|);
    BodyNotZero(b, bootext, blocks);
    FixUpWorks(body, Magic(bootext));
    assert Image(b, bootext, blocks)[HEADER_SIZE..] == body + Be16(FixUp(Checksum(body), Magic(bootext)));
  }

  /** Only zeros sum to zero. */
  lemma {:induction false} WordSumZero(m: seq<byte>, i: nat)
    requires i < |m| && m[i] != 0
    ensures WordSum(m) > 0
  {
    if i >= 2 { WordSumZero(m[2..], i - 2); }
  }

  /** The memory map table is in every body, so its sum is never zero. */
  lemma BodyNotZero(b: Board, bootext: seq<byte>, blocks: seq<Block>)
    requires forall i :: 0 <= i < |blocks| ==> blocks[i].align > 0
    ensures Checksum(Body(b, bootext, blocks)) != 0
  {
    hide WordSum, BlocksBytes, AlignUp, UserData, Be16, Be32;
    var mmap, end := MmapOffset(b, bootext), BootextEnd(b, bootext);
    var front := bootext + Fill(mmap - (b.romioOffs + HEADER_SIZE + |bootext|));
    var table := Mmap(b.flashBase + mmap, UserData(b));
    UserInside(b.flashBase + mmap, UserData(b));
    var body := Body(b, bootext, blocks);
    assert body == front + table + (Fill(end - (mmap + MMAP_SIZE)) + BlocksBytes(end, blocks));
    assert body[|front| + MMAP_HEADER_SIZE] == table[MMAP_HEADER_SIZE];
    WordSumZero(body, |front| + MMAP_HEADER_SIZE);
  }

  lemma UserInside(addr: nat, user: seq<byte>)
    requires user != [] && |user| + 2 * MMAP_HEADER_SIZE <= MMAP_SIZE
    ensures Mmap(addr, user)[MMAP_HEADER_SIZE] == user[0]
  {
    hide Be16, Be32, Checksum;
  }

  /** An image that misses its checksum: a boot extension of two zero bytes and no blocks. */
  lemma FixUpMisses()
    ensures var img := Image(Board(0x8000_8000, 0xBFC0_0000, 0x8000, 0x8000, 1, 1), [0, 0], []);
            |img| >= HEADER_SIZE && Magic([0, 0]) == 0 && Checksum(img[HEADER_SIZE..]) == 0xFFFF
  {
    hide Checksum, Image;
    ImageConsistent(Board(0x8000_8000, 0xBFC0_0000, 0x8000, 0x8000, 1, 1), [0, 0], []);
  }

  lemma BodyEven(start: nat, end: nat, raw: nat, body: nat)
    requires start % 4 == 0 && (end + raw) % 4 == 0 && start + HEADER_SIZE + body == end + raw
    ensures body % 2 == 0
  {
    assert body == 2 * (2 * ((end + raw) / 4) - 2 * (start / 4) - 24);
  }

  lemma SevenParts(a: seq<byte>, b: seq<byte>, c: seq<byte>, d: seq<byte>, e: seq<byte>, f: seq<byte>, g: seq<byte>)
    ensures var img := a + (b + c + d + e + f) + g;
            HoldsAt(img, |a + b + c|, d) && HoldsAt(img, |a + b + c + d + e|, f)
  {
    var img := a + (b + c + d + e + f) + g;
    assert img == a + b + c + d + e + f + g;
    assert img == (a + b + c) + d + (e + f + g);
    HeldParts(a + b + c, d, e + f + g);
    HeldParts(a + b + c + d + e, f, g);
  }

  // ------------------------------------------------------------ what the fields hold

  /** The worked example of section 3 of RFC 1071. */
  lemma ChecksumExample()
    ensures Checksum([0x00, 0x01, 0xf2, 0x03, 0xf4, 0xf5, 0xf6, 0xf7]) == 0xddf2
    ensures Checksum([0x00, 0x01, 0xf2, 0x03, 0xf4, 0xf5, 0xf6, 0xf7, 0x01]) == 0xdef2
  {
    var a: seq<byte> := [0x00, 0x01, 0xf2, 0x03];
    var b: seq<byte> := [0xf4, 0xf5, 0xf6, 0xf7];
    SumOfFour(0x00, 0x01, 0xf2, 0x03);
    SumOfFour(0xf4, 0xf5, 0xf6, 0xf7);
    WordSumConcat(a, b);
    WordSumPair(a + b, 0x01, 0);
    assert a + b == [0x00, 0x01, 0xf2, 0x03, 0xf4, 0xf5, 0xf6, 0xf7];
    assert a + b + [0x01] == [0x00, 0x01, 0xf2, 0x03, 0xf4, 0xf5, 0xf6, 0xf7, 0x01];
  }

  lemma SumOfFour(a: byte, b: byte, c: byte, d: byte)
    ensures WordSum([a, b, c, d]) == BeWord(a, b) + BeWord(c, d)
  {
    WordSumConcat([a, b], [c, d]);
    assert [a, b] + [c, d] == [a, b, c, d];
    assert [a, b][2..] == [] && [c, d][2..] == [];
  }

  /** The header field by field: load address, signature, object type, uncompressed size, the flag that the checksum is
      valid, the checksum, the address of the memory map table; everything else is zero. */
  lemma HeaderFields(b: Board, osize: nat, ocsum: nat, addr: nat)
    requires ocsum <= 0xFFFF
    ensures var h := Header(b, osize, ocsum, addr);
            && GetBe32(h[0..4]) == b.codeStart % 0x1_0000_0000 && h[4..6] == [0, 0]
            && h[6..10] == [0x53, 0x49, 0x47, 3]
            && GetBe32(h[10..14]) == osize % 0x1_0000_0000 && h[14..18] == [0, 0, 0, 0]
            && h[18] == 0x40 && h[19] == 0
            && 0x100 * (h[20] as nat) + h[21] as nat == ocsum
            && (forall i :: 22 <= i < 39 ==> h[i] == 0)
            && GetBe32(h[39..43]) == addr % 0x1_0000_0000 && h[43..48] == [0, 0, 0, 0, 0]
  {
    hide Be32, GetBe32, Be16;
    var h := Header(b, osize, ocsum, addr);
    WordRoundTrip(b.codeStart);
    WordRoundTrip(osize);
    WordRoundTrip(addr);
    ZeroWord();
    assert h[0..4] == Be32(b.codeStart) && h[10..14] == Be32(osize) && h[14..18] == Be32(0);
    assert h[20..22] == Be16(ocsum) && h[22..24] == Be16(0) && h[39..43] == Be32(addr);
    TwoBytes(ocsum);
    TwoBytes(0);
    assert h[20] == h[20..22][0] && h[21] == h[20..22][1] && h[22] == h[22..24][0] && h[23] == h[22..24][1];
  }

  lemma ZeroWord()
    ensures Be32(0) == [0, 0, 0, 0]
  {
  }

  lemma TwoBytes(n: nat)
    requires n <= 0xFFFF
    ensures 0x100 * (Be16(n)[0] as nat) + Be16(n)[1] as nat == n && (n == 0 ==> Be16(n) == [0, 0])
  {
  }

  lemma ImageFront(b: Board, bootext: seq<byte>, blocks: seq<Block>)
    requires |bootext| >= 2 && AlignedBlocks(blocks)
    ensures var img, h := Image(b, bootext, blocks), Header(b, 2, Magic(bootext), b.flashBase + MmapOffset(b, bootext));
            |img| >= 48 && img[..48] == h
  {
    hide Header, Body, Checksum, FixUp, MmapOffset;
  }

  /** The header of an image: its object type, that its checksum counts, and that this is the checksum of all that
      follows the header, unless the boot extension starts with a zero word. */
  lemma HeaderTrue(b: Board, bootext: seq<byte>, blocks: seq<Block>)
    requires |bootext| >= 2 && b.romioOffs % 4 == 0
    requires AlignedBlocks(blocks)
    ensures var img := Image(b, bootext, blocks);
            && |img| >= 48
            && GetBe32(img[0..4]) == b.codeStart % 0x1_0000_0000
            && img[6..10] == [0x53, 0x49, 0x47, 3] && GetBe32(img[10..14]) == 2 && img[18] == 0x40
            && img[20..22] == bootext[..2]
            && (0x100 * (img[20] as nat) + img[21] as nat == Checksum(img[48..]) <==> bootext[..2] != [0, 0])
  {
    hide HoldsAt, Header, Image, Checksum, GetBe32, Magic, BeWord, MmapOffset, AlignedBlocks, Places, BootextEnd;
    Positive(blocks);
    ImageConsistent(b, bootext, blocks);
    ImageFront(b, bootext, blocks);
    var img, addr := Image(b, bootext, blocks), b.flashBase + MmapOffset(b, bootext);
    var h := Header(b, 2, Magic(bootext), addr);
    HeaderFields(b, 2, Magic(bootext), addr);
    FrontSlices(img, h);
    FirstTwo(bootext);
    WordIs(bootext[0], bootext[1], h[20], h[21]);
  }

  /** The memory map table is behind the boot extension, at the address in the header. */
  lemma TableThere(b: Board, bootext: seq<byte>, blocks: seq<Block>)
    requires |bootext| >= 2 && b.romioOffs % 4 == 0
    requires AlignedBlocks(blocks)
    ensures |Image(b, bootext, blocks)| >= 48
    ensures exists addr: nat ::
              && b.flashBase + b.romioOffs + 48 + |bootext| <= addr < b.flashBase + b.romioOffs + 64 + |bootext|
              && GetBe32(Image(b, bootext, blocks)[39..43]) == addr % 0x1_0000_0000
              && HoldsAt(Image(b, bootext, blocks), addr - b.flashBase - b.romioOffs, Mmap(addr, UserData(b)))
  {
    hide HoldsAt, Header, Image, Checksum, GetBe32, AlignedBlocks, Places, BootextEnd, Mmap, UserData, Magic;
    Positive(blocks);
    ImageConsistent(b, bootext, blocks);
    ImageFront(b, bootext, blocks);
    var img, addr := Image(b, bootext, blocks), b.flashBase + MmapOffset(b, bootext);
    HeaderFields(b, 2, Magic(bootext), addr);
    FrontSlices(img, Header(b, 2, Magic(bootext), addr));
  }

  lemma FirstTwo(bootext: seq<byte>)
    requires |bootext| >= 2
    ensures bootext[..2] == [bootext[0], bootext[1]] && Magic(bootext) == BeWord(bootext[0], bootext[1])
  {
  }

  lemma FrontSlices(img: seq<byte>, h: seq<byte>)
    requires |h| == 48 <= |img| && img[..48] == h
    ensures img[0..4] == h[0..4] && img[6..10] == h[6..10] && img[10..14] == h[10..14] && img[18] == h[18]
    ensures img[20..22] == [h[20], h[21]] && img[39..43] == h[39..43]
  {
  }

  lemma WordIs(a: byte, b: byte, c: byte, d: byte)
    requires 0x100 * (c as nat) + d as nat == BeWord(a, b)
    ensures c == a && d == b && (BeWord(a, b) == 0 <==> a == 0 && b == 0)
  {
  }

  /** The memory map table: no items, where its user data starts and ends, the checksum of as many bytes as the header
      and the user data take together, the user data, and zeros. */
  lemma MmapFields(addr: nat, user: seq<byte>)
    requires |user| + 48 <= 1024
    ensures var m := Mmap(addr, user);
            && m[0..2] == [0, 0]
            && GetBe32(m[2..6]) == (addr + 24) % 0x1_0000_0000
            && GetBe32(m[6..10]) == (addr + 24 + |user|) % 0x1_0000_0000
            && 0x100 * (m[10] as nat) + m[11] as nat == Checksum(m[24..24 + (24 + |user|)])
            && (forall i :: 12 <= i < 24 ==> m[i] == 0)
            && m[24..24 + |user|] == user && (forall i :: 24 + |user| <= i < 1024 ==> m[i] == 0)
  {
    hide Be32, GetBe32, Be16, Checksum;
    var m := Mmap(addr, user);
    WordRoundTrip(addr + 24);
    WordRoundTrip(addr + 24 + |user|);
    assert m[0..2] == Be16(0) && m[2..6] == Be32(addr + 24) && m[6..10] == Be32(addr + 24 + |user|);
    var covered := user + Zeros(24);
    assert m[24..24 + (24 + |user|)] == covered;
    assert m[10..12] == Be16(Checksum(covered));
    TwoBytes(0);
    TwoBytes(Checksum(covered));
    assert m[10] == m[10..12][0] && m[11] == m[10..12][1];
  }

  // ------------------------------------------------------------ writing it

  class Writer {
    var file: seq<byte>
    const css: CsumState

    constructor ()
      ensures file == [] && fresh(css) && css.Valid() && css.message == []
    {
      file := [];
      css := new CsumState();
    }

    /** write_out_data with the checksum. */
    method WriteData(data: seq<byte>)
      requires css.Valid()
      modifies this, css
      ensures css.Valid() && file == old(file) + data && css.message == old(css.message) + data
    {
      file := file + data;
      css.Update(data);
    }

    /** write_out_padding */
    method WritePadding(n: nat)
      requires css.Valid()
      modifies this, css
      ensures css.Valid() && file == old(file) + Fill(n) && css.message == old(css.message) + Fill(n)
    {
      hide CsumState.Valid;
      var len: nat, buflen := n, PAD_BUF_LEN;
      ghost var done: nat := 0;
      assert file + Fill(0) == file && css.message + Fill(0) == css.message;
      while len > 0
        invariant done + len == n && 0 < buflen <= PAD_BUF_LEN && css.Valid()
        invariant file == old(file) + Fill(done) && css.message == old(css.message) + Fill(done)
      {
        if len < buflen {
          buflen := len;
        }
        WriteData(Fill(buflen));
        FillMore(old(file), done, buflen);
        FillMore(old(css.message), done, buflen);
        len, done := len - buflen, done + buflen;
      }
    }

    /** write_out_block: nothing for an empty file, otherwise the copy loop of write_out_file. */
    method WriteBlock(data: seq<byte>)
      requires css.Valid()
      modifies this, css
      ensures css.Valid() && file == old(file) + data && css.message == old(css.message) + data
    {
      hide CsumState.Valid;
      var p, buflen := 0, FILE_BUF_LEN;
      assert file + data[..0] == file && css.message + data[..0] == css.message;
      while p < |data|
        invariant p <= |data| && 0 < buflen <= FILE_BUF_LEN && css.Valid()
        invariant file == old(file) + data[..p] && css.message == old(css.message) + data[..p]
      {
        if |data| - p < buflen {
          buflen := |data| - p;
        }
        WriteData(data[p..p + buflen]);
        CopyMore(old(file), data, p, p + buflen);
        CopyMore(old(css.message), data, p, p + buflen);
        p := p + buflen;
      }
      assert data[..p] == data;
    }

    /** The loop over the raw blocks and the last padding; returns the running flash offset. */
    method WriteBlocks(start: nat, blocks: seq<Block>) returns (offset: nat)
      requires css.Valid() && forall i :: 0 <= i < |blocks| ==> blocks[i].align > 0
      modifies this, css
      ensures css.Valid() && file == old(file) + BlocksBytes(start, blocks)
      ensures css.message == old(css.message) + BlocksBytes(start, blocks)
      ensures offset == start + |BlocksBytes(start, blocks)|
    {
      hide CsumState.Valid, AlignUp, BlocksBytes;
      offset := start;
      var i := 0;
      ghost var done: seq<byte> := [];
      assert blocks[0..] == blocks && file + done == file && css.message + done == css.message;
      assert done + BlocksBytes(start, blocks) == BlocksBytes(start, blocks);
      while i < |blocks|
        invariant i <= |blocks| && css.Valid() && offset == start + |done|
        invariant file == old(file) + done && css.message == old(css.message) + done
        invariant done + BlocksBytes(offset, blocks[i..]) == BlocksBytes(start, blocks)
      {
        var block := blocks[i];
        assert blocks[i..][1..] == blocks[i + 1..];
        var padlen := AlignUp(offset, block.align) - offset;
        WritePadding(padlen);
        WriteBlock(block.data);
        ghost var rest := BlocksBytes(offset + padlen + |block.data|, blocks[i + 1..]);
        ghost var own := Fill(padlen) + block.data;
        Three(old(file), done, Fill(padlen), block.data);
        Three(old(css.message), done, Fill(padlen), block.data);
        BlocksStep(offset, blocks[i..]);
        Assoc(done, own, BlocksBytes(offset + padlen + |block.data|, blocks[i + 1..]));
        done := done + own;
        offset := offset + padlen + |block.data|;
        i := i + 1;
      }
      assert blocks[i..] == [];
      BlocksLast(offset);
      var padlen := AlignUp(offset, 4) - offset;
      WritePadding(padlen);
      Assoc(old(file), done, Fill(padlen));
      Assoc(old(css.message), done, Fill(padlen));
      offset := offset + padlen;
    }

    /** The part of write_out_image that writes what the checksum covers; fails exactly when the boot
        extension is too big, and returns the address of the memory map table. */
    method WriteBody(b: Board, bootext: seq<byte>, blocks: seq<Block>) returns (ok: bool, mmapAddr: nat)
      requires css.Valid() && css.message == []
      requires forall i :: 0 <= i < |blocks| ==> blocks[i].align > 0
      modifies this, css
      ensures ok == (HEADER_SIZE + |bootext| <= b.bootextSize)
      ensures ok ==> css.Valid() && css.message == Body(b, bootext, blocks)
                     && file == old(file) + Body(b, bootext, blocks)
                     && mmapAddr == b.flashBase + MmapOffset(b, bootext)
    {
      hide CsumState.Valid, AlignUp, Mmap, BlocksBytes;
      mmapAddr := 0;
      var offset := b.romioOffs + HEADER_SIZE;
      WriteBlock(bootext);
      offset := offset + |bootext|;
      if offset > b.romioOffs + b.bootextSize {
        ok := false;
        return;
      }
      var padlen := AlignUp(offset, MMAP_ALIGN) - offset;
      WritePadding(padlen);
      offset := offset + padlen;
      mmapAddr := b.flashBase + offset;
      WriteData(Mmap(mmapAddr, UserData(b)));
      offset := offset + MMAP_SIZE;
      ghost var pad2: seq<byte> := [];
      if offset - b.romioOffs < b.bootextSize {
        var padlen := b.romioOffs + b.bootextSize - offset;
        WritePadding(padlen);
        pad2 := Fill(padlen);
        offset := offset + padlen;
      } else {
        assert file + pad2 == file && css.message + pad2 == css.message;
      }
      assert offset == BootextEnd(b, bootext);
      assert pad2 == Fill(offset - (MmapOffset(b, bootext) + MMAP_SIZE));
      ghost var start := offset;
      offset := WriteBlocks(offset, blocks);
      JoinBody(old(file), bootext, Fill(padlen), Mmap(mmapAddr, UserData(b)), pad2, BlocksBytes(start, blocks));
      JoinBody([], bootext, Fill(padlen), Mmap(mmapAddr, UserData(b)), pad2, BlocksBytes(start, blocks));
      assert [] + Body(b, bootext, blocks) == Body(b, bootext, blocks);
      ok := true;
    }

    /** write_out_image */
    method WriteImage(b: Board, bootext: seq<byte>, blocks: seq<Block>) returns (ok: bool)
      requires css.Valid() && css.message == [] && file == []
      requires |bootext| >= 2
      requires AlignedBlocks(blocks)
      modifies this, css
      ensures ok == (HEADER_SIZE + |bootext| <= b.bootextSize)
      ensures ok ==> file == Image(b, bootext, blocks)
    {
      hide CsumState.Valid, Header, Body, Checksum, FixUp, MmapOffset, Be16;
      Positive(blocks);
      file := Header(b, 0, 0, 0);
      var mmapAddr;
      ok, mmapAddr := WriteBody(b, bootext, blocks);
      if !ok {
        return;
      }
      var csum := css.Get();
      var ocsum := BeWord(bootext[0], bootext[1]);
      MagicRange(bootext);
      file := file + Be16(FixUp(csum, ocsum));
      var header := Header(b, 2, ocsum, mmapAddr);
      HeaderAgain(Header(b, 0, 0, 0), header, Body(b, bootext, blocks), Be16(FixUp(csum, ocsum)));
      file := header + file[HEADER_SIZE..];
    }
  }

  lemma MagicRange(bootext: seq<byte>)
    requires |bootext| >= 2
    ensures BeWord(bootext[0], bootext[1]) == Magic(bootext)
  {
  }

  lemma HeaderAgain(old': seq<byte>, new': seq<byte>, body: seq<byte>, fix: seq<byte>)
    requires |old'| == |new'| == HEADER_SIZE
    ensures new' + (old' + body + fix)[HEADER_SIZE..] == new' + body + fix
  {
  }

  lemma Positive(blocks: seq<Block>)
    requires AlignedBlocks(blocks)
    ensures forall i :: 0 <= i < |blocks| ==> blocks[i].align > 0
  {
  }

  lemma BlocksStep(offset: nat, blocks: seq<Block>)
    requires blocks != [] && forall i :: 0 <= i < |blocks| ==> blocks[i].align > 0
    ensures var at := AlignUp(offset, blocks[0].align);
            BlocksBytes(offset, blocks)
            == Fill(at - offset) + blocks[0].data + BlocksBytes(at + |blocks[0].data|, blocks[1..])
  {
    hide AlignUp;
  }

  lemma BlocksLast(offset: nat)
    ensures BlocksBytes(offset, []) == Fill(AlignUp(offset, 4) - offset)
  {
  }

  lemma FillMore(s: seq<byte>, a: nat, b: nat)
    ensures s + Fill(a) + Fill(b) == s + Fill(a + b)
  {
  }

  lemma CopyMore(s: seq<byte>, d: seq<byte>, p: nat, q: nat)
    requires p <= q <= |d|
    ensures s + d[..p] + d[p..q] == s + d[..q]
  {
  }

  lemma Three(s: seq<byte>, a: seq<byte>, b: seq<byte>, c: seq<byte>)
    ensures s + a + b + c == s + (a + (b + c))
  {
  }

  lemma JoinBody(s: seq<byte>, a: seq<byte>, b: seq<byte>, c: seq<byte>, d: seq<byte>, e: seq<byte>)
    ensures s + a + b + c + d + e == s + (a + b + c + d + e)
  {
  }
}
