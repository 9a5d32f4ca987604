/** The cramfs on-disk format (linux/cramfs_fs.h): inodes, directory records and data chunks,
    in either byte order. */
module CramfsFormat {
  import opened Bytes

  datatype Endian = Little | Big

  function Put32(en: Endian, n: nat): (r: seq<byte>)
    ensures |r| == 4
  {
    if en.Little? then Le32(n) else Be32(n)
  }

  function Get32(en: Endian, s: seq<byte>): (n: nat)
    requires |s| == 4
  {
    if en.Little? then GetLe32(s) else GetBe32(s)
  }

  /** The word at a place of the image; 0 where the image has ended. */
  function WordAt(en: Endian, img: seq<byte>, at: nat): nat {
    if at + 4 <= |img| then Get32(en, img[at..at + 4]) else 0
  }

  /** `struct cramfs_inode`. */
  datatype Inode = Inode(mode: nat, uid: nat, size: nat, gid: nat, namelen: nat, offset: nat)

  const INODE_SIZE := 12
  const SUPER_SIZE := 76
  const PAD_SIZE := 512
  const BLOCK := 4096
  const MODE_LIMIT := 0x1_0000
  const SIZE_LIMIT := 0x100_0000
  const OFFSET_LIMIT := 0x400_0000
  const MAX_NAME := 252

  predicate InodeInRange(i: Inode) {
    && i.mode < MODE_LIMIT && i.uid < MODE_LIMIT
    && i.size < SIZE_LIMIT && i.gid < 256
    && i.namelen < 64 && i.offset < OFFSET_LIMIT
  }

  /** Two bitfields sharing a word: allocated from the least significant end on a little-endian host
      and from the most significant end on a big-endian one.  A store to a bitfield keeps the low bits. */
  function Packed(en: Endian, first: nat, firstLimit: nat, second: nat, secondLimit: nat): nat
    requires firstLimit > 0 && secondLimit > 0
  {
    if en.Little? then first % firstLimit + firstLimit * (second % secondLimit)
    else second % secondLimit + secondLimit * (first % firstLimit)
  }

  function NameWord(en: Endian, namelen: nat, offset: nat): nat {
    Packed(en, namelen, 0x40, offset, 0x400_0000)
  }

  function EncodeInode(en: Endian, i: Inode): (r: seq<byte>)
    ensures |r| == INODE_SIZE
  {
    Put32(en, Packed(en, i.mode, 0x1_0000, i.uid, 0x1_0000))
    + Put32(en, Packed(en, i.size, 0x100_0000, i.gid, 0x100))
    + Put32(en, NameWord(en, i.namelen, i.offset))
  }

  function DecodeInode(en: Endian, s: seq<byte>): (i: Inode)
    requires |s| == INODE_SIZE
  {
    var a, b, c := Get32(en, s[0..4]), Get32(en, s[4..8]), Get32(en, s[8..12]);
    if en.Little? then
      Inode(a % 0x1_0000, a / 0x1_0000, b % 0x100_0000, b / 0x100_0000, c % 0x40, c / 0x40)
    else
      Inode(a / 0x1_0000, a % 0x1_0000, b / 0x100, b % 0x100, c / 0x400_0000, c % 0x400_0000)
  }

  lemma GetPut32(en: Endian, n: nat)
    requires n < 0x1_0000_0000
    ensures Get32(en, Put32(en, n)) == n
  {
    WordRoundTrip(n);
  }

  /** What the bitfields keep of each field. */
  function Truncated(i: Inode): Inode {
    Inode(i.mode % 0x1_0000, i.uid % 0x1_0000, i.size % 0x100_0000, i.gid % 0x100,
          i.namelen % 0x40, i.offset % 0x400_0000)
  }

  lemma ThreeWords(en: Endian, a: nat, b: nat, c: nat)
    requires a < 0x1_0000_0000 && b < 0x1_0000_0000 && c < 0x1_0000_0000
    ensures var s := Put32(en, a) + Put32(en, b) + Put32(en, c);
            && Get32(en, s[0..4]) == a && Get32(en, s[4..8]) == b && Get32(en, s[8..12]) == c
  {
    var s := Put32(en, a) + Put32(en, b) + Put32(en, c);
    assert s[0..4] == Put32(en, a) && s[4..8] == Put32(en, b) && s[8..12] == Put32(en, c);
    GetPut32(en, a); GetPut32(en, b); GetPut32(en, c);
  }

  lemma PackedParts(en: Endian, first: nat, firstLimit: nat, second: nat, secondLimit: nat)
    requires firstLimit > 0 && secondLimit > 0 && firstLimit * secondLimit == 0x1_0000_0000
    ensures var w := Packed(en, first, firstLimit, second, secondLimit);
            && w < 0x1_0000_0000
            && (if en.Little? then w % firstLimit == first % firstLimit && w / firstLimit == second % secondLimit
                else w % secondLimit == second % secondLimit && w / secondLimit == first % firstLimit)
  {
    var a, b := first % firstLimit, second % secondLimit;
    FieldsSplit(a, b, firstLimit);
    FieldsSplit(b, a, secondLimit);
    MulAtLeast(firstLimit, secondLimit - b);
    assert firstLimit * (secondLimit - b) == firstLimit * secondLimit - firstLimit * b;
    assert secondLimit * (firstLimit - a) == firstLimit * secondLimit - secondLimit * a;
    MulAtLeast(secondLimit, firstLimit - a);
  }

  /** The word that holds `namelen` and `offset`, after `inode->offset = x`. */
  function PatchedWord(en: Endian, word: nat, x: nat): nat {
    if en.Little? then word % 0x40 + 0x40 * x else word / 0x400_0000 * 0x400_0000 + x
  }

  lemma PatchNameWord(en: Endian, namelen: nat, offset: nat, x: nat)
    requires x < OFFSET_LIMIT
    ensures NameWord(en, namelen, offset) < 0x1_0000_0000
    ensures PatchedWord(en, NameWord(en, namelen, offset), x) == NameWord(en, namelen, x)
  {
    PackedParts(en, namelen, 0x40, offset, 0x400_0000);
  }

  lemma BelowModulus(n: nat, m: nat)
    requires m > 0
    ensures n % m == n <==> n < m
  {
  }

  /** Only what the bitfields keep is written. */
  lemma EncodeTruncated(en: Endian, i: Inode)
    ensures InodeInRange(Truncated(i)) && EncodeInode(en, Truncated(i)) == EncodeInode(en, i)
  {
    hide Put32, Packed;
    PackedTruncated(en, i.mode, 0x1_0000, i.uid, 0x1_0000);
    PackedTruncated(en, i.size, 0x100_0000, i.gid, 0x100);
    PackedTruncated(en, i.namelen, 0x40, i.offset, 0x400_0000);
  }

  lemma PackedTruncated(en: Endian, first: nat, firstLimit: nat, second: nat, secondLimit: nat)
    requires firstLimit > 0 && secondLimit > 0
    ensures Packed(en, first % firstLimit, firstLimit, second % secondLimit, secondLimit)
            == Packed(en, first, firstLimit, second, secondLimit)
  {
    BelowModulus(first % firstLimit, firstLimit);
    BelowModulus(second % secondLimit, secondLimit);
  }

  /** An inode survives the bitfields exactly when every field fits its width. */
  lemma InodeRoundTrip(en: Endian, i: Inode)
    ensures DecodeInode(en, EncodeInode(en, i)) == i <==> InodeInRange(i)
  {
    hide Get32, Put32;
    PackedParts(en, i.mode, 0x1_0000, i.uid, 0x1_0000);
    PackedParts(en, i.size, 0x100_0000, i.gid, 0x100);
    PackedParts(en, i.namelen, 0x40, i.offset, 0x400_0000);
    ThreeWords(en, Packed(en, i.mode, 0x1_0000, i.uid, 0x1_0000), Packed(en, i.size, 0x100_0000, i.gid, 0x100),
               NameWord(en, i.namelen, i.offset));
    assert DecodeInode(en, EncodeInode(en, i)) == Truncated(i);
    BelowModulus(i.mode, 0x1_0000); BelowModulus(i.uid, 0x1_0000); BelowModulus(i.size, 0x100_0000);
    BelowModulus(i.gid, 0x100); BelowModulus(i.namelen, 0x40); BelowModulus(i.offset, 0x400_0000);
  }

  // ------------------------------------------------------------ entries and records

  function FileType(mode: nat): nat { mode / 0x1000 % 16 }

  predicate IsDir(mode: nat) { FileType(mode) == 4 }
  predicate IsReg(mode: nat) { FileType(mode) == 8 }
  predicate IsLnk(mode: nat) { FileType(mode) == 10 }
  predicate IsDevice(mode: nat) { FileType(mode) == 2 || FileType(mode) == 6 }
  predicate IsPipe(mode: nat) { FileType(mode) == 1 || FileType(mode) == 12 }

  /** What `struct entry` says of one file.  `data` holds the bytes of a regular file or the target of
      a symbolic link, and is empty for every other entry. */
  datatype Ent = Ent(name: seq<byte>, mode: nat, uid: nat, gid: nat, size: nat, data: seq<byte>)
  {
    /** `entry->path || entry->uncompressed`. */
    predicate HasData() { data != [] }

    function RecordSize(): nat { INODE_SIZE + RoundUp4(|name|) }

    function PaddedName(): (r: seq<byte>)
      ensures |r| == RoundUp4(|name|)
    {
      name + Zeros(RoundUp4(|name|) - |name|)
    }

    /** The inode of this entry when its data, or its first child, is at byte `at` of the image. */
    function InodeAt(at: nat): Inode {
      Inode(mode, uid, size, gid, RoundUp4(|name|) / 4, at / 4)
    }

    function Record(en: Endian, at: nat): (r: seq<byte>)
      ensures |r| == RecordSize()
    {
      EncodeInode(en, InodeAt(at)) + PaddedName()
    }
  }

  // ------------------------------------------------------------ compressed data

  /** zlib: `compress2`, `inflate` run to the end of the stream, and `crc32` from its initial value. */
  datatype Zlib = Zlib(compress: seq<byte> -> seq<byte>, inflate: seq<byte> -> Option<seq<byte>>,
                       crc: seq<byte> -> nat)

  /** What the tools rely on; 26 is the expansion that `parse_directory` allows for. */
  ghost predicate Lawful(z: Zlib) {
    && (forall b: seq<byte> | |b| <= BLOCK :: 0 < |z.compress(b)| <= |b| + 26)
    && (forall b: seq<byte> | |b| <= BLOCK :: z.inflate(z.compress(b)) == Some(b))
    && (forall b: seq<byte> :: z.crc(b) < 0x1_0000_0000)
  }

  /** Storing a block behind one extra byte is a lawful compression. */
  function Storing(): Zlib {
    Zlib(b => [0] + b, c => if c == [] then None else Some(c[1..]), b => 0)
  }

  lemma StoringIsLawful()
    ensures Lawful(Storing())
  {
    var z := Storing();
    forall b: seq<byte> | |b| <= BLOCK ensures z.inflate(z.compress(b)) == Some(b) && |z.compress(b)| == |b| + 1 {
      assert ([0] + b)[1..] == b;
    }
  }

  predicate AllZero(b: seq<byte>) {
    forall i :: 0 <= i < |b| ==> b[i] == 0
  }

  /** One stored block: with holes enabled, a block of NULs takes no space. */
  function Squeeze(z: Zlib, holes: bool, b: seq<byte>): seq<byte> {
    if holes && AllZero(b) then [] else z.compress(b)
  }

  function BlockCount(size: nat): nat
  {
    (size + BLOCK - 1) / BLOCK
  }

  /** The two ways the tools count blocks: in unsigned 32-bit arithmetic they agree on every size but zero, for
      which `(size - 1) / blksize + 1` is 2^20. */
  lemma BlockCountAlt(size: nat)
    ensures size > 0 ==> BlockCount(size) == (size - 1) / BLOCK + 1
    ensures size < 0x1_0000_0000 ==> ((size - 1) % 0x1_0000_0000 / BLOCK + 1 == BlockCount(size) <==> size > 0)
  {
    if size > 0 {
      var q, r := (size - 1) / BLOCK, (size - 1) % BLOCK;
      assert size - 1 + BLOCK == BLOCK * (q + 1) + r;
      FieldsSplit(r, q + 1, BLOCK);
    }
  }

  /** The pointer table: the i'th pointer is the end of the i'th block. */
  function Pointers(en: Endian, z: Zlib, holes: bool, data: seq<byte>, curr: nat): seq<byte> {
    if data == [] then []
    else if |data| <= BLOCK then Put32(en, curr + |Squeeze(z, holes, data)|)
    else
      var next := curr + |Squeeze(z, holes, data[..BLOCK])|;
      Put32(en, next) + Pointers(en, z, holes, data[BLOCK..], next)
  }

  function Blocks(z: Zlib, holes: bool, data: seq<byte>): seq<byte> {
    if data == [] then []
    else if |data| <= BLOCK then Squeeze(z, holes, data)
    else Squeeze(z, holes, data[..BLOCK]) + Blocks(z, holes, data[BLOCK..])
  }

  /** Everything that `do_compress` writes for `data` at offset `at`: pointers, blocks, padding. */
  function Chunk(en: Endian, z: Zlib, holes: bool, data: seq<byte>, at: nat): seq<byte> {
    var body := Pointers(en, z, holes, data, at + 4 * BlockCount(|data|)) + Blocks(z, holes, data);
    body + Zeros(RoundUp4(|body|) - |body|)
  }

  function ChunkSize(z: Zlib, holes: bool, data: seq<byte>): nat {
    RoundUp4(4 * BlockCount(|data|) + |Blocks(z, holes, data)|)
  }

  lemma {:induction false} PointersSize(en: Endian, z: Zlib, holes: bool, data: seq<byte>, curr: nat)
    ensures |Pointers(en, z, holes, data, curr)| == 4 * BlockCount(|data|)
    decreases |data|
  {
    if |data| > BLOCK {
      PointersSize(en, z, holes, data[BLOCK..], curr + |Squeeze(z, holes, data[..BLOCK])|);
      assert BlockCount(|data|) == 1 + BlockCount(|data| - BLOCK);
    }
  }

  lemma ChunkLength(en: Endian, z: Zlib, holes: bool, data: seq<byte>, at: nat)
    ensures |Chunk(en, z, holes, data, at)| == ChunkSize(z, holes, data)
    ensures ChunkSize(z, holes, data) % 4 == 0
  {
    PointersSize(en, z, holes, data, at + 4 * BlockCount(|data|));
  }

  /** The allowance of `parse_directory`: 4 + 26 bytes a block, the data itself, and 3 for alignment. */
  lemma {:induction false} BlocksBound(z: Zlib, holes: bool, data: seq<byte>)
    requires Lawful(z)
    ensures |Blocks(z, holes, data)| <= |data| + 26 * BlockCount(|data|)
    ensures !holes && data != [] ==> |Blocks(z, holes, data)| > 0
    decreases |data|
  {
    if data == [] {
    } else if |data| <= BLOCK {
      assert BlockCount(|data|) == 1;
    } else {
      BlocksBound(z, holes, data[BLOCK..]);
      assert BlockCount(|data|) == 1 + BlockCount(|data| - BLOCK);
    }
  }

  lemma ChunkBound(z: Zlib, holes: bool, data: seq<byte>)
    requires Lawful(z)
    ensures ChunkSize(z, holes, data) <= 30 * BlockCount(|data|) + |data| + 3
    ensures data != [] ==> ChunkSize(z, holes, data) >= 4
  {
    BlocksBound(z, holes, data);
    if data != [] { assert BlockCount(|data|) >= 1; }
  }
}
