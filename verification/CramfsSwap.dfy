/** cramfsswap: one sequential pass that rewrites an image for the other byte order. */
module CramfsSwap {
  import opened Bytes
  import opened CramfsFormat
  import opened CramfsImage

  const SUPER_HEAD := 64
  const BUFFER_SIZE := 16384
  const LIMIT := 0x1_0000_0000

  function Other(en: Endian): Endian { if en.Little? then Big else Little }

  function Bswap(w: seq<byte>): (r: seq<byte>)
    requires |w| == 4
    ensures |r| == 4
  {
    [w[3], w[2], w[1], w[0]]
  }

  /** The first eight words: four numbers, then the signature. */
  function SwapHead(b: seq<byte>): (r: seq<byte>)
    requires |b| == 32
    ensures |r| == 32
  {
    Bswap(b[0..4]) + Bswap(b[4..8]) + Bswap(b[8..12]) + Bswap(b[12..16]) + b[16..32]
  }

  /** The words after the checksum: three numbers, then the name. */
  function SwapTail(b: seq<byte>): (r: seq<byte>)
    requires |b| == 28
    ensures |r| == 28
  {
    Bswap(b[0..4]) + Bswap(b[4..8]) + Bswap(b[8..12]) + b[12..28]
  }

  function SwapSuper(b: seq<byte>): (r: seq<byte>)
    requires |b| == SUPER_HEAD
    ensures |r| == SUPER_HEAD
  {
    SwapHead(b[..32]) + Bswap(b[32..36]) + SwapTail(b[36..])
  }

  /** `((x & 0x3F) << 2) | ((y & 0xC0) >> 6)` */
  function RotateLeft(x: byte, y: byte): byte { x % 64 * 4 + y / 64 }

  /** `((x & 0xFD) >> 2) | ((y & 0x03) << 6)`; the bit that 0xFD clears is shifted out anyway. */
  function RotateRight(x: byte, y: byte): byte { x / 4 + y % 4 * 64 }

  /** The byte moves of one inode. */
  function SwapInode(en: Endian, b: seq<byte>): (r: seq<byte>)
    requires |b| == INODE_SIZE
    ensures |r| == INODE_SIZE
  {
    [b[1], b[0], b[3], b[2], b[6], b[5], b[4], b[7]]
    + if en.Little? then
        [RotateLeft(b[8], b[11]), RotateLeft(b[11], b[10]), RotateLeft(b[10], b[9]), RotateLeft(b[9], b[8])]
      else
        [RotateRight(b[8], b[11]), RotateRight(b[11], b[10]), RotateRight(b[10], b[9]), RotateRight(b[9], b[8])]
  }

  function SwapWords(s: seq<byte>): (r: seq<byte>)
    requires |s| % 4 == 0
    ensures |r| == |s|
  {
    if s == [] then [] else Bswap(s[..4]) + SwapWords(s[4..])
  }

  /** One element of `filesize` and `fileoffset`. */
  datatype Slot = Slot(size: nat, offset: nat)

  /** What the directory pass leaves: its output, the two tables, the counter, the unread input. */
  datatype Listing = Listing(out: seq<byte>, slots: seq<Slot>, remaining: nat, rest: seq<byte>)

  predicate HasChunk(i: Inode) { (IsReg(i.mode) || IsLnk(i.mode)) && i.size > 0 }

  /** One inode and the name after it. */
  function SwapRecord(en: Endian, b: seq<byte>): (r: seq<byte>)
    requires |b| >= INODE_SIZE
    ensures |r| == |b|
  {
    SwapInode(en, b[..INODE_SIZE]) + b[INODE_SIZE..]
  }

  /** The listing after one more record in front. */
  function Prepend(en: Endian, rec: seq<byte>, l: Option<Listing>): Option<Listing>
    requires |rec| >= INODE_SIZE
  {
    var i := DecodeInode(en, rec[..INODE_SIZE]);
    match l
    case None => None
    case Some(l) => Some(Listing(SwapRecord(en, rec) + l.out, [Slot(i.size, i.offset)] + l.slots,
                                 (if HasChunk(i) then 1 else 0) + l.remaining, l.rest))
  }

  /** Bytes of the first record of `s`. */
  function RecordLength(en: Endian, s: seq<byte>): nat
    requires |s| >= INODE_SIZE
  {
    INODE_SIZE + 4 * DecodeInode(en, s[..INODE_SIZE]).namelen
  }

  /** The directory pass over `n` more records of the unread input `s`. */
  function Listed(en: Endian, s: seq<byte>, n: nat): Option<Listing> {
    if n == 0 then Some(Listing([], [], 0, s))
    else if |s| < INODE_SIZE || |s| < RecordLength(en, s) then None
    else
      var end := RecordLength(en, s);
      Prepend(en, s[..end], Listed(en, s[end..], n - 1))
  }

  /** The first file from `k` on whose data starts at `filepos`; the length when there is none. */
  function FindSlot(slots: seq<Slot>, k: nat, filepos: nat): (r: nat)
    ensures r < |slots| ==> k <= r && slots[r].offset == filepos
    ensures r < |slots| || r == |slots| || r == k
    decreases |slots| - k
  {
    if k >= |slots| then k
    else if slots[k].offset == filepos then k
    else FindSlot(slots, k + 1, filepos)
  }

  /** How many of the files 1 .. n - 1 start at `filepos`. */
  function CountSlots(slots: seq<Slot>, n: nat, filepos: nat): (r: nat)
    requires n <= |slots|
    ensures r <= n
  {
    if n <= 1 then 0 else CountSlots(slots, n - 1, filepos) + if slots[n - 1].offset == filepos then 1 else 0
  }

  function Modulo32(n: int): (r: nat)
    ensures r < LIMIT
  {
    n % LIMIT
  }

  /** `(size - 1) / BLKSIZE + 1` on unsigned words: 2^20 for a size of zero. */
  function BlockTotal(size: nat): (n: nat)
    ensures n > 0
  {
    Modulo32(size - 1) / BLOCK + 1
  }

  /** A pointer rounded up to a word. */
  function WordUp(p: nat): (r: nat)
    ensures r < LIMIT
  {
    Modulo32(p + (4 - p % 4) % 4)
  }

  /** Bytes between the pointer table that ends at word `filepos` and the last pointer. */
  function CopyBytes(last: nat, filepos: nat): nat { Modulo32(WordUp(last) - 4 * filepos) }

  /** One file's data in the unread input: its pointer table, its end, the word the next file starts
      at, and how many files share it. */
  datatype Extent = Extent(table: nat, end: nat, next: nat, files: nat)

  function FindExtent(en: Endian, slots: seq<Slot>, s: seq<byte>, filepos: nat): (r: Option<Extent>)
    ensures r.Some? ==> 4 <= r.value.table <= r.value.end <= |s| && r.value.table % 4 == 0
  {
    var k := FindSlot(slots, 1, filepos);
    if k >= |slots| then None
    else
      var n := BlockTotal(slots[k].size);
      if |s| < 4 * n then None
      else
        var last := Get32(en, s[4 * n - 4..4 * n]);
        var end := 4 * n + CopyBytes(last, filepos + n);
        if |s| < end then None
        else Some(Extent(4 * n, end, WordUp(last) / 4, CountSlots(slots, |slots|, filepos)))
  }

  /** The data pass over the unread input `s`, which starts at word `filepos`; with no file left the
      rest is copied. */
  function DataPass(en: Endian, slots: seq<Slot>, s: seq<byte>, filepos: nat, remaining: nat): Option<seq<byte>>
    decreases |s|
  {
    if remaining == 0 then Some(s)
    else
      match FindExtent(en, slots, s, filepos)
      case None => None
      case Some(x) =>
        match DataPass(en, slots, s[x.end..], x.next, Modulo32(remaining - x.files))
        case None => None
        case Some(out) => Some(SwapWords(s[..x.table]) + s[x.table..x.end] + out)
  }

  function ClearCrc(out: seq<byte>): seq<byte>
    requires |out| >= SUPER_HEAD
  {
    out[..32] + Zeros(4) + out[36..]
  }

  function SetCrc(en: Endian, z: Zlib, out: seq<byte>): (r: seq<byte>)
    requires |out| >= SUPER_HEAD
    ensures |r| == |out|
  {
    out[..32] + Put32(en, z.crc(ClearCrc(out))) + out[36..]
  }

  function ByteOrder(src: seq<byte>): Option<Endian> {
    if |src| < SUPER_HEAD then None
    else if GetLe32(src[0..4]) == MAGIC then Some(Little)
    else if GetBe32(src[0..4]) == MAGIC then Some(Big)
    else None
  }

  /** Version 2, sorted or not, and nothing else. */
  predicate Supported(flags: nat) { flags == 1 || flags == 3 }

  /** The output before its checksum is set. */
  function SwappedRaw(src: seq<byte>): Option<seq<byte>> {
    match ByteOrder(src)
    case None => None
    case Some(en) =>
      if !Supported(Get32(en, src[8..12])) then None
      else
        match Listed(en, src[SUPER_HEAD..], Get32(en, src[44..48]))
        case None => None
        case Some(l) =>
          match DataPass(en, l.slots, l.rest, FirstDataWord(src, l), l.remaining)
          case None => None
          case Some(out) => Some(SwapSuper(src[..SUPER_HEAD]) + l.out + out)
  }

  /** `filepos` after the directory pass. */
  function FirstDataWord(src: seq<byte>, l: Listing): nat { 16 + |l.out| / 4 }

  function Swapped(z: Zlib, src: seq<byte>): Option<seq<byte>> {
    match SwappedRaw(src)
    case None => None
    case Some(out) => if |out| < SUPER_HEAD then None else Some(SetCrc(Other(ByteOrder(src).value), z, out))
  }

  // ------------------------------------------------------------ inodes

  lemma SwapInodeTwice(en: Endian, b: seq<byte>)
    requires |b| == INODE_SIZE
    ensures SwapInode(Other(en), SwapInode(en, b)) == b
  {
    var r := SwapInode(en, b);
    var t := SwapInode(Other(en), r);
    RotateBack(b[8], b[11], b[9]); RotateBack(b[9], b[8], b[10]);
    RotateBack(b[10], b[9], b[11]); RotateBack(b[11], b[10], b[8]);
    hide RotateLeft, RotateRight;
    assert t[8] == b[8] && t[9] == b[9] && t[10] == b[10] && t[11] == b[11];
  }

  /** Two neighbouring output bytes hold all bits of the input byte `x`. */
  lemma RotateBack(x: byte, y: byte, z: byte)
    ensures RotateRight(RotateLeft(x, y), RotateLeft(z, x)) == x
    ensures RotateLeft(RotateRight(x, y), RotateRight(z, x)) == x
  {
    FieldsSplit(y / 64, x % 64, 4);
    FieldsSplit(x / 64, z % 64, 4);
    FieldsSplit(x / 4, y % 4, 64);
    FieldsSplit(z / 4, x % 4, 64);
  }

  /** Both byte orders read the same inode. */
  lemma SwapInodeDecodes(en: Endian, b: seq<byte>)
    requires |b| == INODE_SIZE
    ensures DecodeInode(Other(en), SwapInode(en, b)) == DecodeInode(en, b)
  {
    if en.Little? {
      SwapInodeToBig(b);
    } else {
      SwapInodeTwice(Big, b);
      SwapInodeToBig(SwapInode(Big, b));
    }
  }

  lemma SwapInodeToBig(b: seq<byte>)
    requires |b| == INODE_SIZE
    ensures DecodeInode(Big, SwapInode(Little, b)) == DecodeInode(Little, b)
  {
    hide Word, RotateLeft;
    var r := SwapInode(Little, b);
    HalvesSwap(b[0], b[1], b[2], b[3]);
    TripleSwap(b[4], b[5], b[6], b[7]);
    OffsetSwap(b[8], b[9], b[10], b[11]);
  }

  lemma HalvesSwap(a: nat, b: nat, c: nat, d: nat)
    requires a < 256 && b < 256 && c < 256 && d < 256
    ensures Word(a, b, c, d) % 0x1_0000 == Word(c, d, a, b) / 0x1_0000
    ensures Word(a, b, c, d) / 0x1_0000 == Word(c, d, a, b) % 0x1_0000
  {
    FieldsSplit(a + 0x100 * b, c + 0x100 * d, 0x1_0000);
    FieldsSplit(c + 0x100 * d, a + 0x100 * b, 0x1_0000);
  }

  lemma TripleSwap(a: nat, b: nat, c: nat, d: nat)
    requires a < 256 && b < 256 && c < 256 && d < 256
    ensures Word(a, b, c, d) % 0x100_0000 == Word(d, a, b, c) / 0x100
    ensures Word(a, b, c, d) / 0x100_0000 == Word(d, a, b, c) % 0x100
  {
    FieldsSplit(a + 0x100 * b + 0x1_0000 * c, d, 0x100_0000);
    FieldsSplit(d, a + 0x100 * b + 0x1_0000 * c, 0x100);
  }

  lemma OffsetSwap(a: byte, b: byte, c: byte, d: byte)
    ensures var w := Word(RotateLeft(b, a), RotateLeft(c, b), RotateLeft(d, c), RotateLeft(a, d));
            Word(a, b, c, d) % 0x40 == w / 0x400_0000 && Word(a, b, c, d) / 0x40 == w % 0x400_0000
  {
    var offset := a / 64 + 4 * b + 0x400 * c + 0x4_0000 * d;
    assert Word(a, b, c, d) == a % 64 + 0x40 * offset;
    FieldsSplit(a % 64, offset, 0x40);
    assert offset < 0x400_0000;
    FieldsSplit(offset, a % 64, 0x400_0000);
    assert Word(RotateLeft(b, a), RotateLeft(c, b), RotateLeft(d, c), RotateLeft(a, d)) == offset + 0x400_0000 * (a % 64);
  }

  lemma EncodeDecode(en: Endian, b: seq<byte>)
    requires |b| == INODE_SIZE
    ensures EncodeInode(en, DecodeInode(en, b)) == b
  {
    hide Get32, Put32, Packed;
    PutGet32(en, b[0..4]); PutGet32(en, b[4..8]); PutGet32(en, b[8..12]);
    Repack(Get32(en, b[0..4])); Repack(Get32(en, b[4..8])); Repack(Get32(en, b[8..12]));
    assert b == b[0..4] + b[4..8] + b[8..12];
  }

  lemma PutGet32(en: Endian, w: seq<byte>)
    requires |w| == 4
    ensures Get32(en, w) < LIMIT && Put32(en, Get32(en, w)) == w
  {
    BytesRoundTrip(w);
  }

  lemma Repack(w: nat)
    requires w < LIMIT
    ensures Packed(Little, w % 0x1_0000, 0x1_0000, w / 0x1_0000, 0x1_0000) == w
    ensures Packed(Big, w / 0x1_0000, 0x1_0000, w % 0x1_0000, 0x1_0000) == w
    ensures Packed(Little, w % 0x100_0000, 0x100_0000, w / 0x100_0000, 0x100) == w
    ensures Packed(Big, w / 0x100, 0x100_0000, w % 0x100, 0x100) == w
    ensures Packed(Little, w % 0x40, 0x40, w / 0x40, 0x400_0000) == w
    ensures Packed(Big, w / 0x400_0000, 0x40, w % 0x400_0000, 0x400_0000) == w
  {
    RepackHalf(w, w % 0x1_0000, 0x1_0000, w / 0x1_0000, 0x1_0000);
    RepackHalf(w, w % 0x100_0000, 0x100_0000, w / 0x100_0000, 0x100);
    RepackHalf(w, w % 0x100, 0x100, w / 0x100, 0x100_0000);
    RepackHalf(w, w % 0x40, 0x40, w / 0x40, 0x400_0000);
    RepackHalf(w, w % 0x400_0000, 0x400_0000, w / 0x400_0000, 0x40);
  }

  lemma RepackHalf(w: nat, low: nat, a: nat, high: nat, b: nat)
    requires low < a && high < b && low + a * high == w
    ensures low % a == low && high % b == high && low % a + a * (high % b) == w
  {
    BelowModulus(low, a);
    BelowModulus(high, b);
  }

  /** Swapping the bytes of a written inode gives the same inode in the other byte order. */
  lemma SwapInodeEncodes(en: Endian, i: Inode)
    ensures SwapInode(en, EncodeInode(en, i)) == EncodeInode(Other(en), i)
  {
    hide EncodeInode, DecodeInode, SwapInode;
    SwapInodeDecodes(en, EncodeInode(en, i));
    EncodeTruncated(en, i);
    EncodeTruncated(Other(en), i);
    InodeRoundTrip(en, Truncated(i));
    InodeRoundTrip(Other(en), Truncated(i));
    EncodeDecode(Other(en), SwapInode(en, EncodeInode(en, i)));
    EncodeDecode(Other(en), EncodeInode(Other(en), i));
  }

  // ------------------------------------------------------------ swapping twice

  lemma BswapGet(en: Endian, w: seq<byte>)
    requires |w| == 4
    ensures Get32(Other(en), Bswap(w)) == Get32(en, w) && Bswap(Bswap(w)) == w
  {
  }

  lemma {:induction false} SwapWordsTwice(s: seq<byte>)
    requires |s| % 4 == 0
    ensures SwapWords(SwapWords(s)) == s
  {
    if s != [] {
      SwapWordsTwice(s[4..]);
      var r := SwapWords(s);
      assert r[..4] == Bswap(s[..4]) && r[4..] == SwapWords(s[4..]);
      assert s == s[..4] + s[4..];
    }
  }

  lemma {:induction false} SwapWordsConcat(a: seq<byte>, b: seq<byte>)
    requires |a| % 4 == 0 && |b| % 4 == 0
    ensures |a + b| % 4 == 0 && SwapWords(a + b) == SwapWords(a) + SwapWords(b)
  {
    hide Bswap;
    if a == [] {
      assert a + b == b;
    } else {
      SwapWordsConcat(a[4..], b);
      assert (a + b)[..4] == a[..4] && (a + b)[4..] == a[4..] + b;
      Assoc(Bswap(a[..4]), SwapWords(a[4..]), SwapWords(b));
    }
  }

  /** The word that ends the table, read back from the swapped table. */
  lemma SwapWordsLast(en: Endian, s: seq<byte>)
    requires |s| % 4 == 0 && |s| > 0
    ensures Get32(Other(en), SwapWords(s)[|s| - 4..]) == Get32(en, s[|s| - 4..])
  {
    hide Get32, Bswap, SwapWords;
    var a, b := s[..|s| - 4], s[|s| - 4..];
    assert s == a + b;
    SwapWordsConcat(a, b);
    SwapOne(b);
    assert SwapWords(s)[|s| - 4..] == Bswap(b);
    BswapGet(en, b);
  }

  lemma SwapOne(w: seq<byte>)
    requires |w| == 4
    ensures SwapWords(w) == Bswap(w)
  {
    assert w[..4] == w && w[4..] == [];
  }

  lemma SwapRecordTwice(en: Endian, rec: seq<byte>)
    requires |rec| >= INODE_SIZE
    ensures SwapRecord(Other(en), SwapRecord(en, rec)) == rec
    ensures DecodeInode(Other(en), SwapRecord(en, rec)[..INODE_SIZE]) == DecodeInode(en, rec[..INODE_SIZE])
  {
    hide SwapInode, DecodeInode;
    SwapInodeTwice(en, rec[..INODE_SIZE]);
    SwapInodeDecodes(en, rec[..INODE_SIZE]);
    var r := SwapRecord(en, rec);
    assert r[..INODE_SIZE] == SwapInode(en, rec[..INODE_SIZE]) && r[INODE_SIZE..] == rec[INODE_SIZE..];
  }

  /** A whole record in front of the unread input. */
  lemma ListedCons(en: Endian, rec: seq<byte>, rest: seq<byte>, n: nat)
    requires |rec| >= INODE_SIZE && |rec| == RecordLength(en, rec)
    ensures Listed(en, rec + rest, n + 1) == Prepend(en, rec, Listed(en, rest, n))
  {
    hide DecodeInode, SwapRecord;
    var s := rec + rest;
    assert s[..INODE_SIZE] == rec[..INODE_SIZE];
    assert s[..|rec|] == rec && s[|rec|..] == rest;
  }

  /** The listing `l` of `s` takes up its front, and the pass over its output restores that. */
  ghost predicate Restores(en: Endian, s: seq<byte>, l: Listing, n: nat, tail: seq<byte>) {
    && |s| == |l.out| + |l.rest| && s[|l.out|..] == l.rest && |l.slots| == n
    && Listed(Other(en), l.out + tail, n) == Some(Listing(s[..|l.out|], l.slots, l.remaining, tail))
  }

  lemma RestoresCons(en: Endian, rec: seq<byte>, rest: seq<byte>, l: Listing, n: nat, tail: seq<byte>)
    requires |rec| >= INODE_SIZE && |rec| == RecordLength(en, rec) && Restores(en, rest, l, n, tail)
    ensures Restores(en, rec + rest, Prepend(en, rec, Some(l)).value, n + 1, tail)
  {
    hide DecodeInode, SwapRecord, Listed;
    SwapRecordTwice(en, rec);
    Assoc(SwapRecord(en, rec), l.out, tail);
    ListedCons(Other(en), SwapRecord(en, rec), l.out + tail, n);
    CutFront(rec + rest, |rec|, |l.out|);
    assert (rec + rest)[..|rec|] == rec && (rec + rest)[|rec|..] == rest;
  }

  /** The directory pass over the output of a directory pass reads the same tables and writes the
      original records, whatever follows them. */
  lemma {:induction false} ListedTwice(en: Endian, s: seq<byte>, n: nat, tail: seq<byte>)
    requires Listed(en, s, n).Some?
    ensures Restores(en, s, Listed(en, s, n).value, n, tail)
  {
    hide DecodeInode, SwapRecord;
    if n == 0 {
      assert [] + tail == tail;
    } else {
      hide Restores;
      var end := RecordLength(en, s);
      var rec, rest := s[..end], s[end..];
      assert rec[..INODE_SIZE] == s[..INODE_SIZE] && rec + rest == s;
      ListedTwice(en, rest, n - 1, tail);
      RestoresCons(en, rec, rest, Listed(en, rest, n - 1).value, n - 1, tail);
    }
  }

  lemma CutFront(s: seq<byte>, m: nat, n: nat)
    requires m + n <= |s|
    ensures s[..m + n] == s[..m] + s[m..][..n] && s[m + n..] == s[m..][n..]
  {
  }

  lemma {:induction false} DataPassTwice(en: Endian, slots: seq<Slot>, s: seq<byte>, filepos: nat, remaining: nat)
    requires DataPass(en, slots, s, filepos, remaining).Some?
    ensures var out := DataPass(en, slots, s, filepos, remaining).value;
            |out| == |s| && DataPass(Other(en), slots, out, filepos, remaining) == Some(s)
    decreases |s|
  {
    hide Bswap, SwapWords, FindExtent;
    if remaining != 0 {
      var out := DataPass(en, slots, s, filepos, remaining).value;
      var x := FindExtent(en, slots, s, filepos).value;
      DataPassTwice(en, slots, s[x.end..], x.next, Modulo32(remaining - x.files));
      SwapWordsTwice(s[..x.table]);
      assert out[..x.table] == SwapWords(s[..x.table]) && out[x.table..x.end] == s[x.table..x.end];
      FindExtentTwice(en, slots, s, out, filepos);
      assert s == s[..x.table] + s[x.table..x.end] + s[x.end..];
    }
  }

  /** The extent depends on the unread input only through the last word of the pointer table. */
  lemma FindExtentTwice(en: Endian, slots: seq<Slot>, s: seq<byte>, out: seq<byte>, filepos: nat)
    requires FindExtent(en, slots, s, filepos).Some? && |out| == |s|
    requires var x := FindExtent(en, slots, s, filepos).value; out[..x.table] == SwapWords(s[..x.table])
    ensures FindExtent(Other(en), slots, out, filepos) == FindExtent(en, slots, s, filepos)
  {
    hide Get32, WordUp, CopyBytes, BlockTotal, FindSlot, CountSlots, SwapWords;
    var table := FindExtent(en, slots, s, filepos).value.table;
    SwapWordsLast(en, s[..table]);
    assert s[..table][table - 4..] == s[table - 4..table];
    assert out[table - 4..table] == out[..table][table - 4..];
  }

  lemma HeadTwice(h: seq<byte>)
    requires |h| == 32
    ensures SwapHead(SwapHead(h)) == h
    ensures SwapHead(h)[0..4] == Bswap(h[0..4]) && SwapHead(h)[8..12] == Bswap(h[8..12])
  {
    hide Bswap;
    var r := SwapHead(h);
    assert r[0..4] == Bswap(h[0..4]) && r[4..8] == Bswap(h[4..8]) && r[8..12] == Bswap(h[8..12])
           && r[12..16] == Bswap(h[12..16]) && r[16..32] == h[16..32];
    BswapGet(Little, h[0..4]); BswapGet(Little, h[4..8]); BswapGet(Little, h[8..12]); BswapGet(Little, h[12..16]);
    assert h == h[0..4] + h[4..8] + h[8..12] + h[12..16] + h[16..32];
  }

  lemma TailTwice(t: seq<byte>)
    requires |t| == 28
    ensures SwapTail(SwapTail(t)) == t && SwapTail(t)[8..12] == Bswap(t[8..12])
  {
    hide Bswap;
    var r := SwapTail(t);
    assert r[0..4] == Bswap(t[0..4]) && r[4..8] == Bswap(t[4..8]) && r[8..12] == Bswap(t[8..12])
           && r[12..28] == t[12..28];
    BswapGet(Little, t[0..4]); BswapGet(Little, t[4..8]); BswapGet(Little, t[8..12]);
    assert t == t[0..4] + t[4..8] + t[8..12] + t[12..28];
  }

  lemma MagicOrder(en: Endian, a: seq<byte>, b: seq<byte>)
    requires |a| >= SUPER_HEAD && |b| >= SUPER_HEAD && ByteOrder(a) == Some(en)
    requires b[0..4] == Bswap(a[0..4])
    ensures ByteOrder(b) == Some(Other(en))
  {
    BytesRoundTrip(a[0..4]);
    assert a[0..4] == Put32(en, MAGIC);
  }

  /** Only the checksum word tells `a` and `b` apart. */
  lemma SetCrcForgets(en: Endian, z: Zlib, a: seq<byte>, b: seq<byte>)
    requires |a| == |b| >= SUPER_HEAD && a[..32] == b[..32] && a[36..] == b[36..]
    ensures SetCrc(en, z, a) == SetCrc(en, z, b)
  {
  }

  lemma SetCrcFixed(en: Endian, z: Zlib, a: seq<byte>)
    requires |a| >= SUPER_HEAD
    ensures SetCrc(en, z, a) == a <==> a[32..36] == Put32(en, z.crc(ClearCrc(a)))
  {
    var r := SetCrc(en, z, a);
    assert r[32..36] == Put32(en, z.crc(ClearCrc(a)));
    assert a == a[..32] + a[32..36] + a[36..];
  }

  /** Swapping the raw output again, with any checksum word in it, gives the input with its first
      superblock swapped from that output. */
  lemma RawTwice(src: seq<byte>, raw: seq<byte>, out: seq<byte>)
    requires SwappedRaw(src) == Some(raw)
    requires |out| == |raw| >= SUPER_HEAD && out[..32] == raw[..32] && out[36..] == raw[36..]
    ensures ByteOrder(out) == Some(Other(ByteOrder(src).value))
    ensures SwappedRaw(out) == Some(SwapSuper(out[..SUPER_HEAD]) + src[SUPER_HEAD..])
  {
    hide Listed, DataPass, Bswap, SwapSuper, Get32, ByteOrder;
    ByteOrderSize(src);
    var en := ByteOrder(src).value;
    var l := Listed(en, src[SUPER_HEAD..], Get32(en, src[44..48])).value;
    var d := DataPass(en, l.slots, l.rest, FirstDataWord(src, l), l.remaining).value;
    var head := SwapSuper(src[..SUPER_HEAD]);
    SwapFields(en, src, head, out, l.out + d);
    ListedTwice(en, src[SUPER_HEAD..], Get32(en, src[44..48]), d);
    DataPassTwice(en, l.slots, l.rest, FirstDataWord(src, l), l.remaining);
    assert out[SUPER_HEAD..] == out[36..][SUPER_HEAD - 36..] == raw[36..][SUPER_HEAD - 36..] == l.out + d;
    assert src[SUPER_HEAD..][..|l.out|] + l.rest == src[SUPER_HEAD..];
    assert |src[SUPER_HEAD..][..|l.out|]| == |l.out|;
    Assoc(SwapSuper(out[..SUPER_HEAD]), src[SUPER_HEAD..][..|l.out|], l.rest);
  }

  lemma ByteOrderSize(src: seq<byte>)
    ensures ByteOrder(src).Some? ==> |src| >= SUPER_HEAD
  {
  }

  lemma SuperFields(b: seq<byte>)
    requires |b| == SUPER_HEAD
    ensures SwapSuper(b)[0..4] == Bswap(b[0..4]) && SwapSuper(b)[8..12] == Bswap(b[8..12])
    ensures SwapSuper(b)[44..48] == Bswap(b[44..48])
  {
    hide Bswap, SwapHead, SwapTail;
    var r := SwapSuper(b);
    HeadTwice(b[..32]);
    TailTwice(b[36..]);
    assert r[..32] == SwapHead(b[..32]) && r[36..] == SwapTail(b[36..]);
    assert r[0..4] == r[..32][0..4] && r[8..12] == r[..32][8..12] && r[44..48] == r[36..][8..12];
    assert b[0..4] == b[..32][0..4] && b[8..12] == b[..32][8..12] && b[44..48] == b[36..][8..12];
  }

  /** The words that steer the second run. */
  lemma SwapFields(en: Endian, src: seq<byte>, head: seq<byte>, out: seq<byte>, rest: seq<byte>)
    requires ByteOrder(src) == Some(en) && |src| >= SUPER_HEAD && head == SwapSuper(src[..SUPER_HEAD])
    requires |out| == |head + rest| && out[..32] == (head + rest)[..32] && out[36..] == (head + rest)[36..]
    ensures ByteOrder(out) == Some(Other(en))
    ensures Get32(Other(en), out[8..12]) == Get32(en, src[8..12])
    ensures Get32(Other(en), out[44..48]) == Get32(en, src[44..48])
  {
    hide Get32, SwapSuper, ByteOrder;
    var b := src[..SUPER_HEAD];
    SuperFields(b);
    assert out[0..4] == out[..32][0..4] == head[0..4] == Bswap(b[0..4]) && b[0..4] == src[0..4];
    assert out[8..12] == out[..32][8..12] == head[8..12] == Bswap(b[8..12]) && b[8..12] == src[8..12];
    assert out[44..48] == out[36..][8..12] == head[44..48] == Bswap(b[44..48]) && b[44..48] == src[44..48];
    MagicOrder(en, src, out);
    BswapGet(en, src[8..12]);
    BswapGet(en, src[44..48]);
  }

  /** Swapping twice gives the input back with its checksum set, so it gives the input back exactly
      when that checksum was right. */
  lemma SwapTwice(z: Zlib, src: seq<byte>)
    requires Swapped(z, src).Some?
    ensures |src| >= SUPER_HEAD && ByteOrder(src).Some?
    ensures var en, out := ByteOrder(src).value, Swapped(z, src).value;
            && Swapped(z, out) == Some(SetCrc(en, z, src))
            && (Swapped(z, out) == Some(src) <==> src[32..36] == Put32(en, z.crc(ClearCrc(src))))
  {
    hide SwappedRaw, ByteOrder, SwapSuper, ClearCrc;
    ByteOrderSize(src);
    RawSome(src);
    var en, raw := ByteOrder(src).value, SwappedRaw(src).value;
    var out := Swapped(z, src).value;
    RawTwice(src, raw, out);
    var back := SwapSuper(out[..SUPER_HEAD]) + src[SUPER_HEAD..];
    SuperBack(raw, out, src);
    assert back[..32] == src[..32] && back[36..] == src[36..];
    SetCrcForgets(en, z, back, src);
    SetCrcFixed(en, z, src);
  }

  lemma RawSome(src: seq<byte>)
    ensures SwappedRaw(src).Some? ==>
              && ByteOrder(src).Some? && |src| >= SUPER_HEAD
              && |SwappedRaw(src).value| >= SUPER_HEAD
              && SwappedRaw(src).value[..SUPER_HEAD] == SwapSuper(src[..SUPER_HEAD])
  {
    hide SwapSuper, Listed, DataPass;
  }

  /** The second swap of the superblock restores all but the checksum word. */
  lemma SuperBack(raw: seq<byte>, out: seq<byte>, src: seq<byte>)
    requires |src| >= SUPER_HEAD && |raw| == |out| >= SUPER_HEAD
    requires raw[..SUPER_HEAD] == SwapSuper(src[..SUPER_HEAD]) && out[..32] == raw[..32] && out[36..] == raw[36..]
    ensures SwapSuper(out[..SUPER_HEAD])[..32] == src[..32]
    ensures SwapSuper(out[..SUPER_HEAD])[36..] == src[36..SUPER_HEAD]
  {
    hide Bswap, SwapHead, SwapTail;
    var b, h, c := src[..SUPER_HEAD], raw[..SUPER_HEAD], out[..SUPER_HEAD];
    assert h[..32] == SwapHead(b[..32]) && h[36..] == SwapTail(b[36..]);
    assert c[..32] == out[..32] && h[..32] == raw[..32];
    assert c[36..] == out[36..][..28] && h[36..] == raw[36..][..28];
    HeadTwice(b[..32]);
    TailTwice(b[36..]);
    assert b[..32] == src[..32] && b[36..] == src[36..SUPER_HEAD];
  }
}
