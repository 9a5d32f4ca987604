/** mkmylofw: the MyLoader image with its block descriptors, and the checksum that is threaded through
    every write. */
module MyLoader {
  import opened Bytes
  import opened BitSeqs
  import opened Crc32

  const MAGIC_FIRMWARE := 0x4C594D00
  const MAGIC_PARTITIONS := 0x20021103
  const HEADER_SIZE := 40
  const DESC_SIZE := 16
  const PART_HEADER_SIZE := 8
  const MAX_PARTITIONS := 8
  const PART_NAME_LEN := 32
  const TABLE_SIZE := 400
  const FILE_BUF_LEN := 16384
  const PAD_BUF_LEN := 512
  const WORD_LIMIT := 0x1_0000_0000

  function Le16(n: nat): (r: seq<byte>)
    ensures |r| == 2
  {
    [n % 256, n / 256 % 256]
  }

  /** The fields of the firmware header other than magic and checksum. */
  datatype Header = Header(vid: nat, did: nat, svid: nat, sdid: nat, rev: nat, fwhi: nat, fwlo: nat, flags: nat)

  /** `-b`: a region of the flash, with or without a file; only a block with a file can have a header. */
  datatype Block = Block(addr: nat, blocklen: nat, haveHdr: bool, file: Option<seq<byte>>)
  {
    function Size(): nat { if file.Some? then |file.value| else 0 }

    predicate Valid() {
      && addr < WORD_LIMIT && blocklen < WORD_LIMIT && (haveHdr ==> file.Some?)
      && Size() + PART_HEADER_SIZE + 4 < WORD_LIMIT
    }
  }

  /** `-p`: one entry of the partition table; the name fills its field. */
  datatype Part = Part(flags: nat, addr: nat, size: nat, param: nat, name: seq<byte>)

  datatype Firmware = Firmware(header: Header, partOffset: nat, partSize: nat, parts: seq<Part>, blocks: seq<Block>)
  {
    predicate Valid() {
      && partOffset < WORD_LIMIT && partSize < WORD_LIMIT && |parts| <= MAX_PARTITIONS
      && (forall i :: 0 <= i < |parts| ==> |parts[i].name| == PART_NAME_LEN)
      && (forall i :: 0 <= i < |blocks| ==> blocks[i].Valid())
    }
  }

  // ------------------------------------------------------------ the image

  function HeaderBytes(h: Header, crc: nat): (r: seq<byte>)
    ensures |r| == HEADER_SIZE
  {
    Le32(MAGIC_FIRMWARE) + Le32(crc) + Le32(0) + Le32(0) + Le16(h.vid) + Le16(h.did) + Le16(h.svid) + Le16(h.sdid)
    + Le32(h.rev) + Le32(h.fwhi) + Le32(h.fwlo) + Le32(h.flags)
  }

  datatype Desc = Desc(kind: nat, addr: nat, dlen: nat, blen: nat)

  function DescBytes(d: Desc): (r: seq<byte>)
    ensures |r| == DESC_SIZE
  {
    Le32(d.kind) + Le32(d.addr) + Le32(d.dlen) + Le32(d.blen)
  }

  function BlockDesc(b: Block): Desc {
    Desc(1, b.addr, RoundUp4(b.Size() + if b.haveHdr then PART_HEADER_SIZE else 0), b.blocklen)
  }

  function PartDesc(f: Firmware): Desc { Desc(1, f.partOffset, TABLE_SIZE, f.partSize) }

  /** All descriptors but the null one. */
  function Descs(f: Firmware): seq<Desc> {
    (if f.parts == [] then [] else [PartDesc(f)]) + BlockDescs(f.blocks)
  }

  function BlockDescs(bs: seq<Block>): seq<Desc> {
    if bs == [] then [] else [BlockDesc(bs[0])] + BlockDescs(bs[1..])
  }

  function AllDescBytes(ds: seq<Desc>): seq<byte> {
    if ds == [] then [] else DescBytes(ds[0]) + AllDescBytes(ds[1..])
  }

  function Ones(n: nat): (r: seq<byte>)
    ensures |r| == n
  {
    seq(n, i => 0xFF)
  }

  /** What is written for one block: the optional header, the file, and 0xFF up to a word. */
  function BlockBytes(b: Block): seq<byte> {
    match b.file
    case None => []
    case Some(data) =>
      (if b.haveHdr then Le32(|data|) + Le32(ValueOf(Crc(data))) else [])
      + data + Ones(RoundUp4(|data|) - |data|)
  }

  function AllBlockBytes(bs: seq<Block>): seq<byte> {
    if bs == [] then [] else BlockBytes(bs[0]) + AllBlockBytes(bs[1..])
  }

  function PartBytes(p: Part): seq<byte> {
    Le16(p.flags) + Le16(1) + Le32(p.addr) + Le32(p.size) + Le32(p.param)
  }

  /** The first `n` entries of the table; the others stay zero. */
  function PartEntries(ps: seq<Part>): seq<byte> {
    if ps == [] then [] else PartBytes(ps[0]) + PartEntries(ps[1..])
  }

  function PartNames(ps: seq<Part>): seq<byte> {
    if ps == [] then [] else ps[0].name + PartNames(ps[1..])
  }

  lemma {:induction false} PartLengths(ps: seq<Part>)
    requires forall i :: 0 <= i < |ps| ==> |ps[i].name| == PART_NAME_LEN
    ensures |PartEntries(ps)| == 16 * |ps| && |PartNames(ps)| == PART_NAME_LEN * |ps|
  {
    if ps != [] { PartLengths(ps[1..]); }
  }

  function FillTo(s: seq<byte>, n: nat): (r: seq<byte>)
  {
    if |s| <= n then s + Zeros(n - |s|) else s
  }

  function Partitions(ps: seq<Part>): seq<byte> {
    if ps == [] then []
    else
      Le32(MAGIC_PARTITIONS) + Le32(0) + Le32(0) + Le32(0) + FillTo(PartEntries(ps), 16 * MAX_PARTITIONS)
      + FillTo(PartNames(ps), PART_NAME_LEN * MAX_PARTITIONS)
  }

  const NULL_DESC := Desc(0, 0, 0, 0)

  function Body(f: Firmware): seq<byte> {
    AllDescBytes(Descs(f)) + DescBytes(NULL_DESC) + Partitions(f.parts) + AllBlockBytes(f.blocks)
  }

  function Image(f: Firmware): seq<byte> {
    HeaderBytes(f.header, ValueOf(Crc(HeaderBytes(f.header, 0) + Body(f)))) + Body(f)
  }

  // ------------------------------------------------------------ descriptors and data agree

  /** The bytes written for a block are as many as its descriptor says. */
  lemma BlockLength(b: Block)
    requires b.Valid()
    ensures |BlockBytes(b)| == BlockDesc(b).dlen
  {
    RoundUpPlus(b.Size());
  }

  lemma RoundUpPlus(n: nat)
    ensures RoundUp4(n + 8) == RoundUp4(n) + 8 && RoundUp4(0) == 0
  {
  }

  lemma PartitionsLength(ps: seq<Part>)
    requires ps != [] && |ps| <= MAX_PARTITIONS && forall i :: 0 <= i < |ps| ==> |ps[i].name| == PART_NAME_LEN
    ensures |Partitions(ps)| == TABLE_SIZE
  {
    PartLengths(ps);
  }

  /** A section of the image as a loader sees it: a descriptor and its data. */
  datatype Section = Section(desc: Desc, data: seq<byte>)

  function ReadDesc(b: seq<byte>): Desc
    requires |b| == DESC_SIZE
  {
    Desc(GetLe32(b[0..4]), GetLe32(b[4..8]), GetLe32(b[8..12]), GetLe32(b[12..16]))
  }

  /** The loader: collects descriptors up to the null one; `None` when there is no null descriptor. */
  function ReadDescs(b: seq<byte>): Option<(seq<Desc>, seq<byte>)>
    decreases |b|
  {
    if |b| < DESC_SIZE then None
    else
      var d := ReadDesc(b[..DESC_SIZE]);
      if d.kind == 0 then Some(([], b[DESC_SIZE..]))
      else
        match ReadDescs(b[DESC_SIZE..])
        case None => None
        case Some(r) => Some(([d] + r.0, r.1))
  }

  /** Takes each section's data in turn; `None` unless the data ends exactly with the last section. */
  function ReadData(ds: seq<Desc>, b: seq<byte>): Option<seq<Section>> {
    if ds == [] then (if b == [] then Some([]) else None)
    else if |b| < ds[0].dlen then None
    else
      match ReadData(ds[1..], b[ds[0].dlen..])
      case None => None
      case Some(r) => Some([Section(ds[0], b[..ds[0].dlen])] + r)
  }

  function ReadImage(img: seq<byte>): Option<seq<Section>> {
    if |img| < HEADER_SIZE then None
    else
      match ReadDescs(img[HEADER_SIZE..])
      case None => None
      case Some(r) => ReadData(r.0, r.1)
  }

  function BlockSections(bs: seq<Block>): seq<Section> {
    if bs == [] then [] else [Section(BlockDesc(bs[0]), BlockBytes(bs[0]))] + BlockSections(bs[1..])
  }

  function Sections(f: Firmware): seq<Section> {
    (if f.parts == [] then [] else [Section(PartDesc(f), Partitions(f.parts))]) + BlockSections(f.blocks)
  }

  predicate DescInRange(d: Desc) {
    d.kind == 1 && d.addr < WORD_LIMIT && d.dlen < WORD_LIMIT && d.blen < WORD_LIMIT
  }

  lemma DescRoundTrip(d: Desc)
    requires d.kind < WORD_LIMIT && d.addr < WORD_LIMIT && d.dlen < WORD_LIMIT && d.blen < WORD_LIMIT
    ensures ReadDesc(DescBytes(d)) == d
  {
    hide Le32, GetLe32;
    var b := DescBytes(d);
    FourWords(Le32(d.kind), Le32(d.addr), Le32(d.dlen), Le32(d.blen));
    SmallWord(d.kind); SmallWord(d.addr); SmallWord(d.dlen); SmallWord(d.blen);
  }

  lemma FourWords(p: seq<byte>, q: seq<byte>, r: seq<byte>, s: seq<byte>)
    requires |p| == |q| == |r| == |s| == 4
    ensures var b := p + q + r + s; b[0..4] == p && b[4..8] == q && b[8..12] == r && b[12..16] == s
  {
  }

  lemma {:induction false} ReadDescsBack(ds: seq<Desc>, rest: seq<byte>)
    requires forall i :: 0 <= i < |ds| ==> DescInRange(ds[i])
    ensures ReadDescs(AllDescBytes(ds) + (DescBytes(NULL_DESC) + rest)) == Some((ds, rest))
  {
    hide DescBytes, ReadDesc;
    var tail := DescBytes(NULL_DESC) + rest;
    if ds == [] {
      assert AllDescBytes(ds) + tail == tail;
      assert tail[..DESC_SIZE] == DescBytes(NULL_DESC) && tail[DESC_SIZE..] == rest;
      DescRoundTrip(NULL_DESC);
    } else {
      ReadDescsBack(ds[1..], rest);
      DescRoundTrip(ds[0]);
      var b := AllDescBytes(ds) + tail;
      assert b[..DESC_SIZE] == DescBytes(ds[0]) && b[DESC_SIZE..] == AllDescBytes(ds[1..]) + tail;
      assert [ds[0]] + ds[1..] == ds;
    }
  }

  function DescsOf(ss: seq<Section>): seq<Desc> {
    if ss == [] then [] else [ss[0].desc] + DescsOf(ss[1..])
  }

  function DataOf(ss: seq<Section>): seq<byte> {
    if ss == [] then [] else ss[0].data + DataOf(ss[1..])
  }

  lemma {:induction false} ReadDataBack(ss: seq<Section>)
    requires forall i :: 0 <= i < |ss| ==> |ss[i].data| == ss[i].desc.dlen
    ensures ReadData(DescsOf(ss), DataOf(ss)) == Some(ss)
  {
    hide ReadData;
    if ss == [] {
      NoMoreData();
    } else {
      ReadDataBack(ss[1..]);
      ReadDataStep(ss[0].desc, DescsOf(ss[1..]), ss[0].data, DataOf(ss[1..]));
      assert [Section(ss[0].desc, ss[0].data)] + ss[1..] == ss;
    }
  }

  lemma NoMoreData()
    ensures ReadData([], []) == Some([])
  {
  }

  lemma ReadDataStep(d: Desc, ds: seq<Desc>, data: seq<byte>, rest: seq<byte>)
    requires |data| == d.dlen
    ensures ReadData([d] + ds, data + rest)
            == match ReadData(ds, rest) case None => None case Some(r) => Some([Section(d, data)] + r)
  {
    assert ([d] + ds)[1..] == ds && (data + rest)[..d.dlen] == data && (data + rest)[d.dlen..] == rest;
  }

  lemma {:induction false} BlockSectionsAre(bs: seq<Block>)
    requires forall i :: 0 <= i < |bs| ==> bs[i].Valid()
    ensures DescsOf(BlockSections(bs)) == BlockDescs(bs) && DataOf(BlockSections(bs)) == AllBlockBytes(bs)
    ensures forall i :: 0 <= i < |BlockSections(bs)| ==>
              |BlockSections(bs)[i].data| == BlockSections(bs)[i].desc.dlen && DescInRange(BlockSections(bs)[i].desc)
  {
    hide BlockBytes, BlockDesc;
    if bs != [] {
      BlockSectionsAre(bs[1..]);
      BlockLength(bs[0]);
      BlockDescRange(bs[0]);
      assert BlockSections(bs)[1..] == BlockSections(bs[1..]);
    }
  }

  lemma BlockDescRange(b: Block)
    requires b.Valid()
    ensures DescInRange(BlockDesc(b))
  {
  }

  lemma SectionsAre(f: Firmware)
    requires f.Valid()
    ensures DescsOf(Sections(f)) == Descs(f) && DataOf(Sections(f)) == Partitions(f.parts) + AllBlockBytes(f.blocks)
    ensures forall i :: 0 <= i < |Sections(f)| ==>
              |Sections(f)[i].data| == Sections(f)[i].desc.dlen && DescInRange(Sections(f)[i].desc)
  {
    hide Partitions, BlockSections, BlockDescs, AllBlockBytes;
    BlockSectionsAre(f.blocks);
    if f.parts == [] {
      NoPartitions();
      assert [] + AllBlockBytes(f.blocks) == AllBlockBytes(f.blocks);
      assert Sections(f) == BlockSections(f.blocks) && Descs(f) == BlockDescs(f.blocks);
    } else {
      PartitionsLength(f.parts);
      assert Sections(f)[1..] == BlockSections(f.blocks);
    }
  }

  lemma NoPartitions()
    ensures Partitions([]) == []
  {
  }

  /** Walking the descriptors to the null one and taking each block's data in turn lands exactly at the end of
      the file and finds every block's bytes. */
  lemma ImageReadsBack(f: Firmware)
    requires f.Valid()
    ensures ReadImage(Image(f)) == Some(Sections(f))
  {
    hide HeaderBytes, AllDescBytes, DescBytes, Partitions, AllBlockBytes, Descs, Sections, ReadDescs, ReadData;
    SectionsAre(f);
    var rest := Partitions(f.parts) + AllBlockBytes(f.blocks);
    var all, last := AllDescBytes(Descs(f)), DescBytes(NULL_DESC);
    assert all + last + Partitions(f.parts) + AllBlockBytes(f.blocks) == all + (last + rest);
    assert Image(f)[HEADER_SIZE..] == Body(f);
    DescsInRange(Sections(f));
    ReadDescsBack(Descs(f), rest);
    ReadDataBack(Sections(f));
  }

  lemma {:induction false} DescsInRange(ss: seq<Section>)
    requires forall i :: 0 <= i < |ss| ==> DescInRange(ss[i].desc)
    ensures forall i :: 0 <= i < |DescsOf(ss)| ==> DescInRange(DescsOf(ss)[i])
  {
    if ss != [] { DescsInRange(ss[1..]); }
  }

  /** The stored checksum is the CRC of the whole file with the checksum field zero. */
  lemma ImageChecksum(f: Firmware)
    ensures |Image(f)| >= HEADER_SIZE
    ensures Image(f)[4..8] == Le32(ValueOf(Crc(Image(f)[..4] + Le32(0) + Image(f)[8..])))
  {
    hide Le32, Le16, Body, Crc, ValueOf;
    var crc := ValueOf(Crc(HeaderBytes(f.header, 0) + Body(f)));
    HeaderParts(f.header, crc);
    HeaderParts(f.header, 0);
    var img := Image(f);
    assert img[..4] == HeaderBytes(f.header, crc)[..4] && img[4..8] == HeaderBytes(f.header, crc)[4..8];
    assert img[8..] == HeaderBytes(f.header, crc)[8..] + Body(f);
    assert img[..4] + Le32(0) + img[8..] == HeaderBytes(f.header, 0)[..4] + Le32(0) + HeaderBytes(f.header, 0)[8..] + Body(f);
  }

  lemma HeaderParts(h: Header, crc: nat)
    ensures var b := HeaderBytes(h, crc);
            && b[4..8] == Le32(crc) && b[..4] == HeaderBytes(h, 0)[..4] && b[8..] == HeaderBytes(h, 0)[8..]
            && b == b[..4] + Le32(crc) + b[8..]
  {
    hide Le32, Le16;
    var head, tail := Le32(MAGIC_FIRMWARE), Le32(0) + Le32(0) + Le16(h.vid) + Le16(h.did) + Le16(h.svid) + Le16(h.sdid)
                      + Le32(h.rev) + Le32(h.fwhi) + Le32(h.fwlo) + Le32(h.flags);
    assert HeaderBytes(h, crc) == head + Le32(crc) + tail;
    assert HeaderBytes(h, 0) == head + Le32(0) + tail;
  }

  // ------------------------------------------------------------ the image, word by word

  /** The four words of a descriptor or partition entry, or of a table header. */
  predicate WordsAt(s: seq<byte>, at: nat, a: nat, b: nat, c: nat, d: nat) {
    && at + 16 <= |s| && GetLe32(s[at..at + 4]) == a && GetLe32(s[at + 4..at + 8]) == b
    && GetLe32(s[at + 8..at + 12]) == c && GetLe32(s[at + 12..at + 16]) == d
  }

  lemma WordsHeld(s: seq<byte>, at: nat, a: nat, b: nat, c: nat, d: nat)
    requires HoldsAt(s, at, Le32(a) + Le32(b) + Le32(c) + Le32(d))
    requires a < WORD_LIMIT && b < WORD_LIMIT && c < WORD_LIMIT && d < WORD_LIMIT
    ensures WordsAt(s, at, a, b, c, d)
  {
    hide Le32, GetLe32;
    FourWords(Le32(a), Le32(b), Le32(c), Le32(d));
    var t := Le32(a) + Le32(b) + Le32(c) + Le32(d);
    HoldsAtSlice(s, at, t, 0, 4);
    HoldsAtSlice(s, at, t, 4, 8);
    HoldsAtSlice(s, at, t, 8, 12);
    HoldsAtSlice(s, at, t, 12, 16);
    SmallWord(a); SmallWord(b); SmallWord(c); SmallWord(d);
  }

  /** The checksum word is that of the file with the checksum word zero. */
  lemma ChecksumWord(f: Firmware)
    ensures var img := Image(f);
            |img| >= 40 && GetLe32(img[4..8]) == ValueOf(Crc(img[..4] + [0, 0, 0, 0] + img[8..]))
  {
    hide Le32, GetLe32, Crc, ValueOf, BitsOf, Power2, Image;
    ImageChecksum(f);
    var img := Image(f);
    ZeroWord();
    var crc := Crc(img[..4] + [0, 0, 0, 0] + img[8..]);
    BitsOfValue(crc);
    Powers();
    SmallWord(ValueOf(crc));
  }

  /** The rest of the firmware header: magic number, two zero words, and four words of revision and flags. */
  lemma HeaderWords(f: Firmware)
    ensures var img, h := Image(f), f.header;
            && |img| >= 40
            && GetLe32(img[0..4]) == 0x4C594D00 && GetLe32(img[8..12]) == 0 && GetLe32(img[12..16]) == 0
            && GetLe32(img[24..28]) == h.rev % WORD_LIMIT && GetLe32(img[28..32]) == h.fwhi % WORD_LIMIT
            && GetLe32(img[32..36]) == h.fwlo % WORD_LIMIT && GetLe32(img[36..40]) == h.flags % WORD_LIMIT
  {
    hide Le32, GetLe32, Image, Le16;
    ImageHead(f);
    SmallWord(0);
    SmallWord(MAGIC_FIRMWARE);
    WordRead(f.header.rev);
    WordRead(f.header.fwhi);
    WordRead(f.header.fwlo);
    WordRead(f.header.flags);
  }

  lemma WordRead(n: nat)
    ensures GetLe32(Le32(n)) == n % WORD_LIMIT
  {
    WordRoundTrip(n);
  }

  /** Between them four halfwords of identification. */
  lemma HeaderIds(f: Firmware)
    ensures var img, h := Image(f), f.header;
            && |img| >= 40
            && img[16..24] == [h.vid % 256, h.vid / 256 % 256, h.did % 256, h.did / 256 % 256,
                               h.svid % 256, h.svid / 256 % 256, h.sdid % 256, h.sdid / 256 % 256]
  {
    hide Le32, Image;
    ImageHead(f);
  }

  lemma ZeroWord()
    ensures Le32(0) == [0, 0, 0, 0]
  {
    FourBytes(0);
  }

  lemma ImageHead(f: Firmware)
    ensures var img, h := Image(f), f.header;
            && |img| >= 40
            && img[0..4] == Le32(MAGIC_FIRMWARE) && img[8..12] == Le32(0) && img[12..16] == Le32(0)
            && img[16..24] == Le16(h.vid) + Le16(h.did) + Le16(h.svid) + Le16(h.sdid)
            && img[24..28] == Le32(h.rev) && img[28..32] == Le32(h.fwhi)
            && img[32..36] == Le32(h.fwlo) && img[36..40] == Le32(h.flags)
  {
    hide Le32, Le16, Body, Crc, ValueOf;
    var h, crc := f.header, ValueOf(Crc(HeaderBytes(f.header, 0) + Body(f)));
    var head := HeaderBytes(h, crc);
    HeaderPieces(h, crc);
    var img := Image(f);
    assert img[..40] == head;
    HoldsAtSlice(img, 0, head, 0, 4);
    HoldsAtSlice(img, 0, head, 8, 12);
    HoldsAtSlice(img, 0, head, 12, 16);
    HoldsAtSlice(img, 0, head, 16, 24);
    HoldsAtSlice(img, 0, head, 24, 28);
    HoldsAtSlice(img, 0, head, 28, 32);
    HoldsAtSlice(img, 0, head, 32, 36);
    HoldsAtSlice(img, 0, head, 36, 40);
  }

  lemma HeaderPieces(h: Header, crc: nat)
    ensures var b := HeaderBytes(h, crc);
            && b[0..4] == Le32(MAGIC_FIRMWARE) && b[8..12] == Le32(0) && b[12..16] == Le32(0)
            && b[16..24] == Le16(h.vid) + Le16(h.did) + Le16(h.svid) + Le16(h.sdid)
            && b[24..28] == Le32(h.rev) && b[28..32] == Le32(h.fwhi)
            && b[32..36] == Le32(h.fwlo) && b[36..40] == Le32(h.flags)
  {
    hide Le32, Le16;
  }

  lemma {:induction false} DescHeld(ds: seq<Desc>, k: nat)
    requires k < |ds|
    ensures HoldsAt(AllDescBytes(ds), 16 * k, DescBytes(ds[k])) && |AllDescBytes(ds)| == 16 * |ds|
  {
    hide DescBytes;
    if |ds| == 1 { assert ds[1..] == []; } else { DescHeld(ds[1..], if k > 0 then k - 1 else 0); }
    if k > 0 {
      assert AllDescBytes(ds)[16 * k..16 * k + 16] == AllDescBytes(ds[1..])[16 * (k - 1)..16 * (k - 1) + 16];
    }
  }

  lemma {:induction false} BlockDescsAt(bs: seq<Block>)
    ensures |BlockDescs(bs)| == |bs| && forall i :: 0 <= i < |bs| ==> BlockDescs(bs)[i] == BlockDesc(bs[i])
  {
    hide BlockDesc;
    if bs != [] { BlockDescsAt(bs[1..]); }
  }

  /** Behind the header: the descriptor of the partition table, if there are partitions; those of the blocks, each with
      its own address, the bytes that follow it in the file, and its own length; and 16 zero bytes. */
  lemma DescWords(f: Firmware, i: nat)
    requires f.Valid() && i < |f.blocks|
    ensures var n, b := if f.parts == [] then 0 else 1, f.blocks[i];
            && (n == 1 ==> WordsAt(Image(f), 40, 1, f.partOffset, 400, f.partSize))
            && WordsAt(Image(f), 40 + 16 * (n + i), 1, b.addr, RoundUp4(b.Size() + if b.haveHdr then 8 else 0), b.blocklen)
            && WordsAt(Image(f), 40 + 16 * (n + |f.blocks|), 0, 0, 0, 0)
  {
    hide Le32, GetLe32, HeaderBytes, Crc, ValueOf, Partitions, AllBlockBytes, BlockDescs, AllDescBytes, WordsAt, HoldsAt;
    var n, b, ds := if f.parts == [] then 0 else 1, f.blocks[i], Descs(f);
    BlockDescsAt(f.blocks);
    assert ds[n + i] == BlockDesc(b);
    DescHeld(ds, n + i);
    BlockDescRange(b);
    DescsInImage(f, 16 * (n + i), ds[n + i]);
    WordsHeld(Image(f), 40 + 16 * (n + i), 1, BlockDesc(b).addr, BlockDesc(b).dlen, BlockDesc(b).blen);
    if n == 1 {
      DescHeld(ds, 0);
      DescsInImage(f, 0, ds[0]);
      WordsHeld(Image(f), 40, 1, f.partOffset, TABLE_SIZE, f.partSize);
    }
    NullInImage(f);
    WordsHeld(Image(f), 40 + 16 * (n + |f.blocks|), 0, 0, 0, 0);
  }

  lemma DescsInImage(f: Firmware, at: nat, d: Desc)
    requires HoldsAt(AllDescBytes(Descs(f)), at, DescBytes(d))
    ensures HoldsAt(Image(f), 40 + at, Le32(d.kind) + Le32(d.addr) + Le32(d.dlen) + Le32(d.blen))
  {
    hide Le32, HeaderBytes, Crc, ValueOf, Partitions, AllBlockBytes, Descs, AllDescBytes;
    var all, img := AllDescBytes(Descs(f)), Image(f);
    assert img[40..40 + |all|] == all;
    HoldsAtSlice(img, 40, all, at, at + 16);
  }

  lemma NullInImage(f: Firmware)
    ensures HoldsAt(Image(f), 40 + |AllDescBytes(Descs(f))|, Le32(0) + Le32(0) + Le32(0) + Le32(0))
  {
    hide Le32, HeaderBytes, Crc, ValueOf, Partitions, AllBlockBytes, Descs, AllDescBytes;
  }

  /** A block with a header: the file's length and checksum in front of the file, and 0xFF to a word boundary. */
  lemma BlockWords(b: Block)
    requires b.Valid() && b.file.Some?
    ensures var s, data, p := BlockBytes(b), b.file.value, if b.haveHdr then 8 else 0;
            && |s| % 4 == 0 && p + |data| <= |s| < p + |data| + 4
            && (b.haveHdr ==> GetLe32(s[0..4]) == |data| && GetLe32(s[4..8]) == ValueOf(Crc(data)))
            && s[p..p + |data|] == data && forall i :: p + |data| <= i < |s| ==> s[i] == 0xFF
  {
    hide Le32, GetLe32, Crc, ValueOf, BitsOf, Power2;
    var data := b.file.value;
    RoundUpPlus(|data|);
    BitsOfValue(Crc(data));
    Powers();
    SmallWord(|data|);
    SmallWord(ValueOf(Crc(data)));
    var s := BlockBytes(b);
    if b.haveHdr { assert s[0..4] == Le32(|data|) && s[4..8] == Le32(ValueOf(Crc(data))); }
  }

  lemma {:induction false} PartHeld(ps: seq<Part>, k: nat)
    requires k < |ps| && forall i :: 0 <= i < |ps| ==> |ps[i].name| == PART_NAME_LEN
    ensures HoldsAt(PartEntries(ps), 16 * k, PartBytes(ps[k])) && HoldsAt(PartNames(ps), 32 * k, ps[k].name)
  {
    hide PartBytes;
    PartLengths(ps);
    if k > 0 {
      PartLengths(ps[1..]);
      PartHeld(ps[1..], k - 1);
      assert PartEntries(ps)[16 * k..16 * k + 16] == PartEntries(ps[1..])[16 * (k - 1)..16 * (k - 1) + 16];
      assert PartNames(ps)[32 * k..32 * k + 32] == PartNames(ps[1..])[32 * (k - 1)..32 * (k - 1) + 32];
    }
  }

  /** An entry of the partition table: flags and type as halfwords, then three words. */
  predicate EntryAt(s: seq<byte>, at: nat, p: Part) {
    && at + 16 <= |s| && s[at..at + 4] == [p.flags % 256, p.flags / 256 % 256, 1, 0]
    && GetLe32(s[at + 4..at + 8]) == p.addr % WORD_LIMIT
    && GetLe32(s[at + 8..at + 12]) == p.size % WORD_LIMIT
    && GetLe32(s[at + 12..at + 16]) == p.param % WORD_LIMIT
  }

  /** The partition table: its magic number, the entries and the names, each at its place; what no partition takes is
      zero. */
  lemma PartitionWords(ps: seq<Part>, k: nat)
    requires k < |ps| <= 8 && forall i :: 0 <= i < |ps| ==> |ps[i].name| == 32
    ensures var s := Partitions(ps);
            && |s| == 400 && WordsAt(s, 0, 0x20021103, 0, 0, 0)
            && EntryAt(s, 16 + 16 * k, ps[k]) && HoldsAt(s, 144 + 32 * k, ps[k].name)
            && (forall i :: 16 + 16 * |ps| <= i < 144 || 144 + 32 * |ps| <= i < 400 ==> s[i] == 0)
  {
    hide Le32, GetLe32, PartEntries, PartNames, Partitions, WordsAt, EntryAt, HoldsAt, PartBytes;
    var s, e, n := Partitions(ps), PartEntries(ps), PartNames(ps);
    PartLengths(ps);
    PartHeld(ps, k);
    TableParts(ps);
    WordsHeld(s, 0, MAGIC_PARTITIONS, 0, 0, 0);
    HeldWithin(s, 16, e, 16 * k, PartBytes(ps[k]));
    HeldWithin(s, 144, n, 32 * k, ps[k].name);
    EntryHeld(s, 16 + 16 * k, ps[k]);
  }

  lemma EntryHeld(s: seq<byte>, at: nat, p: Part)
    requires HoldsAt(s, at, PartBytes(p))
    ensures EntryAt(s, at, p)
  {
    hide Le32, GetLe32, PartBytes;
    PartPieces(p);
    var b := PartBytes(p);
    HoldsAtSlice(s, at, b, 0, 4);
    HoldsAtSlice(s, at, b, 4, 8);
    HoldsAtSlice(s, at, b, 8, 12);
    HoldsAtSlice(s, at, b, 12, 16);
    WordRead(p.addr);
    WordRead(p.size);
    WordRead(p.param);
  }

  lemma PartPieces(p: Part)
    ensures var b := PartBytes(p);
            && |b| == 16 && b[0..4] == [p.flags % 256, p.flags / 256 % 256, 1, 0]
            && b[4..8] == Le32(p.addr) && b[8..12] == Le32(p.size) && b[12..16] == Le32(p.param)
  {
    hide Le32;
  }

  lemma TableParts(ps: seq<Part>)
    requires ps != [] && |PartEntries(ps)| == 16 * |ps| <= 128 && |PartNames(ps)| == 32 * |ps|
    ensures var s := Partitions(ps);
            && |s| == 400 && HoldsAt(s, 0, Le32(MAGIC_PARTITIONS) + Le32(0) + Le32(0) + Le32(0))
            && HoldsAt(s, 16, PartEntries(ps)) && HoldsAt(s, 144, PartNames(ps))
            && (forall i :: 16 + 16 * |ps| <= i < 144 || 144 + 32 * |ps| <= i < 400 ==> s[i] == 0)
  {
    hide Le32, PartEntries, PartNames;
    var head := Le32(MAGIC_PARTITIONS) + Le32(0) + Le32(0) + Le32(0);
    FilledTable(head, PartEntries(ps), PartNames(ps));
  }

  lemma FilledTable(head: seq<byte>, e: seq<byte>, n: seq<byte>)
    requires |head| == 16 && |e| <= 128 && |n| <= 256
    ensures var s := head + FillTo(e, 128) + FillTo(n, 256);
            && |s| == 400 && s[..16] == head && s[16..16 + |e|] == e && s[144..144 + |n|] == n
            && (forall i :: 16 + |e| <= i < 144 || 144 + |n| <= i < 400 ==> s[i] == 0)
  {
    var a, b := FillTo(e, 128), FillTo(n, 256);
    var s := head + a + b;
    assert s[16..144] == a && s[144..400] == b;
    forall i | 16 + |e| <= i < 144 || 144 + |n| <= i < 400 ensures s[i] == 0 {
      if i < 144 { assert s[i] == a[i - 16]; } else { assert s[i] == b[i - 144]; }
    }
  }

  // ------------------------------------------------------------ the writer

  /** `ALIGN(len, 4) - size` with `len` zero: the macro lacks outer parentheses, so the subtraction binds
      tighter than the mask and the expression is `3 & (~3 - size)`. */
  function PaddingExpression(size: nat): (n: nat)
    ensures n == RoundUp4(size) - size
  {
    (-4 - size) % 4
  }

  /** The output file and the checksum of what has been written so far. */
  class Writer {
    const tab: array<Reg>
    var file: seq<byte>
    var crc: Reg

    constructor (tab: array<Reg>)
      ensures this.tab == tab && file == [] && crc == ZERO
    {
      this.tab, file, crc := tab, [], ZERO;
    }

    /** The checksum follows the file. */
    ghost predicate Following()
      reads this, tab
    {
      tab.Length == 256 && IsTable(tab[..]) && crc == Crc(file)
    }

    /** write_out_data at the end of the file, with the checksum. */
    method WriteData(data: seq<byte>)
      requires Following()
      modifies this
      ensures Following() && file == old(file) + data
    {
      hide Updated, IsTable;
      UpdatedConcat(ZERO, file, data);
      file := file + data;
      crc := UpdateCrc(tab, data, crc);
    }

    /** write_out_padding */
    method WritePadding(n: nat)
      requires Following()
      modifies this
      ensures Following() && file == old(file) + Ones(n)
    {
      hide Crc, IsTable;
      var len: nat, buflen := n, PAD_BUF_LEN;
      ghost var done: nat := 0;
      assert file + Ones(0) == file;
      while len > 0
        invariant done + len == n && 0 < buflen <= PAD_BUF_LEN && Following() && file == old(file) + Ones(done)
      {
        if len < buflen {
          buflen := len;
        }
        WriteData(Ones(buflen));
        assert Ones(done) + Ones(buflen) == Ones(done + buflen);
        assert old(file) + Ones(done) + Ones(buflen) == old(file) + (Ones(done) + Ones(buflen));
        len, done := len - buflen, done + buflen;
      }
    }

    /** The copy loop of write_out_file. */
    method WriteFile(data: seq<byte>)
      requires Following()
      modifies this
      ensures Following() && file == old(file) + data
    {
      hide Crc, IsTable;
      var p, buflen := 0, FILE_BUF_LEN;
      assert file + data[..0] == file;
      while p < |data|
        invariant p <= |data| && 0 < buflen <= FILE_BUF_LEN && Following() && file == old(file) + data[..p]
      {
        if |data| - p < buflen {
          buflen := |data| - p;
        }
        WriteData(data[p..p + buflen]);
        assert data[..p] + data[p..p + buflen] == data[..p + buflen];
        assert old(file) + data[..p] + data[p..p + buflen] == old(file) + (data[..p] + data[p..p + buflen]);
        p := p + buflen;
      }
      assert data[..p] == data;
    }

    /** get_file_crc */
    method FileCrc(data: seq<byte>) returns (c: Reg)
      requires tab.Length == 256 && IsTable(tab[..])
      ensures c == Crc(data)
    {
      hide Updated, IsTable;
      c := ZERO;
      var p, readlen := 0, FILE_BUF_LEN;
      CrcNothing();
      while p < |data|
        invariant p <= |data| && 0 < readlen <= FILE_BUF_LEN && c == Crc(data[..p])
      {
        if |data| - p < readlen {
          readlen := |data| - p;
        }
        assert data[..p + readlen] == data[..p] + data[p..p + readlen];
        UpdatedConcat(ZERO, data[..p], data[p..p + readlen]);
        c := UpdateCrc(tab, data[p..p + readlen], c);
        p := p + readlen;
      }
      assert data[..p] == data;
    }

    /** write_out_file */
    method WriteBlock(b: Block)
      requires Following() && b.Valid()
      modifies this
      ensures Following() && file == old(file) + BlockBytes(b)
    {
      hide Crc, IsTable, ValueOf;
      if b.file.None? {
        assert file + BlockBytes(b) == file;
        return;
      }
      var data := b.file.value;
      var head: seq<byte> := [];
      if b.haveHdr {
        var c := FileCrc(data);
        head := Le32(|data|) + Le32(ValueOf(c));
        WriteData(head);
      }
      assert old(file) + head == file;
      WriteFile(data);
      var len := PaddingExpression(|data|);
      WritePadding(len);
      assert old(file) + head + data + Ones(len) == old(file) + (head + data + Ones(len));
    }

    /** write_out_partitions */
    method WritePartitions(ps: seq<Part>)
      requires Following() && |ps| <= MAX_PARTITIONS && forall i :: 0 <= i < |ps| ==> |ps[i].name| == PART_NAME_LEN
      modifies this
      ensures Following() && file == old(file) + Partitions(ps)
    {
      hide Crc, IsTable, FillTo;
      if |ps| == 0 {
        assert ps == [] && file + [] == file;
        return;
      }
      var table := FillTo(PartEntries(ps), 16 * MAX_PARTITIONS);
      var names := FillTo(PartNames(ps), PART_NAME_LEN * MAX_PARTITIONS);
      var head := Le32(MAGIC_PARTITIONS) + Le32(0) + Le32(0) + Le32(0);
      WriteData(head + table);
      WriteData(names);
      assert old(file) + (head + table) + names == old(file) + (head + table + names);
    }

    /** write_out_blocks */
    method WriteBlocks(f: Firmware)
      requires Following() && f.Valid()
      modifies this
      ensures Following() && file == old(file) + Body(f)
    {
      hide Crc, IsTable, DescBytes, BlockBytes, Partitions, BlockDesc;
      ghost var start := file;
      if |f.parts| > 0 {
        WriteData(DescBytes(PartDesc(f)));
      }
      ghost var first := if f.parts == [] then [] else DescBytes(PartDesc(f));
      assert file == start + first;
      var i := 0;
      ghost var done: seq<byte> := [];
      assert f.blocks[0..] == f.blocks;
      while i < |f.blocks|
        invariant i <= |f.blocks| && Following() && file == start + first + done
        invariant done + AllDescBytes(BlockDescs(f.blocks[i..])) == AllDescBytes(BlockDescs(f.blocks))
      {
        var d := DescBytes(BlockDesc(f.blocks[i]));
        DescsStep(f.blocks[i..]);
        assert f.blocks[i..][1..] == f.blocks[i + 1..];
        Assoc(start + first, done, d);
        Assoc(done, d, AllDescBytes(BlockDescs(f.blocks[i + 1..])));
        WriteData(d);
        done, i := done + d, i + 1;
      }
      assert f.blocks[i..] == [] && done + [] == done;
      DescsFirst(f);
      WriteData(DescBytes(NULL_DESC));
      WritePartitions(f.parts);
      ghost var middle := file;
      Assoc(start, first, done);
      assert middle == start + (first + done) + DescBytes(NULL_DESC) + Partitions(f.parts);
      i := 0;
      done := [];
      while i < |f.blocks|
        invariant i <= |f.blocks| && Following() && file == middle + done
        invariant done + AllBlockBytes(f.blocks[i..]) == AllBlockBytes(f.blocks)
      {
        var b := f.blocks[i];
        assert f.blocks[i..][1..] == f.blocks[i + 1..];
        Assoc(middle, done, BlockBytes(b));
        Assoc(done, BlockBytes(b), AllBlockBytes(f.blocks[i + 1..]));
        WriteBlock(b);
        done, i := done + BlockBytes(b), i + 1;
      }
      assert f.blocks[i..] == [] && done + [] == done;
      BodyJoin(start, AllDescBytes(Descs(f)), DescBytes(NULL_DESC), Partitions(f.parts), AllBlockBytes(f.blocks));
    }

    /** main: the header with a zero checksum, the blocks, then the header again in place. */
    method WriteImage(f: Firmware)
      requires tab.Length == 256 && IsTable(tab[..]) && f.Valid() && file == [] && crc == ZERO
      modifies this
      ensures file == Image(f)
    {
      hide Crc, IsTable, Body, HeaderBytes, ValueOf;
      CrcNothing();
      WriteData(HeaderBytes(f.header, 0));
      assert [] + HeaderBytes(f.header, 0) == HeaderBytes(f.header, 0);
      WriteBlocks(f);
      var header := HeaderBytes(f.header, ValueOf(crc));
      file := header + file[HEADER_SIZE..];
    }
  }

  lemma CrcNothing()
    ensures Crc([]) == ZERO
  {
    RawNothing(Not(ZERO));
    NotNot(ZERO);
  }

  lemma DescsStep(bs: seq<Block>)
    requires bs != []
    ensures AllDescBytes(BlockDescs(bs)) == DescBytes(BlockDesc(bs[0])) + AllDescBytes(BlockDescs(bs[1..]))
  {
    hide DescBytes, BlockDesc;
    assert BlockDescs(bs)[1..] == BlockDescs(bs[1..]);
  }

  lemma DescsFirst(f: Firmware)
    ensures AllDescBytes(Descs(f))
         == (if f.parts == [] then [] else DescBytes(PartDesc(f))) + AllDescBytes(BlockDescs(f.blocks))
  {
    hide DescBytes, BlockDescs;
    if f.parts == [] {
      assert Descs(f) == BlockDescs(f.blocks);
    } else {
      assert Descs(f)[1..] == BlockDescs(f.blocks);
    }
  }

  lemma BodyJoin(start: seq<byte>, a: seq<byte>, b: seq<byte>, c: seq<byte>, d: seq<byte>)
    ensures start + a + b + c + d == start + (a + b + c + d)
  {
  }
}
