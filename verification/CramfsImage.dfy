/** The whole image that mkcramfs writes, and the fact that it holds every record and every chunk
    at the offset its inode gives. */
module CramfsImage {
  import opened Bytes
  import opened CramfsFormat
  import opened CramfsLayout

  const MAGIC := 0x28cd3d45
  const SIGNATURE: seq<byte> :=
    [0x43, 0x6f, 0x6d, 0x70, 0x72, 0x65, 0x73, 0x73, 0x65, 0x64, 0x20, 0x52, 0x4f, 0x4d, 0x46, 0x53]
  const FLAG_VERSION_2 := 0x1
  const FLAG_SORTED := 0x2
  const FLAG_HOLES := 0x100
  const FLAG_SHIFTED := 0x400

  /** `struct cramfs_super`; the future, signature and name fields are bytes no tool interprets. */
  datatype Super = Super(magic: nat, size: nat, flags: nat, future: nat, signature: seq<byte>,
                         crc: nat, edition: nat, blocks: nat, files: nat, name: seq<byte>, root: Inode)

  function EncodeSuper(en: Endian, s: Super): (r: seq<byte>)
    requires |s.signature| == 16 && |s.name| == 16
    ensures |r| == SUPER_SIZE
  {
    Put32(en, s.magic) + Put32(en, s.size) + Put32(en, s.flags) + Put32(en, s.future) + s.signature
    + Put32(en, s.crc) + Put32(en, s.edition) + Put32(en, s.blocks) + Put32(en, s.files) + s.name
    + EncodeInode(en, s.root)
  }

  function DecodeSuper(en: Endian, b: seq<byte>): (s: Super)
    requires |b| == SUPER_SIZE
  {
    Super(Get32(en, b[0..4]), Get32(en, b[4..8]), Get32(en, b[8..12]), Get32(en, b[12..16]), b[16..32],
          Get32(en, b[32..36]), Get32(en, b[36..40]), Get32(en, b[40..44]), Get32(en, b[44..48]), b[48..64],
          DecodeInode(en, b[64..76]))
  }

  predicate SuperInRange(s: Super) {
    && |s.signature| == 16 && |s.name| == 16
    && s.magic < 0x1_0000_0000 && s.size < 0x1_0000_0000 && s.flags < 0x1_0000_0000
    && s.future < 0x1_0000_0000 && s.crc < 0x1_0000_0000 && s.edition < 0x1_0000_0000
    && s.blocks < 0x1_0000_0000 && s.files < 0x1_0000_0000 && InodeInRange(s.root)
  }

  lemma SuperRoundTrip(en: Endian, s: Super)
    requires SuperInRange(s)
    ensures DecodeSuper(en, EncodeSuper(en, s)) == s
  {
    hide Put32, Get32, EncodeInode, DecodeInode;
    var b := EncodeSuper(en, s);
    assert b[0..4] == Put32(en, s.magic);
    assert b[4..8] == Put32(en, s.size);
    assert b[8..12] == Put32(en, s.flags);
    assert b[12..16] == Put32(en, s.future);
    assert b[16..32] == s.signature;
    assert b[32..36] == Put32(en, s.crc);
    assert b[36..40] == Put32(en, s.edition);
    assert b[40..44] == Put32(en, s.blocks);
    assert b[44..48] == Put32(en, s.files);
    assert b[48..64] == s.name;
    assert b[64..76] == EncodeInode(en, s.root);
    GetPut32(en, s.magic); GetPut32(en, s.size); GetPut32(en, s.flags); GetPut32(en, s.future);
    GetPut32(en, s.crc); GetPut32(en, s.edition); GetPut32(en, s.blocks); GetPut32(en, s.files);
    InodeRoundTrip(en, s.root);
  }

  // ------------------------------------------------------------ the image

  /** The command line: byte order of the host, zlib, -z, -p, the bytes given by -i, -e and -n. */
  datatype Options = Options(en: Endian, z: Zlib, holes: bool, pad: bool, insert: seq<byte>,
                             edition: nat, name: seq<byte>)

  function PadLength(o: Options): nat { if o.pad then PAD_SIZE else 0 }

  /** Offset of the first record of the root directory. */
  function DirStart(o: Options): nat {
    PadLength(o) + SUPER_SIZE + RoundUp4(|o.insert|)
  }

  function DataStart(o: Options, t: Tree): Store {
    Store(map[], DirStart(o) + Total(t))
  }

  function Laid(o: Options, t: Tree): Forest {
    Lay(o.z, o.holes, t, DirStart(o), DirStart(o) + Width(t), DataStart(o, t))
  }

  function Used(o: Options, t: Tree): nat {
    StoreTree(o.z, o.holes, t, DataStart(o, t)).end
  }

  /** `((offset - 1) | (blksize - 1)) + 1` for a positive offset. */
  function RoundUpBlock(n: nat): (r: nat)
    ensures n <= r < n + BLOCK && r % BLOCK == 0
  {
    (n + BLOCK - 1) / BLOCK * BLOCK
  }

  function ImageSize(o: Options, t: Tree): nat {
    RoundUpBlock(Used(o, t))
  }

  /** `strncpy` into the 16-byte name field. */
  function FsName(s: seq<byte>): (r: seq<byte>)
    ensures |r| == 16
  {
    if |s| >= 16 then s[..16] else s + Zeros(16 - |s|)
  }

  /** Blocks of the chunks that are really written. */
  function BlocksWritten(z: Zlib, holes: bool, t: Tree, s: Store): nat {
    match t
    case Nil => 0
    case Node(e, c, n) =>
      var s1 := StoreEnt(z, holes, e, s);
      (if e.HasData() && e.data !in s.where then BlockCount(|e.data|) else 0)
      + BlocksWritten(z, holes, c, s1) + BlocksWritten(z, holes, n, StoreTree(z, holes, c, s1))
  }

  function Flags(o: Options): nat {
    FLAG_VERSION_2 + FLAG_SORTED + (if o.holes then FLAG_HOLES else 0)
    + (if |o.insert| > 0 then FLAG_SHIFTED else 0)
  }

  function SuperOf(o: Options, root: Ent, t: Tree, crc: nat): (s: Super)
    ensures |s.signature| == 16 && |s.name| == 16
  {
    Super(MAGIC, ImageSize(o, t), Flags(o), 0, SIGNATURE, crc, o.edition,
          BlocksWritten(o.z, o.holes, t, DataStart(o, t)), 1 + Count(t), FsName(o.name),
          Inode(root.mode, root.uid, root.size, root.gid, 0, DirStart(o) / 4))
  }

  /** Everything after the superblock. */
  function Body(o: Options, t: Tree): seq<byte> {
    o.insert + Zeros(RoundUp4(|o.insert|) - |o.insert|)
    + DirBytes(o.en, Laid(o, t))
    + DataBytes(o.en, o.z, o.holes, t, DataStart(o, t))
    + Zeros(ImageSize(o, t) - Used(o, t))
  }

  /** The part of the image that the checksum covers. */
  function Summed(o: Options, root: Ent, t: Tree, crc: nat): seq<byte> {
    EncodeSuper(o.en, SuperOf(o, root, t, crc)) + Body(o, t)
  }

  function Image(o: Options, root: Ent, t: Tree): seq<byte> {
    Zeros(PadLength(o)) + Summed(o, root, t, o.z.crc(Summed(o, root, t, 0)))
  }

  /** No call of `set_data_offset` finds an offset of 2^28 or more. */
  predicate OffsetsFit(f: Forest) {
    match f
    case FNil => true
    case FNode(_, _, at, c, n) => at < 4 * OFFSET_LIMIT && OffsetsFit(c) && OffsetsFit(n)
  }

  predicate ValidRoot(root: Ent, t: Tree) {
    && IsDir(root.mode) && root.mode < MODE_LIMIT && root.uid < MODE_LIMIT && root.gid < 256
    && root.size == Width(t) < SIZE_LIMIT && root.data == []
  }

  // ------------------------------------------------------------ the image holds its tree

  /** Every record is at its `pos`, and every entry's data is at its `at`. */
  ghost predicate Holds(en: Endian, z: Zlib, holes: bool, img: seq<byte>, f: Forest) {
    match f
    case FNil => true
    case FNode(e, pos, at, c, n) =>
      && HoldsAt(img, pos, e.Record(en, at))
      && (e.HasData() ==> HoldsAt(img, at, Chunk(en, z, holes, e.data, at)))
      && Holds(en, z, holes, img, c) && Holds(en, z, holes, img, n)
  }

  /** Every stored content is where the store says, on a word boundary between `lo` and `end`. */
  ghost predicate StoreHeld(en: Endian, z: Zlib, holes: bool, img: seq<byte>, s: Store, lo: nat) {
    && lo <= s.end && s.end % 4 == 0
    && forall d | d in s.where ::
         && lo <= s.where[d] && s.where[d] % 4 == 0
         && s.where[d] + ChunkSize(z, holes, d) <= s.end
         && HoldsAt(img, s.where[d], Chunk(en, z, holes, d, s.where[d]))
  }

  lemma StoreEntHeld(en: Endian, z: Zlib, holes: bool, img: seq<byte>, e: Ent, s: Store, lo: nat)
    requires StoreHeld(en, z, holes, img, s, lo)
    requires e.HasData() && e.data !in s.where ==> HoldsAt(img, s.end, Chunk(en, z, holes, e.data, s.end))
    ensures StoreHeld(en, z, holes, img, StoreEnt(z, holes, e, s), lo)
    ensures e.HasData() ==> e.data in StoreEnt(z, holes, e, s).where
                            && StoreEnt(z, holes, e, s).where[e.data] == DataAt(e, s)
  {
    hide HoldsAt, Chunk, ChunkSize;
    ChunkLength(en, z, holes, e.data, s.end);
  }

  /** The records of a laid-out node, one by one. */
  lemma NodeRecords(en: Endian, img: seq<byte>, f: Forest, p: nat, q: nat)
    requires f.FNode?
    requires HoldsAt(img, p, Siblings(en, f)) && HoldsAt(img, q, Descend(en, f))
    ensures HoldsAt(img, p, f.ent.Record(en, f.at))
    ensures HoldsAt(img, p + f.ent.RecordSize(), Siblings(en, f.next))
    ensures HoldsAt(img, q, Siblings(en, f.child))
    ensures HoldsAt(img, q + Width(Erase(f.child)), Descend(en, f.child))
    ensures HoldsAt(img, q + Total(Erase(f.child)), Descend(en, f.next))
  {
    hide HoldsAt, Width, Total, Below, Ent.Record, Ent.RecordSize;
    HoldsAtSplit(img, p, f.ent.Record(en, f.at), Siblings(en, f.next));
    HoldsAtSplit3(img, q, Siblings(en, f.child), Descend(en, f.child), Descend(en, f.next));
    DirLength(en, f.child);
    TotalSum(Erase(f.child));
  }

  /** The data of a node: its own chunk if its content is new, then its children's, then its siblings'. */
  lemma NodeData(en: Endian, z: Zlib, holes: bool, img: seq<byte>, t: Tree, s: Store)
    requires t.Node? && HoldsAt(img, s.end, DataBytes(en, z, holes, t, s))
    ensures var s1 := StoreEnt(z, holes, t.ent, s);
            var s2 := StoreTree(z, holes, t.child, s1);
            && (t.ent.HasData() && t.ent.data !in s.where
                ==> HoldsAt(img, s.end, Chunk(en, z, holes, t.ent.data, s.end)))
            && HoldsAt(img, s1.end, DataBytes(en, z, holes, t.child, s1))
            && HoldsAt(img, s2.end, DataBytes(en, z, holes, t.next, s2))
  {
    hide HoldsAt, Chunk, ChunkSize;
    var s1 := StoreEnt(z, holes, t.ent, s);
    var own := if t.ent.HasData() && t.ent.data !in s.where then Chunk(en, z, holes, t.ent.data, s.end) else [];
    ChunkLength(en, z, holes, t.ent.data, s.end);
    DataLength(en, z, holes, t.child, s1);
    HoldsAtSplit3(img, s.end, own, DataBytes(en, z, holes, t.child, s1),
                  DataBytes(en, z, holes, t.next, StoreTree(z, holes, t.child, s1)));
  }

  /** What the image holds of one node, its children and its siblings. */
  lemma NodeHeld(en: Endian, z: Zlib, holes: bool, img: seq<byte>, t: Tree, p: nat, q: nat, s: Store, lo: nat)
    requires t.Node? && StoreHeld(en, z, holes, img, s, lo)
    requires HoldsAt(img, p, Siblings(en, Lay(z, holes, t, p, q, s)))
    requires HoldsAt(img, q, Descend(en, Lay(z, holes, t, p, q, s)))
    requires HoldsAt(img, s.end, DataBytes(en, z, holes, t, s))
    ensures var f, s1 := Lay(z, holes, t, p, q, s), StoreEnt(z, holes, t.ent, s);
            var s2 := StoreTree(z, holes, t.child, s1);
            && HoldsAt(img, p, t.ent.Record(en, f.at))
            && (t.ent.HasData() ==> HoldsAt(img, f.at, Chunk(en, z, holes, t.ent.data, f.at)))
            && StoreHeld(en, z, holes, img, s1, lo)
            && HoldsAt(img, q, Siblings(en, f.child)) && HoldsAt(img, q + Width(t.child), Descend(en, f.child))
            && HoldsAt(img, s1.end, DataBytes(en, z, holes, t.child, s1))
            && HoldsAt(img, p + t.ent.RecordSize(), Siblings(en, f.next))
            && HoldsAt(img, q + Total(t.child), Descend(en, f.next))
            && HoldsAt(img, s2.end, DataBytes(en, z, holes, t.next, s2))
  {
    hide HoldsAt, Chunk, ChunkSize, Siblings, Descend, DataBytes, StoreTree, Width, Total;
    NodeRecords(en, img, Lay(z, holes, t, p, q, s), p, q);
    EraseLay(z, holes, t.child, q, q + Width(t.child), StoreEnt(z, holes, t.ent, s));
    NodeData(en, z, holes, img, t, s);
    StoreEntHeld(en, z, holes, img, t.ent, s, lo);
  }

  lemma {:induction false} LayHolds(en: Endian, z: Zlib, holes: bool, img: seq<byte>, t: Tree,
                                    p: nat, q: nat, s: Store, lo: nat)
    requires StoreHeld(en, z, holes, img, s, lo)
    requires HoldsAt(img, p, Siblings(en, Lay(z, holes, t, p, q, s)))
    requires HoldsAt(img, q, Descend(en, Lay(z, holes, t, p, q, s)))
    requires HoldsAt(img, s.end, DataBytes(en, z, holes, t, s))
    ensures Holds(en, z, holes, img, Lay(z, holes, t, p, q, s))
    ensures StoreHeld(en, z, holes, img, StoreTree(z, holes, t, s), lo)
  {
    hide HoldsAt, StoreHeld, Chunk, ChunkSize, Siblings, Descend, DataBytes, StoreEnt, DataAt, Width, Total;
    match t
    case Nil =>
    case Node(e, c, n) =>
      var s1 := StoreEnt(z, holes, e, s);
      NodeHeld(en, z, holes, img, t, p, q, s, lo);
      LayHolds(en, z, holes, img, c, q, q + Width(c), s1, lo);
      LayHolds(en, z, holes, img, n, p + e.RecordSize(), q + Total(c), StoreTree(z, holes, c, s1), lo);
  }

  lemma BodyLength(o: Options, t: Tree)
    ensures PadLength(o) + SUPER_SIZE + |Body(o, t)| == ImageSize(o, t)
    ensures DirStart(o) + |DirBytes(o.en, Laid(o, t))| == DataStart(o, t).end <= Used(o, t)
  {
    hide Width, Total, Below, Lay, Siblings, Descend, StoreTree, DataBytes;
    DirLength(o.en, Laid(o, t));
    EraseLay(o.z, o.holes, t, DirStart(o), DirStart(o) + Width(t), DataStart(o, t));
    TotalSum(t);
    DataLength(o.en, o.z, o.holes, t, DataStart(o, t));
  }

  lemma ImageIs(o: Options, root: Ent, t: Tree)
    ensures Image(o, root, t)
            == Zeros(PadLength(o)) + (EncodeSuper(o.en, SuperOf(o, root, t, o.z.crc(Summed(o, root, t, 0)))) + Body(o, t))
    ensures Summed(o, root, t, 0) == EncodeSuper(o.en, SuperOf(o, root, t, 0)) + Body(o, t)
  {
  }

  /** The image holds its directory structure and its data region at the right places. */
  lemma ImageParts(o: Options, root: Ent, t: Tree)
    ensures |Image(o, root, t)| == ImageSize(o, t)
    ensures HoldsAt(Image(o, root, t), DirStart(o), DirBytes(o.en, Laid(o, t)))
    ensures HoldsAt(Image(o, root, t), DataStart(o, t).end, DataBytes(o.en, o.z, o.holes, t, DataStart(o, t)))
  {
    hide Image, Summed, SuperOf, EncodeSuper, DirBytes, DataBytes, ImageSize, Used, Laid, HoldsAt, StoreTree, Total, RoundUp4;
    var super := EncodeSuper(o.en, SuperOf(o, root, t, o.z.crc(Summed(o, root, t, 0))));
    var insert := o.insert + Zeros(RoundUp4(|o.insert|) - |o.insert|);
    var dirs, data := DirBytes(o.en, Laid(o, t)), DataBytes(o.en, o.z, o.holes, t, DataStart(o, t));
    BodyLength(o, t);
    UsedBelow(o, t);
    var fill := Zeros(ImageSize(o, t) - Used(o, t));
    ImageIs(o, root, t);
    ThreeParts(Zeros(PadLength(o)), super, insert, dirs, data, fill);
  }

  lemma UsedBelow(o: Options, t: Tree)
    ensures Used(o, t) <= ImageSize(o, t)
  {
  }

  lemma ThreeParts(pad: seq<byte>, super: seq<byte>, insert: seq<byte>, dirs: seq<byte>, data: seq<byte>, fill: seq<byte>)
    ensures var img := pad + (super + (insert + dirs + data + fill));
            var at := |pad| + |super| + |insert|;
            HoldsAt(img, at, dirs) && HoldsAt(img, at + |dirs|, data)
  {
    var img := pad + (super + (insert + dirs + data + fill));
    assert img == (pad + super + insert) + dirs + (data + fill);
    assert img[..] == img;
    HoldsAtSplit3(img, 0, pad + super + insert, dirs, data + fill);
    HoldsAtSplit(img, |pad| + |super| + |insert| + |dirs|, data, fill);
  }

  lemma DataStartEven(o: Options, t: Tree)
    ensures DataStart(o, t).end % 4 == 0
  {
    TotalSplits(t);
    assert DirStart(o) % 4 == 0;
    Aligned(DirStart(o), Total(t));
  }

  /** The finished image holds every record and chunk of the laid-out tree. */
  lemma ImageHolds(o: Options, root: Ent, t: Tree)
    ensures Holds(o.en, o.z, o.holes, Image(o, root, t), Laid(o, t))
    ensures StoreHeld(o.en, o.z, o.holes, Image(o, root, t), StoreTree(o.z, o.holes, t, DataStart(o, t)),
                      DataStart(o, t).end)
  {
    hide HoldsAt, Image, Siblings, Descend, DataBytes, Lay, Chunk, Holds, Total, Width, StoreTree, RoundUp4;
    var img := Image(o, root, t);
    ImageParts(o, root, t);
    HoldsAtSplit(img, DirStart(o), Siblings(o.en, Laid(o, t)), Descend(o.en, Laid(o, t)));
    DirLength(o.en, Laid(o, t));
    EraseLay(o.z, o.holes, t, DirStart(o), DirStart(o) + Width(t), DataStart(o, t));
    TotalSum(t);
    DataStartEven(o, t);
    LayHolds(o.en, o.z, o.holes, img, t, DirStart(o), DirStart(o) + Width(t), DataStart(o, t), DataStart(o, t).end);
  }
}
