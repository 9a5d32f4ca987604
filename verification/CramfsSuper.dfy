/** What stands where in a finished image, word by word, and what cramfsck makes of a wrong checksum. */
module CramfsSuper {
  import opened Bytes
  import opened CramfsFormat
  import opened CramfsLayout
  import opened CramfsImage
  import opened CramfsCheck
  import opened CramfsRoundTrip

  // ------------------------------------------------------------ distinct contents

  /** The contents of all regular files and links below. */
  function Contents(t: Tree): set<seq<byte>> {
    match t
    case Nil => {}
    case Node(e, c, n) => (if e.HasData() then {e.data} else {}) + Contents(c) + Contents(n)
  }

  /** The sum of `f` over a set, each element once. */
  ghost function SumOver(f: seq<byte> -> nat, s: set<seq<byte>>): nat {
    if s == {} then 0
    else
      var d :| d in s;
      f(d) + SumOver(f, s - {d})
  }

  /** The sum does not depend on the order. */
  lemma {:induction false} SumPick(f: seq<byte> -> nat, s: set<seq<byte>>, d: seq<byte>)
    requires d in s
    ensures SumOver(f, s) == f(d) + SumOver(f, s - {d})
    decreases |s|
  {
    var c :| c in s && SumOver(f, s) == f(c) + SumOver(f, s - {c});
    if c != d {
      SumPick(f, s - {c}, d);
      SumPick(f, s - {d}, c);
      assert s - {c} - {d} == s - {d} - {c};
    }
  }

  lemma {:induction false} SumUnion(f: seq<byte> -> nat, a: set<seq<byte>>, b: set<seq<byte>>)
    requires a !! b
    ensures SumOver(f, a + b) == SumOver(f, a) + SumOver(f, b)
    decreases |a|
  {
    if a == {} {
      assert a + b == b;
    } else {
      var d :| d in a;
      SumPick(f, a, d);
      SumPick(f, a + b, d);
      SumUnion(f, a - {d}, b);
      assert a + b - {d} == a - {d} + b;
    }
  }

  lemma NoSum(f: seq<byte> -> nat)
    ensures SumOver(f, {}) == 0
  {
  }

  lemma SumOne(f: seq<byte> -> nat, own: set<seq<byte>>, d: seq<byte>)
    requires own == {} || own == {d}
    ensures SumOver(f, own) == if own == {} then 0 else f(d)
  {
    NoSum(f);
    if own == {d} {
      SumPick(f, own, d);
      assert own - {d} == {};
    }
  }

  /** The sum over the contents of an entry, of what is below it and of what is behind it, not counting those met
      before. */
  lemma SumOfNode(f: seq<byte> -> nat, e: Ent, below: set<seq<byte>>, later: set<seq<byte>>, met: set<seq<byte>>)
    ensures var own := if e.HasData() then {e.data} else {};
            SumOver(f, own + below + later - met)
            == (if e.HasData() && e.data !in met then f(e.data) else 0)
               + SumOver(f, below - (met + own)) + SumOver(f, later - (met + own + below))
  {
    var own := if e.HasData() then {e.data} else {};
    var a, b, c := own - met, below - (met + own), later - (met + own + below);
    SumOne(f, a, e.data);
    SumUnion(f, a, b);
    SumUnion(f, a + b, c);
    assert own + below + later - met == a + b + c;
  }

  /** The blocks and the bytes that a content takes. */
  function BlocksOf(d: seq<byte>): nat { BlockCount(|d|) }

  function RoomOf(z: Zlib, holes: bool): seq<byte> -> nat { d => ChunkSize(z, holes, d) }

  lemma {:induction false} StoredKeys(z: Zlib, holes: bool, t: Tree, s: Store)
    ensures StoreTree(z, holes, t, s).where.Keys == s.where.Keys + Contents(t)
  {
    hide ChunkSize;
    match t
    case Nil =>
    case Node(e, c, n) =>
      var s1 := StoreEnt(z, holes, e, s);
      StoredKeys(z, holes, c, s1);
      StoredKeys(z, holes, n, StoreTree(z, holes, c, s1));
  }

  lemma StoredKeysEnt(z: Zlib, holes: bool, e: Ent, s: Store)
    ensures StoreEnt(z, holes, e, s).where.Keys == s.where.Keys + if e.HasData() then {e.data} else {}
  {
    hide ChunkSize;
  }

  /** The blocks written are those of the contents not stored before, each counted once. */
  lemma {:induction false} BlocksAreDistinct(z: Zlib, holes: bool, t: Tree, s: Store)
    ensures BlocksWritten(z, holes, t, s) == SumOver(BlocksOf, Contents(t) - s.where.Keys)
  {
    hide ChunkSize, BlockCount, SumOver, StoreEnt;
    match t
    case Nil =>
      assert Contents(t) - s.where.Keys == {};
      NoSum(BlocksOf);
    case Node(e, c, n) =>
      var s1 := StoreEnt(z, holes, e, s);
      BlocksAreDistinct(z, holes, c, s1);
      BlocksAreDistinct(z, holes, n, StoreTree(z, holes, c, s1));
      StoredKeysEnt(z, holes, e, s);
      StoredKeys(z, holes, c, s1);
      SumOfNode(BlocksOf, e, Contents(c), Contents(n), s.where.Keys);
  }

  /** The data region takes the room of each distinct content once. */
  lemma {:induction false} RoomIsDistinct(z: Zlib, holes: bool, t: Tree, s: Store)
    ensures StoreTree(z, holes, t, s).end == s.end + SumOver(RoomOf(z, holes), Contents(t) - s.where.Keys)
  {
    hide ChunkSize, SumOver;
    match t
    case Nil =>
      assert Contents(t) - s.where.Keys == {};
      NoSum(RoomOf(z, holes));
    case Node(e, c, n) =>
      var s1 := StoreEnt(z, holes, e, s);
      RoomIsDistinct(z, holes, c, s1);
      RoomIsDistinct(z, holes, n, StoreTree(z, holes, c, s1));
      StoredKeysEnt(z, holes, e, s);
      StoredKeys(z, holes, c, s1);
      SumOfNode(RoomOf(z, holes), e, Contents(c), Contents(n), s.where.Keys);
  }

  /** The size of an image: superblock, inserted file, every record once, every distinct content once, rounded up to a
      block. */
  lemma SizeIs(o: Options, root: Ent, t: Tree)
    requires Makes(o, root, t)
    ensures var used := (if o.pad then 512 else 0) + 76 + RoundUp4(|o.insert|) + Total(t)
                        + SumOver(RoomOf(o.z, o.holes), Contents(t));
            used <= |Image(o, root, t)| < used + 4096 && |Image(o, root, t)| % 4096 == 0
  {
    hide ChunkSize, SumOver, StoreTree, Makes, Image, Summed, EncodeSuper, Body;
    RoomIsDistinct(o.z, o.holes, t, DataStart(o, t));
    assert Contents(t) - DataStart(o, t).where.Keys == Contents(t);
    Finished(o, root, t, o.z.crc(Summed(o, root, t, 0)));
  }

  // ------------------------------------------------------------ what a content takes

  /** Block `k` of a content. */
  function BlockOf(data: seq<byte>, k: nat): seq<byte>
    requires 4096 * k < |data|
  {
    data[4096 * k..Min(4096 * k + 4096, |data|)]
  }

  /** The bytes of the blocks before block `k`. */
  function Before(z: Zlib, holes: bool, data: seq<byte>, k: nat): nat {
    if k == 0 || data == [] then 0
    else |Squeeze(z, holes, data[..Min(4096, |data|)])| + Before(z, holes, data[Min(4096, |data|)..], k - 1)
  }

  lemma {:induction false} BlockStored(z: Zlib, holes: bool, data: seq<byte>, k: nat)
    requires 4096 * k < |data|
    ensures HoldsAt(Blocks(z, holes, data), Before(z, holes, data, k), Squeeze(z, holes, BlockOf(data, k)))
    ensures Before(z, holes, data, k + 1) == Before(z, holes, data, k) + |Squeeze(z, holes, BlockOf(data, k))|
    decreases k
  {
    hide Squeeze;
    if |data| <= 4096 {
      assert data[..|data|] == data && BlockOf(data, 0) == data;
    } else if k == 0 {
      assert BlockOf(data, 0) == data[..4096];
      assert Before(z, holes, data[4096..], 0) == 0;
    } else {
      BlockStored(z, holes, data[4096..], k - 1);
      BlockLater(data, k);
      var head, rest := Squeeze(z, holes, data[..4096]), Blocks(z, holes, data[4096..]);
      HeldLater(head, rest, Before(z, holes, data[4096..], k - 1), Squeeze(z, holes, BlockOf(data, k)));
    }
  }

  lemma BlockLater(data: seq<byte>, k: nat)
    requires k > 0 && 4096 * k < |data|
    ensures 4096 * (k - 1) < |data| - 4096 && BlockOf(data, k) == BlockOf(data[4096..], k - 1)
  {
    SliceOfRest(data, 4096, 4096 * (k - 1), Min(4096 * k, |data| - 4096));
  }

  lemma {:induction false} PointerStored(en: Endian, z: Zlib, holes: bool, data: seq<byte>, curr: nat, k: nat)
    requires 4096 * k < |data|
    ensures HoldsAt(Pointers(en, z, holes, data, curr), 4 * k, Put32(en, curr + Before(z, holes, data, k + 1)))
    decreases k
  {
    hide Squeeze, Put32;
    if |data| <= 4096 {
      assert data[..|data|] == data && data[|data|..] == [];
      assert Before(z, holes, [], 0) == 0;
    } else if k == 0 {
      assert Before(z, holes, data[4096..], 0) == 0;
    } else {
      var next := curr + |Squeeze(z, holes, data[..4096])|;
      PointerStored(en, z, holes, data[4096..], next, k - 1);
      HeldLater(Put32(en, next), Pointers(en, z, holes, data[4096..], next), 4 * (k - 1),
                  Put32(en, next + Before(z, holes, data[4096..], k)));
    }
  }

  /** What `do_compress` stores at `at`: behind a table with a pointer to the end of each block, every block as zlib
      compresses it, except that with holes a block of NULs takes no room. */
  lemma ChunkWords(en: Endian, z: Zlib, holes: bool, data: seq<byte>, at: nat, k: nat)
    requires 4096 * k < |data| && at + ChunkSize(z, holes, data) < 0x1_0000_0000
    ensures var c, b := Chunk(en, z, holes, data, at), BlockOf(data, k);
            && 4 * k + 4 <= |c|
            && var from := if k == 0 then at + 4 * BlockCount(|data|) else WordAt(en, c, 4 * k - 4);
               var to := WordAt(en, c, 4 * k);
               at <= from <= to <= at + |c|
               && c[from - at..to - at] == if holes && AllZero(b) then [] else z.compress(b)
  {
    hide Chunk, ChunkSize, BlockOf, WordAt, Squeeze, Before, BlockCount;
    PointerIs(en, z, holes, data, at, k);
    if k > 0 { PointerIs(en, z, holes, data, at, k - 1); } else { BeforeFirst(z, holes, data); }
    BlockIn(en, z, holes, data, at, k);
    SqueezeIs(z, holes, BlockOf(data, k));
  }

  lemma SqueezeIs(z: Zlib, holes: bool, b: seq<byte>)
    ensures Squeeze(z, holes, b) == if holes && AllZero(b) then [] else z.compress(b)
  {
  }

  lemma BeforeFirst(z: Zlib, holes: bool, data: seq<byte>)
    ensures Before(z, holes, data, 0) == 0
  {
  }

  /** The block in the chunk. */
  lemma BlockIn(en: Endian, z: Zlib, holes: bool, data: seq<byte>, at: nat, k: nat)
    requires 4096 * k < |data|
    ensures HoldsAt(Chunk(en, z, holes, data, at), 4 * BlockCount(|data|) + Before(z, holes, data, k),
                    Squeeze(z, holes, BlockOf(data, k)))
    ensures Before(z, holes, data, k + 1) == Before(z, holes, data, k) + |Squeeze(z, holes, BlockOf(data, k))|
    ensures 4 * BlockCount(|data|) + Before(z, holes, data, k + 1) <= |Chunk(en, z, holes, data, at)| == ChunkSize(z, holes, data)
  {
    hide Squeeze, Before, Blocks, Pointers, BlockCount, BlockOf, ChunkSize;
    BlockStored(z, holes, data, k);
    PointersSize(en, z, holes, data, at + 4 * BlockCount(|data|));
    ChunkLength(en, z, holes, data, at);
    var p, b := Pointers(en, z, holes, data, at + 4 * BlockCount(|data|)), Blocks(z, holes, data);
    HeldLater(p, b, Before(z, holes, data, k), Squeeze(z, holes, BlockOf(data, k)));
  }

  lemma PointerIs(en: Endian, z: Zlib, holes: bool, data: seq<byte>, at: nat, k: nat)
    requires 4096 * k < |data| && at + ChunkSize(z, holes, data) < 0x1_0000_0000
    ensures var c := Chunk(en, z, holes, data, at);
            && 4 * k + 4 <= |c| && WordAt(en, c, 4 * k) == at + 4 * BlockCount(|data|) + Before(z, holes, data, k + 1)
  {
    hide Squeeze, Before, Blocks, Pointers, Put32, Get32, BlockCount, BlockOf, ChunkSize;
    var first := at + 4 * BlockCount(|data|);
    PointerStored(en, z, holes, data, first, k);
    BlockIn(en, z, holes, data, at, k);
    PointersSize(en, z, holes, data, first);
    HeldWithin(Chunk(en, z, holes, data, at), 0, Pointers(en, z, holes, data, first), 4 * k,
               Put32(en, first + Before(z, holes, data, k + 1)));
    GetPut32(en, first + Before(z, holes, data, k + 1));
  }

  // ------------------------------------------------------------ the superblock of an image

  lemma SuperBytes(en: Endian, s: Super)
    requires |s.signature| == 16 && |s.name| == 16
    ensures var b := EncodeSuper(en, s);
            && b[0..4] == Put32(en, s.magic) && b[4..8] == Put32(en, s.size) && b[8..12] == Put32(en, s.flags)
            && b[12..16] == Put32(en, s.future) && b[16..32] == s.signature && b[32..36] == Put32(en, s.crc)
            && b[36..40] == Put32(en, s.edition) && b[40..44] == Put32(en, s.blocks) && b[44..48] == Put32(en, s.files)
            && b[48..64] == s.name && b[64..76] == EncodeInode(en, s.root)
  {
    hide Put32, EncodeInode;
  }

  lemma WordOf(en: Endian, img: seq<byte>, start: nat, super: seq<byte>, k: nat, v: nat)
    requires |super| == SUPER_SIZE && start + SUPER_SIZE <= |img| && img[start..start + SUPER_SIZE] == super
    requires k + 4 <= SUPER_SIZE && super[k..k + 4] == Put32(en, v) && v < 0x1_0000_0000
    ensures WordAt(en, img, start + k) == v
  {
    hide Put32, Get32;
    HoldsAtSlice(img, start, super, k, k + 4);
    GetPut32(en, v);
  }

  /** "Compressed ROMFS" */
  const SIGNATURE_TEXT := "Compressed ROMFS"

  /** The words of the superblock that say what the image is: behind 512 bytes of padding if there is padding, the
      magic number, the length of the file, the flags, and zero. */
  lemma SuperWords(o: Options, root: Ent, t: Tree)
    requires Makes(o, root, t)
    ensures var img, p := Image(o, root, t), if o.pad then 512 else 0;
            && |img| >= p + 76 && |img| % 4096 == 0 && (forall i :: 0 <= i < p ==> img[i] == 0)
            && WordAt(o.en, img, p) == 0x28cd3d45 && WordAt(o.en, img, p + 4) == |img|
            && WordAt(o.en, img, p + 8) == 0x3 + (if o.holes then 0x100 else 0) + (if o.insert != [] then 0x400 else 0)
            && WordAt(o.en, img, p + 12) == 0
  {
    hide Put32, Get32, EncodeSuper, Image, Summed, Body, Makes;
    var crc := o.z.crc(Summed(o, root, t, 0));
    Finished(o, root, t, crc);
    var img, p, s := Image(o, root, t), PadLength(o), SuperOf(o, root, t, crc);
    var b := EncodeSuper(o.en, s);
    SuperBytes(o.en, s);
    WordOf(o.en, img, p, b, 0, s.magic);
    WordOf(o.en, img, p, b, 4, s.size);
    WordOf(o.en, img, p, b, 8, s.flags);
    WordOf(o.en, img, p, b, 12, s.future);
    Padding(o, root, t);
  }

  lemma Padding(o: Options, root: Ent, t: Tree)
    ensures |Image(o, root, t)| >= PadLength(o) && forall i :: 0 <= i < PadLength(o) ==> Image(o, root, t)[i] == 0
  {
    hide Summed;
  }

  /** What the other lemmas need of a finished image. */
  lemma Finished(o: Options, root: Ent, t: Tree, crc: nat)
    requires Makes(o, root, t) && crc == o.z.crc(Summed(o, root, t, 0))
    ensures var img, start := Image(o, root, t), PadLength(o);
            && SuperInRange(SuperOf(o, root, t, crc)) && |img| == ImageSize(o, t) >= start + SUPER_SIZE
            && img[start..start + SUPER_SIZE] == EncodeSuper(o.en, SuperOf(o, root, t, crc))
            && img[start + SUPER_SIZE..] == Body(o, t)
  {
    hide Lawful, Image, Summed, EncodeSuper, Body, ValidTree, ImageSize, SuperOf, SuperInRange;
    CrcFits(o.z, Summed(o, root, t, 0));
    SuperFits(o, root, t, crc);
    ImageSlices(o, root, t);
    var img, start := Image(o, root, t), PadLength(o);
    assert img[start + SUPER_SIZE..] == img[start..][SUPER_SIZE..];
  }

  /** The identification of the image: the checksum of everything behind the padding with the checksum field cleared,
      the edition, the blocks of all distinct contents, and the number of entries with the root. */
  lemma SuperIdentity(o: Options, root: Ent, t: Tree)
    requires Makes(o, root, t)
    ensures var img, p := Image(o, root, t), if o.pad then 512 else 0;
            && |img| >= p + 76
            && WordAt(o.en, img, p + 32) == o.z.crc(img[p..p + 32] + [0, 0, 0, 0] + img[p + 36..])
            && WordAt(o.en, img, p + 36) == o.edition
            && WordAt(o.en, img, p + 40) == SumOver(BlocksOf, Contents(t))
            && WordAt(o.en, img, p + 44) == Count(t) + 1
  {
    hide Put32, Get32, EncodeSuper, Image, Summed, Body, Makes, BlocksWritten, SumOver, Contents, Count;
    var crc := o.z.crc(Summed(o, root, t, 0));
    Finished(o, root, t, crc);
    var img, p, s := Image(o, root, t), PadLength(o), SuperOf(o, root, t, crc);
    var b := EncodeSuper(o.en, s);
    SuperBytes(o.en, s);
    WordOf(o.en, img, p, b, 32, s.crc);
    WordOf(o.en, img, p, b, 36, s.edition);
    WordOf(o.en, img, p, b, 40, s.blocks);
    WordOf(o.en, img, p, b, 44, s.files);
    BlocksAreDistinct(o.z, o.holes, t, DataStart(o, t));
    assert Contents(t) - DataStart(o, t).where.Keys == Contents(t);
    SummedIs(o, root, t, crc);
  }

  /** The texts of the superblock: the signature, and the name, cut or filled with zeros. */
  lemma SuperTexts(o: Options, root: Ent, t: Tree, i: nat)
    requires Makes(o, root, t) && i < 16
    ensures var img, p := Image(o, root, t), if o.pad then 512 else 0;
            && |img| >= p + 76
            && img[p + 16 + i] as int == SIGNATURE_TEXT[i] as int
            && img[p + 48 + i] == if i < |o.name| then o.name[i] else 0
  {
    hide EncodeSuper, Image, Summed, Body, Makes, BlocksWritten, Count, FsName, ImageSize;
    var crc := o.z.crc(Summed(o, root, t, 0));
    Finished(o, root, t, crc);
    var img, p, s := Image(o, root, t), PadLength(o), SuperOf(o, root, t, crc);
    SuperBytes(o.en, s);
    SixteenAt(img, p, EncodeSuper(o.en, s), 16, s.signature, i);
    SixteenAt(img, p, EncodeSuper(o.en, s), 48, s.name, i);
    SignatureSpells(i);
    NameByte(o.name, i);
  }

  lemma SixteenAt(img: seq<byte>, p: nat, b: seq<byte>, at: nat, text: seq<byte>, i: nat)
    requires HoldsAt(img, p, b) && at + 16 <= |b| && b[at..at + 16] == text && i < 16
    ensures p + at + 16 <= |img| && img[p + at + i] == text[i]
  {
    HoldsAtSlice(img, p, b, at, at + 16);
    assert img[p + at..p + at + 16][i] == text[i];
  }

  lemma NameByte(name: seq<byte>, i: nat)
    requires i < 16
    ensures FsName(name)[i] == if i < |name| then name[i] else 0
  {
  }

  lemma SignatureSpells(i: nat)
    requires i < 16
    ensures SIGNATURE[i] as int == SIGNATURE_TEXT[i] as int
  {
  }

  /** The checksum covers the image as it is, apart from the checksum field. */
  lemma SummedIs(o: Options, root: Ent, t: Tree, crc: nat)
    requires Makes(o, root, t) && crc == o.z.crc(Summed(o, root, t, 0))
    ensures var img, p := Image(o, root, t), PadLength(o);
            |img| >= p + 76 && img[p..p + 32] + [0, 0, 0, 0] + img[p + 36..] == Summed(o, root, t, 0)
  {
    hide EncodeSuper, Image, Summed, Body, Makes;
    Finished(o, root, t, crc);
    var img, p, s := Image(o, root, t), PadLength(o), SuperOf(o, root, t, crc);
    var b := EncodeSuper(o.en, s);
    ClearSuperCrc(o.en, s);
    SummedParts(o, root, t, 0);
    assert s.(crc := 0) == SuperOf(o, root, t, 0);
    HoldsAtSlice(img, p, b, 0, 32);
    HoldsAtSlice(img, p, b, 36, 76);
    assert img[p + 36..] == img[p + 36..p + 76] + img[p + 76..];
    assert Zeros(4) == [0, 0, 0, 0];
  }

  /** The root inode is `i`, and `insert` is behind it. */
  predicate RootHeld(en: Endian, img: seq<byte>, p: nat, insert: seq<byte>, i: Inode) {
    && |img| >= p + 76 + |insert| && DecodeInode(en, img[p + 64..p + 76]) == i
    && img[p + 76..p + 76 + |insert|] == insert
  }

  /** The root inode, and the inserted file behind it. */
  lemma SuperRoot(o: Options, root: Ent, t: Tree)
    requires Makes(o, root, t)
    ensures var p := if o.pad then 512 else 0;
            RootHeld(o.en, Image(o, root, t), p, o.insert,
                     Inode(root.mode, root.uid, root.size, root.gid, 0, (p + 76 + RoundUp4(|o.insert|)) / 4))
  {
    hide EncodeSuper, Image, Summed, Makes, EncodeInode, DecodeInode, Body, InodeInRange;
    var crc := o.z.crc(Summed(o, root, t, 0));
    Finished(o, root, t, crc);
    var img, p, s := Image(o, root, t), PadLength(o), SuperOf(o, root, t, crc);
    SuperBytes(o.en, s);
    HoldsAtSlice(img, p, EncodeSuper(o.en, s), 64, 76);
    InodeRoundTrip(o.en, s.root);
    InsertFirst(o, t);
    assert img[p + 76..p + 76 + |o.insert|] == img[p + 76..][..|o.insert|];
  }

  lemma InsertFirst(o: Options, t: Tree)
    ensures |o.insert| <= |Body(o, t)| && Body(o, t)[..|o.insert|] == o.insert
  {
    hide Zeros, DirBytes, DataBytes, ImageSize, Used, RoundUp4;
  }

  // ------------------------------------------------------------ a wrong checksum

  /** cramfsck refuses a finished image as soon as its checksum field holds anything else. */
  lemma WrongChecksumDies(o: Options, root: Ent, t: Tree, w: seq<byte>, fuel: nat)
    requires Makes(o, root, t) && |w| == 4
    ensures var img, p := Image(o, root, t), if o.pad then 512 else 0;
            && |img| >= p + 76
            && (w != img[p + 32..p + 36] ==> Fsck(o.en, o.z, img[..p + 32] + w + img[p + 36..], fuel) == Die(BadCrc))
  {
    hide Put32, Get32, EncodeSuper, DecodeSuper, Image, Summed, Body, Makes, SuperOf, ImageSize, TestFs;
    var crc := o.z.crc(Summed(o, root, t, 0));
    Finished(o, root, t, crc);
    var img, p := Image(o, root, t), PadLength(o);
    if w != img[p + 32..p + 36] {
      var s, c := SuperOf(o, root, t, crc), Get32(o.en, w);
      var bad := img[..p + 32] + w + img[p + 36..];
      WordBack(o.en, w);
      SuperBytes(o.en, s);
      HoldsAtSlice(img, p, EncodeSuper(o.en, s), 32, 36);
      PatchedSuper(o.en, img, p, s, w, c);
      BadSuper(o, root, t, bad, s, c);
      Cleared(img, p, w);
      TestCrcAccepts(o, root, t);
      SizeWord(o, root, t, crc);
      assert ClearCrc(bad, p)[p..|bad|] == ClearCrc(img, p)[p..|img|];
      SummedIs(o, root, t, crc);
      ClearedIs(img, p);
    }
  }

  lemma SizeWord(o: Options, root: Ent, t: Tree, crc: nat)
    ensures SuperOf(o, root, t, crc).size == ImageSize(o, t) && SuperOf(o, root, t, crc).flags == Flags(o)
    ensures SuperOf(o, root, t, crc).crc == crc && Flags(o) % 2 == 1
  {
    RootShift(o);
  }

  lemma ClearedIs(img: seq<byte>, p: nat)
    requires p + SUPER_SIZE <= |img|
    ensures ClearCrc(img, p)[p..|img|] == img[p..p + 32] + [0, 0, 0, 0] + img[p + 36..]
  {
  }

  /** Clearing the field forgets what was in it. */
  lemma Cleared(img: seq<byte>, p: nat, w: seq<byte>)
    requires |w| == 4 && p + SUPER_SIZE <= |img|
    ensures var bad := img[..p + 32] + w + img[p + 36..];
            |bad| == |img| && ClearCrc(bad, p) == ClearCrc(img, p)
  {
    var bad := img[..p + 32] + w + img[p + 36..];
    assert bad[..p + 32] == img[..p + 32] && bad[p + 36..] == img[p + 36..];
  }

  lemma WordBack(en: Endian, w: seq<byte>)
    requires |w| == 4
    ensures Get32(en, w) < 0x1_0000_0000 && Put32(en, Get32(en, w)) == w
  {
    hide Le32, Be32, GetLe32, GetBe32;
    BytesRoundTrip(w);
  }

  lemma PatchedSuper(en: Endian, img: seq<byte>, p: nat, s: Super, w: seq<byte>, c: nat)
    requires SuperInRange(s) && |w| == 4 && p + SUPER_SIZE <= |img|
    requires img[p..p + SUPER_SIZE] == EncodeSuper(en, s) && w == Put32(en, c)
    ensures var bad := img[..p + 32] + w + img[p + 36..];
            |bad| == |img| && bad[p..p + SUPER_SIZE] == EncodeSuper(en, s.(crc := c)) && bad[..p] == img[..p]
  {
    hide Put32, EncodeInode;
    var bad := img[..p + 32] + w + img[p + 36..];
    var b, b' := EncodeSuper(en, s), EncodeSuper(en, s.(crc := c));
    HoldsAtSlice(img, p, b, 0, 32);
    HoldsAtSlice(img, p, b, 36, 76);
    CrcPatch(en, s, c);
    assert bad[p..p + SUPER_SIZE] == img[p..p + 32] + w + img[p + 36..p + 76];
  }

  lemma CrcPatch(en: Endian, s: Super, c: nat)
    requires |s.signature| == 16 && |s.name| == 16
    ensures EncodeSuper(en, s.(crc := c)) == EncodeSuper(en, s)[..32] + Put32(en, c) + EncodeSuper(en, s)[36..]
  {
    hide Put32, EncodeInode;
  }

  /** The superblock is still found and accepted. */
  lemma BadSuper(o: Options, root: Ent, t: Tree, bad: seq<byte>, s: Super, c: nat)
    requires Makes(o, root, t) && s == SuperOf(o, root, t, o.z.crc(Summed(o, root, t, 0))) && c < 0x1_0000_0000
    requires |bad| == ImageSize(o, t) >= PadLength(o) + SUPER_SIZE
    requires bad[PadLength(o)..PadLength(o) + SUPER_SIZE] == EncodeSuper(o.en, s.(crc := c))
    requires bad[..PadLength(o)] == Image(o, root, t)[..PadLength(o)]
    ensures TestSuper(o.en, bad) == Ok((PadLength(o), s.(crc := c)))
  {
    hide Lawful, Image, Summed, EncodeSuper, DecodeSuper, Laid, Width, ValidTree, ImageSize, BlocksWritten, Count;
    CrcFits(o.z, Summed(o, root, t, 0));
    SuperFits(o, root, t, o.z.crc(Summed(o, root, t, 0)));
    SuperRoundTrip(o.en, s.(crc := c));
    ZeroSuper(o.en);
    UsedFits(o, root, t);
    BodyLength(o, t);
    Padding(o, root, t);
    if o.pad {
      forall i: nat | i < SUPER_SIZE ensures bad[i] == 0 {
        assert bad[..PAD_SIZE][i] == Image(o, root, t)[..PAD_SIZE][i];
      }
      assert bad[..SUPER_SIZE] == Zeros(SUPER_SIZE);
    }
  }
}
