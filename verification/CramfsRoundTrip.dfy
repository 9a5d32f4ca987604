/** cramfsck accepts every image that mkcramfs lays out and rebuilds the same tree from it. */
module CramfsRoundTrip {
  import opened Bytes
  import opened CramfsFormat
  import opened CramfsLayout
  import opened CramfsImage
  import opened CramfsCheck

  lemma ReadHeld(img: seq<byte>, offset: nat, s: seq<byte>)
    requires HoldsAt(img, offset, s)
    ensures ReadAt(img, offset, |s|) == Ok(s)
  {
  }

  lemma ReadPut(en: Endian, img: seq<byte>, offset: nat, n: nat)
    requires n < 0x1_0000_0000 && HoldsAt(img, offset, Put32(en, n))
    ensures ReadWord(en, img, offset) == Ok(n)
  {
    ReadHeld(img, offset, Put32(en, n));
    GetPut32(en, n);
  }

  // ------------------------------------------------------------ file data

  lemma OneBlockBack(z: Zlib, holes: bool, img: seq<byte>, b: seq<byte>, curr: nat)
    requires Lawful(z) && |b| <= BLOCK
    requires HoldsAt(img, curr, Squeeze(z, holes, b))
    ensures OneBlock(z, img, curr, curr + |Squeeze(z, holes, b)|, |b|) == Ok(b)
  {
    if holes && AllZero(b) {
      assert Zeros(|b|) == b;
    } else {
      ReadHeld(img, curr, z.compress(b));
    }
  }

  lemma OneBlockMore(z: Zlib, img: seq<byte>, curr: nat, next: nat, size: nat)
    requires size >= BLOCK
    ensures OneBlock(z, img, curr, next, size) == OneBlock(z, img, curr, next, BLOCK)
  {
  }

  /** The loop of `do_uncompress` gives back what `do_compress` was given, holes or not. */
  lemma {:induction false} UncompressBack(en: Endian, z: Zlib, holes: bool, img: seq<byte>, data: seq<byte>,
                                          offset: nat, curr: nat, endData: nat)
    requires Lawful(z) && data != []
    requires HoldsAt(img, offset, Pointers(en, z, holes, data, curr))
    requires HoldsAt(img, curr, Blocks(z, holes, data))
    requires curr + |Blocks(z, holes, data)| < 0x1_0000_0000
    ensures Uncompress(en, z, img, offset, curr, |data|, endData)
            == Ok((data, Max(endData, curr + |Blocks(z, holes, data)|)))
    decreases |data|
  {
    hide HoldsAt, Squeeze, OneBlock, Lawful, ReadWord;
    if |data| <= BLOCK {
      var next := curr + |Squeeze(z, holes, data)|;
      ReadPut(en, img, offset, next);
      OneBlockBack(z, holes, img, data, curr);
      assert Uncompress(en, z, img, offset + 4, next, 0, Max(endData, next)) == Ok(([], Max(endData, next)));
      assert data + [] == data;
    } else {
      var first, rest := data[..BLOCK], data[BLOCK..];
      var next := curr + |Squeeze(z, holes, first)|;
      HoldsAtSplit(img, offset, Put32(en, next), Pointers(en, z, holes, rest, next));
      HoldsAtSplit(img, curr, Squeeze(z, holes, first), Blocks(z, holes, rest));
      ReadPut(en, img, offset, next);
      OneBlockBack(z, holes, img, first, curr);
      OneBlockMore(z, img, curr, next, |data|);
      UncompressBack(en, z, holes, img, rest, offset + 4, next, Max(endData, next));
      assert first + rest == data;
    }
  }

  /** Both parts of a chunk, without its padding. */
  lemma ChunkParts(en: Endian, z: Zlib, holes: bool, img: seq<byte>, data: seq<byte>, at: nat)
    requires HoldsAt(img, at, Chunk(en, z, holes, data, at))
    ensures HoldsAt(img, at, Pointers(en, z, holes, data, at + 4 * BlockCount(|data|)))
    ensures HoldsAt(img, at + 4 * BlockCount(|data|), Blocks(z, holes, data))
  {
    hide HoldsAt;
    var pointers := Pointers(en, z, holes, data, at + 4 * BlockCount(|data|));
    var blocks := Blocks(z, holes, data);
    PointersSize(en, z, holes, data, at + 4 * BlockCount(|data|));
    HoldsAtSplit3(img, at, pointers, blocks, Zeros(RoundUp4(|pointers + blocks|) - |pointers + blocks|));
  }

  /** One past the last byte of the last block. */
  function DataEnd(z: Zlib, holes: bool, data: seq<byte>, at: nat): nat {
    at + 4 * BlockCount(|data|) + |Blocks(z, holes, data)|
  }

  lemma DataEndFits(z: Zlib, holes: bool, data: seq<byte>, at: nat)
    requires Lawful(z) && |data| < SIZE_LIMIT && at < 4 * OFFSET_LIMIT
    ensures DataEnd(z, holes, data, at) < 0x1_0000_0000
    ensures DataEnd(z, holes, data, at) <= at + ChunkSize(z, holes, data)
  {
    BlocksBound(z, holes, data);
  }

  // ------------------------------------------------------------ one entry

  lemma StrLenPadded(name: seq<byte>, k: nat)
    requires 0 !in name
    ensures StrLen(name + Zeros(k)) == |name|
  {
    if name != [] {
      assert (name + Zeros(k))[1..] == name[1..] + Zeros(k);
      StrLenPadded(name[1..], k);
    }
  }

  /** Reading a record gives the entry's inode and name. */
  lemma RecordRead(en: Endian, img: seq<byte>, e: Ent, child: Tree, pos: nat, at: nat)
    requires ValidEnt(e, child) && at < 4 * OFFSET_LIMIT
    requires HoldsAt(img, pos, e.Record(en, at))
    ensures ReadAt(img, pos, INODE_SIZE).Ok?
    ensures DecodeInode(en, ReadAt(img, pos, INODE_SIZE).value) == e.InodeAt(at)
    ensures 4 * e.InodeAt(at).namelen == RoundUp4(|e.name|) > 0
    ensures ReadAt(img, pos + INODE_SIZE, RoundUp4(|e.name|)) == Ok(e.PaddedName())
    ensures StrLen(e.PaddedName()) == |e.name| && e.PaddedName()[..|e.name|] == e.name
  {
    hide HoldsAt, EncodeInode, DecodeInode;
    HoldsAtSplit(img, pos, EncodeInode(en, e.InodeAt(at)), e.PaddedName());
    ReadHeld(img, pos, EncodeInode(en, e.InodeAt(at)));
    ReadHeld(img, pos + INODE_SIZE, e.PaddedName());
    InodeRoundTrip(en, e.InodeAt(at));
    StrLenPadded(e.name, RoundUp4(|e.name|) - |e.name|);
  }

  /** The bounds after reading the data of `e` at `at`. */
  function AfterData(z: Zlib, holes: bool, e: Ent, at: nat, b: Bounds): (r: Bounds)
    ensures r.startDir == b.startDir && r.endDir == b.endDir
  {
    if e.HasData() then
      b.(startData := Min(at, b.startData), endData := Max(b.endData, DataEnd(z, holes, e.data, at)))
    else b
  }

  lemma FileBack(en: Endian, z: Zlib, holes: bool, img: seq<byte>, e: Ent, at: nat, b: Bounds)
    requires Lawful(z) && ValidEnt(e, Nil) && IsReg(e.mode)
    requires at < 4 * OFFSET_LIMIT && at % 4 == 0 && (if e.HasData() then at > 0 else at == 0)
    requires e.HasData() ==> HoldsAt(img, at, Chunk(en, z, holes, e.data, at))
    ensures DoFile(en, z, img, e.InodeAt(at), b) == Ok((e.data, AfterData(z, holes, e, at, b)))
  {
    hide HoldsAt, Lawful, Chunk, Pointers, Blocks, BlockCount;
    assert 4 * e.InodeAt(at).offset == at;
    if e.HasData() {
      ChunkParts(en, z, holes, img, e.data, at);
      DataEndFits(z, holes, e.data, at);
      hide Uncompress;
      UncompressBack(en, z, holes, img, e.data, at, at + 4 * BlockCount(|e.data|), b.endData);
    }
  }

  lemma LawAt(z: Zlib, b: seq<byte>)
    requires Lawful(z) && |b| <= BLOCK
    ensures 0 < |z.compress(b)| <= |b| + 26 && z.inflate(z.compress(b)) == Some(b)
  {
  }

  /** The single block of a symbolic link; it is not a hole, as a target holds no NUL. */
  lemma LinkChunk(en: Endian, z: Zlib, holes: bool, img: seq<byte>, e: Ent, at: nat)
    requires Lawful(z) && ValidEnt(e, Nil) && IsLnk(e.mode) && at < 4 * OFFSET_LIMIT
    requires HoldsAt(img, at, Chunk(en, z, holes, e.data, at))
    ensures var next := DataEnd(z, holes, e.data, at);
            && ReadWord(en, img, at) == Ok(next)
            && UncompressBlock(z, img, at + 4, next) == Ok(e.data)
  {
    hide HoldsAt, Chunk, Lawful, ReadWord, ReadAt;
    var next := DataEnd(z, holes, e.data, at);
    LawAt(z, e.data);
    ChunkParts(en, z, holes, img, e.data, at);
    DataEndFits(z, holes, e.data, at);
    assert BlockCount(|e.data|) == 1;
    assert e.data[0] != 0;
    assert Blocks(z, holes, e.data) == z.compress(e.data);
    ReadPut(en, img, at, next);
    ReadHeld(img, at + 4, z.compress(e.data));
  }

  lemma LinkBack(en: Endian, z: Zlib, holes: bool, img: seq<byte>, e: Ent, at: nat, b: Bounds)
    requires Lawful(z) && ValidEnt(e, Nil) && IsLnk(e.mode)
    requires 0 < at < 4 * OFFSET_LIMIT && at % 4 == 0
    requires HoldsAt(img, at, Chunk(en, z, holes, e.data, at))
    ensures DoSymlink(en, z, img, e.InodeAt(at), b) == Ok((e.data, AfterData(z, holes, e, at, b)))
  {
    hide HoldsAt, Lawful, Chunk, ReadWord, UncompressBlock, DataEnd;
    assert 4 * e.InodeAt(at).offset == at;
    LinkChunk(en, z, holes, img, e, at);
  }

  // ------------------------------------------------------------ the walk

  /** The bounds after walking the siblings `t` and all below them. */
  function After(z: Zlib, holes: bool, t: Tree, p: nat, q: nat, s: Store, b: Bounds): Bounds {
    match t
    case Nil => b
    case Node(e, c, n) =>
      var s1 := StoreEnt(z, holes, e, s);
      var b1 := if c.Node? then After(z, holes, c, q, q + Width(c), s1, b.(startDir := Min(q, b.startDir)))
                else AfterData(z, holes, e, DataAt(e, s), b);
      After(z, holes, n, p + e.RecordSize(), q + Total(c), StoreTree(z, holes, c, s1),
            b1.(endDir := Max(p + e.RecordSize(), b1.endDir)))
  }

  /** The store hands out word offsets from `lo` on, and every chunk ends by `end`. */
  ghost predicate StoreAligned(z: Zlib, holes: bool, s: Store, lo: nat) {
    && 0 < lo <= s.end && s.end % 4 == 0
    && (s.where == map[] ==> s.end == lo)
    && forall d | d in s.where ::
         lo <= s.where[d] && s.where[d] % 4 == 0 && s.where[d] + ChunkSize(z, holes, d) <= s.end
  }

  lemma StoreAlignedEnt(z: Zlib, holes: bool, e: Ent, s: Store, lo: nat)
    requires StoreAligned(z, holes, s, lo)
    ensures StoreAligned(z, holes, StoreEnt(z, holes, e, s), lo)
    ensures lo <= DataAt(e, s) && DataAt(e, s) % 4 == 0
    ensures s.where == map[] ==> DataAt(e, s) == lo
    ensures e.HasData() ==> StoreEnt(z, holes, e, s).where != map[]
                            && DataAt(e, s) + ChunkSize(z, holes, e.data) <= StoreEnt(z, holes, e, s).end
  {
    var s1 := StoreEnt(z, holes, e, s);
    if e.HasData() { assert e.data in s1.where; }
  }

  lemma {:induction false} StoreAlignedTree(z: Zlib, holes: bool, t: Tree, s: Store, lo: nat)
    requires StoreAligned(z, holes, s, lo)
    ensures StoreAligned(z, holes, StoreTree(z, holes, t, s), lo)
    ensures s.end <= StoreTree(z, holes, t, s).end
    ensures StoreTree(z, holes, t, s).where == map[] ==> s.where == map[]
  {
    hide StoreAligned;
    match t
    case Nil =>
    case Node(e, c, n) =>
      var s1 := StoreEnt(z, holes, e, s);
      StoreAlignedEnt(z, holes, e, s, lo);
      StoreAlignedTree(z, holes, c, s1, lo);
      StoreAlignedTree(z, holes, n, StoreTree(z, holes, c, s1), lo);
  }

  /** Walking down never raises `start_dir`. */
  lemma {:induction false} AfterStartDir(z: Zlib, holes: bool, t: Tree, p: nat, q: nat, s: Store, b: Bounds)
    ensures After(z, holes, t, p, q, s, b).startDir <= b.startDir
  {
    hide AfterData, StoreEnt, StoreTree, DataAt, Width, Total;
    match t
    case Nil =>
    case Node(e, c, n) =>
      var s1 := StoreEnt(z, holes, e, s);
      if c.Node? {
        AfterStartDir(z, holes, c, q, q + Width(c), s1, b.(startDir := Min(q, b.startDir)));
      }
      var b1 := if c.Node? then After(z, holes, c, q, q + Width(c), s1, b.(startDir := Min(q, b.startDir)))
                else AfterData(z, holes, e, DataAt(e, s), b);
      AfterStartDir(z, holes, n, p + e.RecordSize(), q + Total(c), StoreTree(z, holes, c, s1),
                    b1.(endDir := Max(p + e.RecordSize(), b1.endDir)));
  }

  /** One entry, given that its children come back. */
  lemma ExpandBack(en: Endian, z: Zlib, holes: bool, img: seq<byte>, e: Ent, c: Tree, at: nat,
                   b: Bounds, b1: Bounds, fuel: nat)
    requires Lawful(z) && ValidEnt(e, c) && at < 4 * OFFSET_LIMIT && at % 4 == 0
    requires if e.HasData() || c.Node? then at > 0 else at == 0
    requires e.HasData() ==> HoldsAt(img, at, Chunk(en, z, holes, e.data, at))
    requires fuel > 0 && c.Node? ==>
               Entries(en, z, img, at, e.size, b.(startDir := Min(at, b.startDir)), fuel - 1) == Ok((c, b1))
    requires c.Nil? ==> b1 == AfterData(z, holes, e, at, b)
    requires IsDir(e.mode) ==> fuel > 0
    ensures Expand(en, z, img, e.name, e.InodeAt(at), b, fuel) == Ok((e, c, b1))
  {
    hide HoldsAt, Lawful, Chunk, DoFile, DoSymlink;
    assert 4 * e.InodeAt(at).offset == at;
    if IsDir(e.mode) {
      assert e == Ent(e.name, e.mode, e.uid, e.gid, e.size, []);
      if c.Nil? { EntriesNil(en, z, img, 0, b, fuel - 1); }
    } else if IsReg(e.mode) {
      FileBack(en, z, holes, img, e, at, b);
    } else if IsLnk(e.mode) {
      LinkBack(en, z, holes, img, e, at, b);
    }
  }

  /** One turn of the loop in `do_directory`. */
  lemma EntriesStep(en: Endian, z: Zlib, img: seq<byte>, e: Ent, c: Tree, pos: nat, at: nat, count: int,
                    b: Bounds, b1: Bounds, fuel: nat)
    requires ValidEnt(e, c) && at < 4 * OFFSET_LIMIT
    requires HoldsAt(img, pos, e.Record(en, at))
    requires Expand(en, z, img, e.name, e.InodeAt(at), b, fuel) == Ok((e, c, b1))
    requires count > 0 && b1.startDir < pos + e.RecordSize()
    ensures var rest := Entries(en, z, img, pos + e.RecordSize(), count - e.RecordSize(),
                                b1.(endDir := Max(pos + e.RecordSize(), b1.endDir)), fuel);
            Entries(en, z, img, pos, count, b, fuel)
            == if rest.Ok? then Ok((Node(e, c, rest.value.0), rest.value.1)) else Die(rest.fault)
  {
    hide HoldsAt, ReadAt, DecodeInode, Expand, StrLen;
    RecordRead(en, img, e, c, pos, at);
  }

  /** One entry and the rest of its siblings, given that both its children and the rest come back. */
  lemma EntryBack(en: Endian, z: Zlib, holes: bool, img: seq<byte>, t: Tree, pos: nat, at: nat,
                  b: Bounds, b1: Bounds, b2: Bounds, fuel: nat)
    requires Lawful(z) && t.Node? && ValidEnt(t.ent, t.child) && at < 4 * OFFSET_LIMIT && at % 4 == 0
    requires if t.ent.HasData() || t.child.Node? then at > 0 else at == 0
    requires HoldsAt(img, pos, t.ent.Record(en, at))
    requires t.ent.HasData() ==> HoldsAt(img, at, Chunk(en, z, holes, t.ent.data, at))
    requires fuel > 0 && b1.startDir <= pos
    requires t.child.Node? ==>
               Entries(en, z, img, at, Width(t.child), b.(startDir := Min(at, b.startDir)), fuel - 1) == Ok((t.child, b1))
    requires t.child.Nil? ==> b1 == AfterData(z, holes, t.ent, at, b)
    requires Entries(en, z, img, pos + t.ent.RecordSize(), Width(t.next),
                     b1.(endDir := Max(pos + t.ent.RecordSize(), b1.endDir)), fuel) == Ok((t.next, b2))
    ensures Entries(en, z, img, pos, Width(t), b, fuel) == Ok((t, b2))
  {
    hide Lawful, HoldsAt, Chunk, Entries, Expand, AfterData;
    EntFacts(t.ent, t.child);
    ExpandBack(en, z, holes, img, t.ent, t.child, at, b, b1, fuel);
    EntriesStep(en, z, img, t.ent, t.child, pos, at, Width(t), b, b1, fuel);
    assert Width(t) - t.ent.RecordSize() == Width(t.next);
  }

  /** The recursive walk rebuilds exactly the tree that was laid out. */
  lemma {:induction false} WalkBack(en: Endian, z: Zlib, holes: bool, img: seq<byte>, t: Tree,
                                    p: nat, q: nat, s: Store, lo: nat, b: Bounds, fuel: nat)
    requires Lawful(z) && ValidTree(t) && fuel >= Depth(t)
    requires StoreAligned(z, holes, s, lo) && p % 4 == 0 && q % 4 == 0 && q > 0
    requires Holds(en, z, holes, img, Lay(z, holes, t, p, q, s))
    requires OffsetsFit(Lay(z, holes, t, p, q, s))
    requires b.startDir <= p
    ensures Entries(en, z, img, p, Width(t), b, fuel) == Ok((t, After(z, holes, t, p, q, s, b)))
  {
    hide Lawful, HoldsAt, Chunk, StoreAligned, StoreEnt, StoreTree, ValidEnt, AfterData, DataAt, Entries, Expand, After,
         Lay, Holds, OffsetsFit, Total;
    match t
    case Nil =>
      AfterNil(z, holes, p, q, s, b);
      EntriesNil(en, z, img, p, b, fuel);
    case Node(e, c, n) =>
      var s1 := StoreEnt(z, holes, e, s);
      var s2 := StoreTree(z, holes, c, s1);
      var at := AtOf(t, q, s);
      LayNode(en, z, holes, img, t, p, q, s);
      StoreAlignedEnt(z, holes, e, s, lo);
      StoreAlignedTree(z, holes, c, s1, lo);
      LoPositive(z, holes, s, lo);
      EntFacts(e, c);
      TotalSplits(c);
      Aligned(q, Width(c));
      Aligned(q, Total(c));
      Aligned(p, e.RecordSize());
      var b0 := b.(startDir := Min(at, b.startDir));
      var b1 := if c.Node? then After(z, holes, c, q, q + Width(c), s1, b0)
                else AfterData(z, holes, e, at, b);
      AfterDataNone(z, holes, e, at, DataAt(e, s), b);
      if c.Node? {
        WalkBack(en, z, holes, img, c, q, q + Width(c), s1, lo, b0, fuel - 1);
        AfterStartDir(z, holes, c, q, q + Width(c), s1, b0);
      }
      var b2 := b1.(endDir := Max(p + e.RecordSize(), b1.endDir));
      WalkBack(en, z, holes, img, n, p + e.RecordSize(), q + Total(c), s2, lo, b2, fuel);
      EntryBack(en, z, holes, img, t, p, at, b, b1,
                After(z, holes, n, p + e.RecordSize(), q + Total(c), s2, b2), fuel);
      AfterNode(z, holes, t, p, q, s, b, b1);
  }

  lemma AfterNode(z: Zlib, holes: bool, t: Tree, p: nat, q: nat, s: Store, b: Bounds, b1: Bounds)
    requires t.Node?
    requires b1 == if t.child.Node?
                   then After(z, holes, t.child, q, q + Width(t.child), StoreEnt(z, holes, t.ent, s),
                              b.(startDir := Min(q, b.startDir)))
                   else AfterData(z, holes, t.ent, DataAt(t.ent, s), b)
    ensures After(z, holes, t, p, q, s, b)
            == After(z, holes, t.next, p + t.ent.RecordSize(), q + Total(t.child),
                     StoreTree(z, holes, t.child, StoreEnt(z, holes, t.ent, s)),
                     b1.(endDir := Max(p + t.ent.RecordSize(), b1.endDir)))
  {
    hide StoreEnt, StoreTree, AfterData, DataAt;
  }

  /** Offset that the inode of the first entry of `t` carries. */
  function AtOf(t: Tree, q: nat, s: Store): nat
    requires t.Node?
  {
    if t.ent.HasData() then DataAt(t.ent, s) else if t.child.Node? then q else 0
  }

  lemma LayNode(en: Endian, z: Zlib, holes: bool, img: seq<byte>, t: Tree, p: nat, q: nat, s: Store)
    requires t.Node?
    requires Holds(en, z, holes, img, Lay(z, holes, t, p, q, s)) && OffsetsFit(Lay(z, holes, t, p, q, s))
    ensures var at := AtOf(t, q, s);
            && at < 4 * OFFSET_LIMIT
            && HoldsAt(img, p, t.ent.Record(en, at))
            && (t.ent.HasData() ==> HoldsAt(img, at, Chunk(en, z, holes, t.ent.data, at)))
    ensures var s1 := StoreEnt(z, holes, t.ent, s);
            var fc := Lay(z, holes, t.child, q, q + Width(t.child), s1);
            var fn := Lay(z, holes, t.next, p + t.ent.RecordSize(), q + Total(t.child), StoreTree(z, holes, t.child, s1));
            Holds(en, z, holes, img, fc) && OffsetsFit(fc) && Holds(en, z, holes, img, fn) && OffsetsFit(fn)
  {
    hide HoldsAt, Chunk, StoreEnt, StoreTree, DataAt;
  }

  lemma AfterNil(z: Zlib, holes: bool, p: nat, q: nat, s: Store, b: Bounds)
    ensures After(z, holes, Nil, p, q, s, b) == b
  {
  }

  lemma AfterDataNone(z: Zlib, holes: bool, e: Ent, at: nat, at': nat, b: Bounds)
    requires !e.HasData() || at == at'
    ensures AfterData(z, holes, e, at, b) == AfterData(z, holes, e, at', b)
  {
  }

  lemma EntriesNil(en: Endian, z: Zlib, img: seq<byte>, p: nat, b: Bounds, fuel: nat)
    ensures Entries(en, z, img, p, 0, b, fuel) == Ok((Nil, b))
  {
  }

  lemma LoPositive(z: Zlib, holes: bool, s: Store, lo: nat)
    requires StoreAligned(z, holes, s, lo)
    ensures lo > 0
  {
  }

  lemma EntFacts(e: Ent, c: Tree)
    requires ValidEnt(e, c)
    ensures c.Node? ==> IsDir(e.mode) && !e.HasData()
    ensures IsDir(e.mode) ==> e.size == Width(c)
    ensures e.RecordSize() % 4 == 0 && e.RecordSize() > 0
  {
  }

  // ------------------------------------------------------------ the closing bounds checks

  /** `end_dir` ends up one past the last record. */
  lemma {:induction false} AfterEndDir(z: Zlib, holes: bool, t: Tree, p: nat, q: nat, s: Store, b: Bounds)
    requires q >= p + Width(t)
    ensures After(z, holes, t, p, q, s, b).endDir
            == if t.Nil? then b.endDir else Max(b.endDir, if Below(t) > 0 then q + Below(t) else p + Width(t))
  {
    hide After, AfterData, StoreEnt, StoreTree, DataAt, Total;
    match t
    case Nil => AfterNil(z, holes, p, q, s, b);
    case Node(e, c, n) =>
      var s1 := StoreEnt(z, holes, e, s);
      var b0 := b.(startDir := Min(q, b.startDir));
      var b1 := if c.Node? then After(z, holes, c, q, q + Width(c), s1, b0)
                else AfterData(z, holes, e, DataAt(e, s), b);
      TotalSplits(c);
      if c.Node? { AfterEndDir(z, holes, c, q, q + Width(c), s1, b0); }
      AfterNode(z, holes, t, p, q, s, b, b1);
      AfterEndDir(z, holes, n, p + e.RecordSize(), q + Total(c), StoreTree(z, holes, c, s1),
                  b1.(endDir := Max(p + e.RecordSize(), b1.endDir)));
  }

  /** `start_data` ends up at the start of the data region exactly when something was stored there,
      and `end_data` never passes its end. */
  lemma {:induction false} AfterDataBounds(z: Zlib, holes: bool, t: Tree, p: nat, q: nat, s: Store, lo: nat, b: Bounds)
    requires Lawful(z) && ValidTree(t) && StoreAligned(z, holes, s, lo) && lo < NONE
    requires b.startData == (if s.where == map[] then NONE else lo) && b.endData <= s.end
    ensures var r, s' := After(z, holes, t, p, q, s, b), StoreTree(z, holes, t, s);
            r.startData == (if s'.where == map[] then NONE else lo) && r.endData <= s'.end
  {
    hide Lawful, StoreAligned, StoreEnt, DataAt, AfterData, ValidEnt, Width, Total;
    match t
    case Nil =>
    case Node(e, c, n) =>
      var s1 := StoreEnt(z, holes, e, s);
      var s2 := StoreTree(z, holes, c, s1);
      var b0 := b.(startDir := Min(q, b.startDir));
      var b1 := if c.Node? then After(z, holes, c, q, q + Width(c), s1, b0)
                else AfterData(z, holes, e, DataAt(e, s), b);
      EntFacts(e, c);
      StoreAlignedEnt(z, holes, e, s, lo);
      StoreAlignedTree(z, holes, c, s1, lo);
      EntDataBounds(z, holes, e, s, lo, b);
      if c.Node? { AfterDataBounds(z, holes, c, q, q + Width(c), s1, lo, b0); }
      AfterDataBounds(z, holes, n, p + e.RecordSize(), q + Total(c), s2, lo,
                      b1.(endDir := Max(p + e.RecordSize(), b1.endDir)));
  }

  lemma EntStoreNone(z: Zlib, holes: bool, e: Ent, s: Store)
    ensures !e.HasData() ==> StoreEnt(z, holes, e, s) == s
    ensures s.end <= StoreEnt(z, holes, e, s).end
  {
  }

  lemma StoreAlignedEmpty(z: Zlib, holes: bool, s: Store, lo: nat)
    requires StoreAligned(z, holes, s, lo)
    ensures s.where == map[] ==> s.end == lo
  {
  }

  lemma EntDataBounds(z: Zlib, holes: bool, e: Ent, s: Store, lo: nat, b: Bounds)
    requires Lawful(z) && StoreAligned(z, holes, s, lo) && lo < NONE
    requires b.startData == (if s.where == map[] then NONE else lo) && b.endData <= s.end
    ensures var r, s1 := AfterData(z, holes, e, DataAt(e, s), b), StoreEnt(z, holes, e, s);
            r.startData == (if s1.where == map[] then NONE else lo) && r.endData <= s1.end
    ensures !e.HasData() ==> StoreEnt(z, holes, e, s) == s
  {
    hide Lawful, StoreAligned, StoreEnt, DataAt, BlockCount, Blocks;
    EntStoreNone(z, holes, e, s);
    StoreAlignedEnt(z, holes, e, s, lo);
    StoreAlignedEmpty(z, holes, s, lo);
    assert DataEnd(z, holes, e.data, DataAt(e, s)) <= DataAt(e, s) + ChunkSize(z, holes, e.data);
  }

  // ------------------------------------------------------------ the superblock

  /** What the command line and the tree must satisfy for mkcramfs to finish: fields in range, and no
      offset refused by `set_data_offset`. */
  ghost predicate Makes(o: Options, root: Ent, t: Tree) {
    && Lawful(o.z) && ValidRoot(root, t) && ValidTree(t)
    && o.edition < 0x1_0000_0000 && DirStart(o) < 4 * OFFSET_LIMIT
    && OffsetsFit(Laid(o, t))
  }

  /** Directories start below 2^28 and are narrower than 2^24, so the records end below 2^28 + 2^24. */
  lemma {:induction false} BelowFits(z: Zlib, holes: bool, t: Tree, p: nat, q: nat, s: Store)
    requires ValidTree(t) && OffsetsFit(Lay(z, holes, t, p, q, s))
    ensures q + Below(t) <= Max(q, 4 * OFFSET_LIMIT + SIZE_LIMIT)
  {
    hide StoreEnt, StoreTree, DataAt;
    match t
    case Nil =>
    case Node(e, c, n) =>
      var s1 := StoreEnt(z, holes, e, s);
      TotalSplits(c);
      BelowFits(z, holes, c, q, q + Width(c), s1);
      BelowFits(z, holes, n, p + e.RecordSize(), q + Total(c), StoreTree(z, holes, c, s1));
  }

  lemma {:induction false} DataFits(z: Zlib, holes: bool, t: Tree, p: nat, q: nat, s: Store)
    requires Lawful(z) && ValidTree(t) && OffsetsFit(Lay(z, holes, t, p, q, s))
    ensures StoreTree(z, holes, t, s).end <= Max(s.end, 4 * OFFSET_LIMIT + 2 * SIZE_LIMIT)
  {
    hide Lawful, ChunkSize, StoreEnt, DataAt, ValidEnt;
    match t
    case Nil =>
    case Node(e, c, n) =>
      var s1 := StoreEnt(z, holes, e, s);
      EntFits(z, holes, e, c, s);
      DataFits(z, holes, c, q, q + Width(c), s1);
      DataFits(z, holes, n, p + e.RecordSize(), q + Total(c), StoreTree(z, holes, c, s1));
  }

  lemma EntFits(z: Zlib, holes: bool, e: Ent, c: Tree, s: Store)
    requires Lawful(z) && ValidEnt(e, c) && (e.HasData() ==> DataAt(e, s) < 4 * OFFSET_LIMIT)
    ensures StoreEnt(z, holes, e, s).end <= Max(s.end, 4 * OFFSET_LIMIT + 2 * SIZE_LIMIT)
  {
    ChunkBound(z, holes, e.data);
  }

  lemma {:induction false} CountFits(t: Tree)
    ensures 12 * Count(t) <= Total(t)
  {
    match t
    case Nil =>
    case Node(_, c, n) => CountFits(c); CountFits(n);
  }

  lemma {:induction false} BlocksFit(z: Zlib, holes: bool, t: Tree, s: Store)
    ensures s.end + 4 * BlocksWritten(z, holes, t, s) <= StoreTree(z, holes, t, s).end
  {
    match t
    case Nil =>
    case Node(e, c, n) =>
      var s1 := StoreEnt(z, holes, e, s);
      BlocksFit(z, holes, c, s1);
      BlocksFit(z, holes, n, StoreTree(z, holes, c, s1));
  }

  lemma UsedFits(o: Options, root: Ent, t: Tree)
    requires Makes(o, root, t)
    ensures ImageSize(o, t) < 0x2000_0000
    ensures DataStart(o, t).end <= Used(o, t) <= ImageSize(o, t)
  {
    hide Lawful, ValidTree, Lay, OffsetsFit, StoreTree;
    TotalSplits(t);
    BelowFits(o.z, o.holes, t, DirStart(o), DirStart(o) + Width(t), DataStart(o, t));
    DataFits(o.z, o.holes, t, DirStart(o), DirStart(o) + Width(t), DataStart(o, t));
    BodyLength(o, t);
  }

  lemma SuperFits(o: Options, root: Ent, t: Tree, crc: nat)
    requires Makes(o, root, t) && crc < 0x1_0000_0000
    ensures SuperInRange(SuperOf(o, root, t, crc))
    ensures BLOCK <= ImageSize(o, t)
  {
    hide Lawful, ValidTree, Lay, OffsetsFit, StoreTree, BlocksWritten, Count, Total;
    UsedFits(o, root, t);
    CountFits(t);
    BlocksFit(o.z, o.holes, t, DataStart(o, t));
  }

  /** The bytes of the finished superblock and of the body after it. */
  lemma ImageSlices(o: Options, root: Ent, t: Tree)
    ensures var start, crc := PadLength(o), o.z.crc(Summed(o, root, t, 0));
            var img, super := Image(o, root, t), EncodeSuper(o.en, SuperOf(o, root, t, crc));
            && |img| == ImageSize(o, t) >= start + SUPER_SIZE
            && img[start..start + SUPER_SIZE] == super
            && img[start..] == super + Body(o, t)
            && (o.pad ==> img[..SUPER_SIZE] == Zeros(SUPER_SIZE))
  {
    hide Body, SuperOf, Summed;
    var start, crc := PadLength(o), o.z.crc(Summed(o, root, t, 0));
    var img, super := Image(o, root, t), EncodeSuper(o.en, SuperOf(o, root, t, crc));
    SummedParts(o, root, t, crc);
    BodyLength(o, t);
    assert img[start..] == super + Body(o, t);
    assert img[start..start + SUPER_SIZE] == img[start..][..SUPER_SIZE] == super;
    if o.pad { assert img[..SUPER_SIZE] == Zeros(PAD_SIZE)[..SUPER_SIZE] == Zeros(SUPER_SIZE); }
  }

  lemma SummedParts(o: Options, root: Ent, t: Tree, crc: nat)
    ensures Summed(o, root, t, crc) == EncodeSuper(o.en, SuperOf(o, root, t, crc)) + Body(o, t)
  {
  }

  lemma ZeroSuper(en: Endian)
    ensures DecodeSuper(en, Zeros(SUPER_SIZE)).magic == 0
  {
    var z := Zeros(SUPER_SIZE);
    assert z[0..4] == [0, 0, 0, 0];
  }

  /** `test_super` finds the superblock, behind the padding or not, and accepts it. */
  lemma TestSuperAccepts(o: Options, root: Ent, t: Tree)
    requires Makes(o, root, t)
    ensures var crc := o.z.crc(Summed(o, root, t, 0));
            TestSuper(o.en, Image(o, root, t)) == Ok((PadLength(o), SuperOf(o, root, t, crc)))
  {
    hide Lawful, Image, Summed, EncodeSuper, DecodeSuper, Laid, Width, ValidTree, ImageSize, BlocksWritten, Count;
    var crc := o.z.crc(Summed(o, root, t, 0));
    CrcFits(o.z, Summed(o, root, t, 0));
    SuperFits(o, root, t, crc);
    SuperRoundTrip(o.en, SuperOf(o, root, t, crc));
    ImageSlices(o, root, t);
    ZeroSuper(o.en);
    UsedFits(o, root, t);
    BodyLength(o, t);
  }

  lemma CrcFits(z: Zlib, b: seq<byte>)
    requires Lawful(z)
    ensures z.crc(b) < 0x1_0000_0000
  {
  }

  lemma ClearSuperCrc(en: Endian, s: Super)
    requires |s.signature| == 16 && |s.name| == 16
    ensures var b := EncodeSuper(en, s);
            b[..32] + Zeros(4) + b[36..] == EncodeSuper(en, s.(crc := 0))
  {
    hide EncodeInode, Put32;
    ZeroWord(en);
    var head := Put32(en, s.magic) + Put32(en, s.size) + Put32(en, s.flags) + Put32(en, s.future) + s.signature;
    CrcParts(head, Put32(en, s.crc), Put32(en, s.edition), Put32(en, s.blocks), Put32(en, s.files), s.name,
             EncodeInode(en, s.root), Put32(en, 0));
  }

  lemma ZeroWord(en: Endian)
    ensures Put32(en, 0) == Zeros(4)
  {
  }

  lemma CrcParts(head: seq<byte>, crc: seq<byte>, e: seq<byte>, b: seq<byte>, f: seq<byte>, n: seq<byte>, i: seq<byte>,
                 other: seq<byte>)
    requires |head| == 32 && |crc| == |other| == 4
    ensures var all := head + crc + e + b + f + n + i;
            all[..32] + other + all[36..] == head + other + e + b + f + n + i
  {
    var all := head + crc + e + b + f + n + i;
    assert all == head + crc + (e + b + f + n + i);
    assert head + other + e + b + f + n + i == head + other + (e + b + f + n + i);
  }

  /** The checksum is taken over the image as it was before the checksum was filled in. */
  lemma TestCrcAccepts(o: Options, root: Ent, t: Tree)
    requires Makes(o, root, t)
    ensures var img, crc := Image(o, root, t), o.z.crc(Summed(o, root, t, 0));
            && |img| == ImageSize(o, t) >= PadLength(o) + BLOCK / 2
            && TestCrc(o.z, img, PadLength(o), SuperOf(o, root, t, crc))
  {
    hide Lawful, Image, Summed, EncodeSuper, Body, Laid, Width, ValidTree, ImageSize, BlocksWritten, Count;
    var img, crc := Image(o, root, t), o.z.crc(Summed(o, root, t, 0));
    var start := PadLength(o);
    var b := EncodeSuper(o.en, SuperOf(o, root, t, crc));
    ImageSlices(o, root, t);
    CrcFits(o.z, Summed(o, root, t, 0));
    SuperFits(o, root, t, crc);
    ClearSuperCrc(o.en, SuperOf(o, root, t, crc));
    SummedParts(o, root, t, 0);
    assert SuperOf(o, root, t, crc).(crc := 0) == SuperOf(o, root, t, 0);
    ClearedTail(img, start, b, Body(o, t));
    var cleared := ClearCrc(img, start);
    assert cleared[start..|img|] == cleared[start..] == Summed(o, root, t, 0);
  }

  lemma ClearedTail(img: seq<byte>, start: nat, b: seq<byte>, body: seq<byte>)
    requires start + SUPER_SIZE <= |img| && |b| == SUPER_SIZE && img[start..] == b + body
    ensures ClearCrc(img, start)[start..] == b[..32] + Zeros(4) + b[36..] + body
  {
    assert img[start + 36..] == img[start..][36..] == b[36..] + body;
  }

  // ------------------------------------------------------------ the main theorem

  /** The walk from the root inode, and the bounds it ends with. */
  lemma TestFsAccepts(o: Options, root: Ent, t: Tree, fuel: nat)
    requires Makes(o, root, t) && fuel > Depth(t)
    ensures TestFs(o.en, o.z, Image(o, root, t), PadLength(o),
                   SuperOf(o, root, t, o.z.crc(Summed(o, root, t, 0))), fuel)
            == Ok((root.(name := []), t))
  {
    hide Lawful, Image, Summed, EncodeSuper, Body, ValidTree, Lay, Holds, StoreHeld, OffsetsFit, Width, Total,
         ImageSize, BlocksWritten, Count, After, StoreTree, Entries;
    var p, s := DirStart(o), DataStart(o, t);
    var q := p + Width(t);
    var b := Fresh.(startDir := Min(p, NONE));
    var r := After(o.z, o.holes, t, p, q, s, b);
    TotalSplits(t);
    Aligned(p, Width(t));
    Aligned(p, Total(t));
    ImageHolds(o, root, t);
    UsedFits(o, root, t);
    WalkBack(o.en, o.z, o.holes, Image(o, root, t), t, p, q, s, s.end, b, fuel - 1);
    AfterDataBounds(o.z, o.holes, t, p, q, s, s.end, b);
    AfterEndDir(o.z, o.holes, t, p, q, s, b);
    RootShift(o);
    EmptyTree(o.z, o.holes, t, s);
    assert r.startData != NONE ==> r.startData == s.end == r.endDir;
    assert Expand(o.en, o.z, Image(o, root, t), [], Inode(root.mode, root.uid, root.size, root.gid, 0, p / 4), Fresh, fuel)
        == Ok((root.(name := []), t, r));
  }

  lemma EmptyTree(z: Zlib, holes: bool, t: Tree, s: Store)
    ensures t.Nil? ==> StoreTree(z, holes, t, s) == s
  {
  }

  /** `read_super` accepts the root offset, shifted or not. */
  lemma RootShift(o: Options)
    ensures DirStart(o) % 4 == 0
    ensures Flags(o) / FLAG_SHIFTED % 2 == 0 ==> DirStart(o) == SUPER_SIZE || DirStart(o) == PAD_SIZE + SUPER_SIZE
    ensures Flags(o) % 2 == 1 && Flags(o) < 0x800
  {
  }

  /** cramfsck accepts every image that mkcramfs finishes, and extracts the tree it was made from:
      the same names, types, owners, sizes, sibling order and bytes. */
  lemma RoundTrip(o: Options, root: Ent, t: Tree, fuel: nat)
    requires Makes(o, root, t) && fuel > Depth(t)
    ensures Fsck(o.en, o.z, Image(o, root, t), fuel) == Ok((root.(name := []), t))
  {
    hide Makes, Image, Summed, TestFs, SuperOf, TestCrc;
    TestSuperAccepts(o, root, t);
    TestCrcAccepts(o, root, t);
    TestFsAccepts(o, root, t, fuel);
  }
}
