/** The `main` of mkcramfs: scan, size the buffer, drop duplicates, write, checksum. */
module MkCramfsMain {
  import opened Bytes
  import opened CramfsFormat
  import opened CramfsLayout
  import opened CramfsImage
  import opened CramfsRecords
  import opened CramfsEntry
  import opened MkCramfs

  /** `MAXFSLEN` */
  const MAX_IMAGE := 4 * (OFFSET_LIMIT - 1) + SIZE_LIMIT - 1 + SIZE_LIMIT * 4 / BLOCK

  // ------------------------------------------------------------ ghost set-up

  /** The offset of every record. */
  ghost function PosMap(e: Entry?, f: Forest): map<Entry, nat> {
    if f.FNil? || e == null then map[]
    else (PosMap(e.child, f.child) + PosMap(e.next, f.next))[e := f.pos]
  }

  lemma {:induction false} PosMapKeys(e: Entry?, f: Forest)
    requires Rep(e, Erase(f))
    ensures PosMap(e, f).Keys == Reach(e, f)
    ensures forall x :: x in Reach(e, f) <==> x in Pre(e, Erase(f))
  {
    match f
    case FNil =>
    case FNode(_, _, _, c, n) =>
      PosMapKeys(e.child, c);
      PosMapKeys(e.next, n);
      assert Pre(e, Erase(f)) == [e] + Pre(e.child, Erase(c)) + Pre(e.next, Erase(n));
  }

  lemma {:induction false} PosMapPlaces(e: Entry?, f: Forest, m: map<Entry, nat>)
    requires Rep(e, Erase(f)) && Distinct(Pre(e, Erase(f)))
    requires forall x | x in PosMap(e, f) :: x in m && m[x] == PosMap(e, f)[x]
    ensures Placed(e, f, m)
  {
    match f
    case FNil =>
    case FNode(_, _, _, c, n) =>
      DistinctParts(e, Pre(e.child, Erase(c)), Pre(e.next, Erase(n)));
      PosMapKeys(e.child, c);
      PosMapKeys(e.next, n);
      hide Distinct, Pre, Reach;
      assert forall x | x in PosMap(e.child, c) :: x in PosMap(e, f) && PosMap(e, f)[x] == PosMap(e.child, c)[x];
      assert forall x | x in PosMap(e.next, n) :: x in PosMap(e, f) && PosMap(e, f)[x] == PosMap(e.next, n)[x];
      PosMapPlaces(e.child, c, m);
      PosMapPlaces(e.next, n, m);
  }

  lemma {:induction false} LayEven(z: Zlib, holes: bool, t: Tree, p: nat, q: nat, s: Store)
    requires q % 4 == 0 && s.end % 4 == 0 && forall d | d in s.where :: s.where[d] % 4 == 0
    ensures OffsetsEven(Lay(z, holes, t, p, q, s))
    ensures var s' := StoreTree(z, holes, t, s); s'.end % 4 == 0 && forall d | d in s'.where :: s'.where[d] % 4 == 0
  {
    hide Width, Total, ChunkSize;
    match t
    case Nil =>
    case Node(e, c, n) =>
      var s1 := StoreEnt(z, holes, e, s);
      ChunkLength(Little, z, holes, e.data, s.end);
      Aligned(s.end, ChunkSize(z, holes, e.data));
      TotalSplits(c);
      Aligned(q, Width(c));
      Aligned(q, Total(c));
      LayEven(z, holes, c, q, q + Width(c), s1);
      LayEven(z, holes, n, p + e.RecordSize(), q + Total(c), StoreTree(z, holes, c, s1));
  }

  // ------------------------------------------------------------ putting the image together

  /** The parts of the finished buffer, and nothing else, make the image. */
  lemma Assemble(r: seq<byte>, pad: seq<byte>, super: seq<byte>, insert: seq<byte>, dirs: seq<byte>, data: seq<byte>, k: nat)
    requires var at := |pad| + |super| + |insert|;
             && at + |dirs| + |data| + k <= |r|
             && r[..|pad|] == pad && r[|pad|..|pad| + |super|] == super && r[|pad| + |super|..at] == insert
             && HoldsAt(r, at, dirs) && HoldsAt(r, at + |dirs|, data) && ZeroFrom(r, at + |dirs| + |data|)
    ensures r[..|pad| + |super| + |insert| + |dirs| + |data| + k]
            == pad + (super + (insert + dirs + data + Zeros(k)))
  {
    hide ZeroFrom, HoldsAt, Zeros;
    var x1, x2 := |pad| + |super|, |pad| + |super| + |insert|;
    var x3, x4 := x2 + |dirs|, x2 + |dirs| + |data|;
    var size := x4 + k;
    CutAt(r, 0, |pad|, size); CutAt(r, |pad|, x1, size); CutAt(r, x1, x2, size);
    CutAt(r, x2, x3, size); CutAt(r, x3, x4, size);
    TailZero(r, x4, size);
    HoldsSlice(r, x2, dirs); HoldsSlice(r, x3, data);
    Assoc(insert + dirs, data, Zeros(k)); Assoc(insert, dirs, data + Zeros(k));
    FromZero(r, |pad|); FromZero(r, size);
  }

  lemma FromZero(r: seq<byte>, n: nat)
    requires n <= |r|
    ensures r[0..n] == r[..n]
  {
  }

  lemma TailZero(r: seq<byte>, a: nat, b: nat)
    requires a <= b <= |r| && ZeroFrom(r, a)
    ensures r[a..b] == Zeros(b - a)
  {
  }

  /** What the two passes leave in the buffer around the space for the superblock. */
  ghost predicate Filled(o: Options, t: Tree, r: seq<byte>) {
    && ImageSize(o, t) <= |r| && SUPER_SIZE + PadLength(o) <= |r|
    && r[..PadLength(o)] == Zeros(PadLength(o))
    && DirStart(o) <= |r|
    && r[PadLength(o) + SUPER_SIZE..DirStart(o)] == o.insert + Zeros(RoundUp4(|o.insert|) - |o.insert|)
    && HoldsAt(r, DirStart(o), DirBytes(o.en, Laid(o, t)))
    && HoldsAt(r, DataStart(o, t).end, DataBytes(o.en, o.z, o.holes, t, DataStart(o, t)))
    && ZeroFrom(r, Used(o, t))
  }

  lemma FilledIs(o: Options, t: Tree, r: seq<byte>, super: seq<byte>)
    requires Filled(o, t, r) && |super| == SUPER_SIZE && r[PadLength(o)..PadLength(o) + SUPER_SIZE] == super
    ensures ImageSize(o, t) <= |r| && r[..ImageSize(o, t)] == Zeros(PadLength(o)) + (super + Body(o, t))
    ensures r[PadLength(o)..ImageSize(o, t)] == super + Body(o, t)
  {
    hide DirBytes, DataBytes, ImageSize, Used, HoldsAt, ZeroFrom, Laid;
    var s := DataStart(o, t);
    BodyLength(o, t);
    DataLength(o.en, o.z, o.holes, t, s);
    UsedIs(o, t);
    Assemble(r, Zeros(PadLength(o)), super, o.insert + Zeros(RoundUp4(|o.insert|) - |o.insert|),
             DirBytes(o.en, Laid(o, t)), DataBytes(o.en, o.z, o.holes, t, s), ImageSize(o, t) - Used(o, t));
    assert r[PadLength(o)..ImageSize(o, t)] == r[..ImageSize(o, t)][PadLength(o)..];
  }

  lemma UsedIs(o: Options, t: Tree)
    ensures Used(o, t) == StoreTree(o.z, o.holes, t, DataStart(o, t)).end <= ImageSize(o, t)
  {
  }

  /** Writing in the superblock does not disturb the rest. */
  lemma FilledSplice(o: Options, t: Tree, r: seq<byte>, at: nat, b: seq<byte>)
    requires Filled(o, t, r) && PadLength(o) <= at && at + |b| <= PadLength(o) + SUPER_SIZE
    ensures Filled(o, t, Splice(r, at, b))
  {
    hide DirBytes, DataBytes, ImageSize, Used, HoldsAt, Laid;
    var r' := Splice(r, at, b);
    BodyLength(o, t);
    SpliceHolds(r, at, b, DirStart(o), DirBytes(o.en, Laid(o, t)));
    SpliceHolds(r, at, b, DataStart(o, t).end, DataBytes(o.en, o.z, o.holes, t, DataStart(o, t)));
    assert r'[..PadLength(o)] == r[..PadLength(o)];
    assert r'[PadLength(o) + SUPER_SIZE..DirStart(o)] == r[PadLength(o) + SUPER_SIZE..DirStart(o)];
  }

  /** After the padding and the inserted file, before the directory pass. */
  ghost predicate Started(o: Options, r: seq<byte>) {
    && DirStart(o) <= |r| && ZeroFrom(r, DirStart(o))
    && r[..PadLength(o)] == Zeros(PadLength(o))
    && r[PadLength(o) + SUPER_SIZE..DirStart(o)] == o.insert + Zeros(RoundUp4(|o.insert|) - |o.insert|)
  }

  lemma StartedAfterInsert(o: Options, length: nat)
    requires DirStart(o) <= length
    ensures Started(o, Splice(Zeros(length), PadLength(o) + SUPER_SIZE, o.insert))
  {
    var r := Splice(Zeros(length), PadLength(o) + SUPER_SIZE, o.insert);
    assert r[..PadLength(o)] == Zeros(PadLength(o));
    InsertedSlice(length, PadLength(o) + SUPER_SIZE, o.insert, DirStart(o));
  }

  lemma InsertedSlice(length: nat, at: nat, b: seq<byte>, end: nat)
    requires at + |b| <= end <= length
    ensures Splice(Zeros(length), at, b)[at..end] == b + Zeros(end - at - |b|)
  {
  }

  /** The buffer after the directory pass is ready for the data pass. */
  lemma ReadyForData(o: Options, t: Tree, r: seq<byte>, r0: seq<byte>, masked: set<nat>)
    requires ValidTree(t)
    requires Started(o, r0) && Untouched(r, r0, DirStart(o), DirStart(o) + Total(t))
    requires Written(o.en, r, Flat(Laid(o, t)), masked)
    requires Contiguous(Flat(Laid(o, t)), DirStart(o), DirStart(o) + Total(t))
    ensures DataState(o.en, r, Flat(Laid(o, t)), DirStart(o), DirStart(o) + Total(t), masked, DirStart(o) + Total(t))
  {
    hide Written, Contiguous, Laid, Total, ValidTree, DirStart, Flat;
    var end := DirStart(o) + Total(t);
    DataStartEven(o, t);
    forall i | end <= i < |r| ensures r[i] == 0 {
      assert r[i] == r[end..][i - end] == r0[end..][i - end] == r0[i];
    }
  }

  /** Both passes together. */
  lemma FilledAfter(o: Options, t: Tree, r: seq<byte>, r1: seq<byte>, r0: seq<byte>, masked: set<nat>)
    requires ValidTree(t) && Lawful(o.z) && ImageSize(o, t) <= |r|
    requires Started(o, r0) && Untouched(r1, r0, DirStart(o), DirStart(o) + Total(t))
    requires DataState(o.en, r, Flat(Laid(o, t)), DirStart(o), DirStart(o) + Total(t), {}, Used(o, t))
    requires Kept(r, r1, DirStart(o), DirStart(o) + Total(t), DirStart(o) + Total(t))
    requires HoldsAt(r, DirStart(o) + Total(t), DataBytes(o.en, o.z, o.holes, t, DataStart(o, t)))
    ensures Filled(o, t, r)
    ensures OffsetsFit(Laid(o, t))
  {
    hide Contiguous, DataBytes, Laid, DirBytes, ImageSize, Used, RecBytes, Flat, Splice, InRecs, OffsetsFit, Started,
         Kept, Untouched, Zeros, DirStart, Total, DataStart, HoldsAt, ValidTree, Lawful, RoundUp4, ZeroFrom;
    var f := Laid(o, t);
    assert Written(o.en, r, Flat(f), {}) && Contiguous(Flat(f), DirStart(o), DirStart(o) + Total(t));
    hide Written;
    DataStartEnd(o, t);
    PrefixKept(o, t, r, r1, r0);
    WrittenDone(o.en, r, Flat(f), DirStart(o), DirStart(o) + Total(t));
    FlatBytes(o.en, f);
    UsedIs(o, t);
    FlatInRecs(f, Flat(f));
    OffsetsFitRecs(f, Flat(f));
  }

  lemma DataStartEnd(o: Options, t: Tree)
    ensures DataStart(o, t).end == DirStart(o) + Total(t) && DataStart(o, t).where == map[]
    ensures DirStart(o) == PadLength(o) + SUPER_SIZE + RoundUp4(|o.insert|)
  {
  }

  lemma PrefixKept(o: Options, t: Tree, r: seq<byte>, r1: seq<byte>, r0: seq<byte>)
    requires Started(o, r0) && Untouched(r1, r0, DirStart(o), DirStart(o) + Total(t))
    requires Kept(r, r1, DirStart(o), DirStart(o) + Total(t), DirStart(o) + Total(t))
    ensures DirStart(o) <= |r| && PadLength(o) + SUPER_SIZE <= |r|
    ensures r[..PadLength(o)] == Zeros(PadLength(o))
    ensures r[PadLength(o) + SUPER_SIZE..DirStart(o)] == o.insert + Zeros(RoundUp4(|o.insert|) - |o.insert|)
  {
    hide ZeroFrom;
    forall i | 0 <= i < DirStart(o) ensures r[i] == r0[i] {
      assert r1[i] == r1[..DirStart(o)][i] == r0[..DirStart(o)][i] == r0[i];
    }
    assert r[..PadLength(o)] == r0[..PadLength(o)];
    assert r[PadLength(o) + SUPER_SIZE..DirStart(o)] == r0[PadLength(o) + SUPER_SIZE..DirStart(o)];
  }

  /** Replacing the checksum word of the superblock. */
  lemma ChecksumPatch(o: Options, root: Ent, t: Tree, r: seq<byte>, crc: nat)
    requires PadLength(o) + SUPER_SIZE <= |r|
    requires r[PadLength(o)..PadLength(o) + SUPER_SIZE] == EncodeSuper(o.en, SuperOf(o, root, t, 0))
    ensures Splice(r, PadLength(o) + 32, Put32(o.en, crc))[PadLength(o)..PadLength(o) + SUPER_SIZE]
            == EncodeSuper(o.en, SuperOf(o, root, t, crc))
  {
    hide EncodeInode, Put32, ImageSize, BlocksWritten, Count, Flags, FsName;
    var at := PadLength(o);
    var s0, s1 := SuperOf(o, root, t, 0), SuperOf(o, root, t, crc);
    var b0, b1 := EncodeSuper(o.en, s0), EncodeSuper(o.en, s1);
    var head := Put32(o.en, s0.magic) + Put32(o.en, s0.size) + Put32(o.en, s0.flags) + Put32(o.en, s0.future) + s0.signature;
    var tail := Put32(o.en, s0.edition) + Put32(o.en, s0.blocks) + Put32(o.en, s0.files) + s0.name + EncodeInode(o.en, s0.root);
    assert b0 == head + Put32(o.en, 0) + tail;
    assert b1 == head + Put32(o.en, crc) + tail;
    SpliceMiddle(r, at, head, Put32(o.en, 0), Put32(o.en, crc), tail);
  }

  lemma SpliceMiddle(r: seq<byte>, at: nat, head: seq<byte>, w0: seq<byte>, w1: seq<byte>, tail: seq<byte>)
    requires |w0| == |w1| && HoldsAt(r, at, head + w0 + tail)
    ensures HoldsAt(Splice(r, at + |head|, w1), at, head + w1 + tail)
  {
    hide HoldsAt, Splice;
    HoldsAtSplit3(r, at, head, w0, tail);
    HoldsWithin(r, at + |head|, w0);
    SpliceHolds(r, at + |head|, w1, at, head);
    SpliceHolds(r, at + |head|, w1, at + |head| + |w1|, tail);
    HoldsAtSplit3(Splice(r, at + |head|, w1), at, head, w1, tail);
  }

  /** The tail of `main`: superblock first with a zero checksum, then the checksum over everything after
      the padding. */
  method Finish(k: Maker, root: Ent, size: nat, ghost t: Tree) returns (image: seq<byte>)
    requires Filled(k.o, t, k.rom[..]) && size == ImageSize(k.o, t)
    requires k.totalNodes == 1 + Count(t) && k.totalBlocks == BlocksWritten(k.o.z, k.o.holes, t, DataStart(k.o, t))
    modifies k.rom
    ensures image == Image(k.o, root, t)
  {
    hide Filled, Splice, EncodeSuper, ImageSize, Body, Image, Summed, BlocksWritten, Count;
    var o := k.o;
    var at := PadLength(o);
    ghost var r0 := k.rom[..];
    FilledRoom(o, t, r0);
    var super := Super(MAGIC, size, Flags(o), 0, SIGNATURE, 0, o.edition, k.totalBlocks, k.totalNodes, FsName(o.name),
                       Inode(root.mode, root.uid, root.size, root.gid, 0, DirStart(o) / 4));
    k.Copy(at, EncodeSuper(o.en, super));
    ghost var r1 := k.rom[..];
    FilledSplice(o, t, r0, at, EncodeSuper(o.en, super));
    SpliceSlice(r0, at, EncodeSuper(o.en, super));
    FilledIs(o, t, r1, EncodeSuper(o.en, super));
    ImageIs(o, root, t);
    assert k.rom[at..size] == r1[at..size];
    var crc := o.z.crc(k.rom[at..size]);
    ChecksumPatch(o, root, t, r1, crc);
    FilledSplice(o, t, r1, at + 32, Put32(o.en, crc));
    k.Copy(at + 32, Put32(o.en, crc));
    FilledIs(o, t, k.rom[..], EncodeSuper(o.en, SuperOf(o, root, t, crc)));
    assert k.rom[..size] == k.rom[..][..size];
    image := k.rom[..size];
  }

  lemma FilledRoom(o: Options, t: Tree, r: seq<byte>)
    requires Filled(o, t, r)
    ensures PadLength(o) + SUPER_SIZE <= |r| && ImageSize(o, t) <= |r| && PadLength(o) + SUPER_SIZE <= ImageSize(o, t)
  {
    hide HoldsAt, DirBytes, DataBytes, ZeroFrom, Laid;
    BodyLength(o, t);
  }

  lemma SpliceSlice(r: seq<byte>, at: nat, b: seq<byte>)
    requires at + |b| <= |r|
    ensures Splice(r, at, b)[at..at + |b|] == b
  {
  }

  /** The directory pass and the data pass. */
  method WriteTree(k: Maker, child: Entry?, start: nat, ghost t: Tree, ghost all: seq<Entry>, ghost below: seq<Entry>)
    returns (ok: bool, offset: nat)
    requires Lawful(k.o.z) && ValidTree(t) && Rep(child, t) && below == Pre(child, t) && Distinct(below)
    requires |all| == 1 + Count(t) && all[1..1 + Count(t)] == below && !all[0].ent.HasData() && Deduplicated(all)
    requires Started(k.o, k.rom[..]) && start == DirStart(k.o) && start % 4 == 0
    requires start + Total(t) <= Used(k.o, t) <= ImageSize(k.o, t) <= k.rom.Length
    requires k.totalNodes == 1 && k.totalBlocks == 0
    modifies k, k.rom, all
    ensures ok == OffsetsFit(Laid(k.o, t))
    ensures ok ==> Filled(k.o, t, k.rom[..]) && offset == Used(k.o, t)
    ensures ok ==> k.totalNodes == 1 + Count(t)
                   && k.totalBlocks == BlocksWritten(k.o.z, k.o.holes, t, DataStart(k.o, t))
  {
    hide Lawful, ValidTree, Laid, OffsetsFit, Filled, Written, Contiguous, Placed, Reach, Flat, Linked, Untouched, Started, DataState,
         InRecs, OffsetsEven, Stored, Deduplicated, Kept, HoldsAt, ZeroFrom, Distinct, Pre, Rep, Chosen, Representative,
         StoreTree, Splice, PosMap, DataNodes, DataRecs, BlocksWritten, DataBytes, Total, ImageSize, Count, Width, DirStart,
         DataStart, Used;
    ghost var o, f, m, s := k.o, Laid(k.o, t), PosMap(child, Laid(k.o, t)), DataStart(k.o, t);
    ghost var started := k.rom[..];
    assert forall x | x in below :: x in all;
    LaidFacts(o, t, child, m, below);
    DataStartEnd(o, t);
    UsedIs(o, t);
    ghost var masked: set<nat>;
    ok, offset, masked := k.WriteDirectoryStructure(child, start, f, start + Total(t), m, set x | x in below);
    if !ok {
      return;
    }
    ReadyForData(o, t, k.rom[..], started, masked);
    ghost var listed := k.rom[..];
    StoredNone(all, s);
    if child != null {
      ok, offset := k.WriteData(child, offset, t, start, start + Width(t), s, f, m, all, 1,
                                Flat(f), start, start + Total(t), masked);
      if !ok {
        return;
      }
    } else {
      NothingToStore(o, t, child, f, k.rom[..], masked);
    }
    DataNodesAre(f);
    assert masked - DataNodes(f) == {};
    FilledAfter(o, t, k.rom[..], listed, started, masked);
    FlatCount(f);
    LaidErase(o, t);
  }

  lemma LaidErase(o: Options, t: Tree)
    ensures Erase(Laid(o, t)) == t
  {
    EraseLay(o.z, o.holes, t, DirStart(o), DirStart(o) + Width(t), DataStart(o, t));
  }

  /** mkcramfs on the tree `raw`, whose image has to fit even when the estimate is cut to the maximum.  The image
      is the one the layout functions describe; the program dies exactly when some offset is 2^28 or more.  Every
      store into the buffer is within it. */
  method MakeImage(o: Options, rootEnt: Ent, raw: Tree) returns (ok: bool, image: seq<byte>)
    requires Lawful(o.z) && ValidTree(Parsed(raw)) && IsDir(rootEnt.mode) && rootEnt.data == []
    requires ImageSize(o, Parsed(raw)) <= MAX_IMAGE
    ensures ok == OffsetsFit(Laid(o, Parsed(raw)))
    ensures ok ==> image == Image(o, rootEnt.(size := Width(Parsed(raw))), Parsed(raw))
  {
    hide Lawful, ValidTree, Laid, OffsetsFit, Filled, Started, Deduplicated, Distinct, Pre, Rep, Chosen,
         Splice, BlocksWritten, Total, UpperBound, Image, RoundUpBlock, Parsed, Count, TreeBound, Width, DataStart, Used, ImageSize;
    ghost var t := Parsed(raw);
    image := [];
    var root, ub, below := Scan(o, rootEnt, raw);
    var fslen := RoundUpBlock(ub);
    if fslen > MAX_IMAGE {
      fslen := MAX_IMAGE;
    }
    ghost var all := [root] + below;
    ImageFitsBound(o, t);
    var k := new Maker(o, fslen);
    ImageRoom(o, t);
    k.Copy(PadLength(o) + SUPER_SIZE, o.insert);
    StartedAfterInsert(o, fslen);
    var start := PadLength(o) + SUPER_SIZE + RoundUp4(|o.insert|);
    var offset: nat;
    forall i | 0 <= i < |all| ensures fresh(all[i]) { assert all[i] in all; }
    ok, offset := WriteTree(k, root.child, start, t, all, below);
    if !ok {
      return;
    }
    ImageSizeIs(o, t);
    var size := RoundUpBlock(offset);
    image := Finish(k, root.ent, size, t);
    if fslen < size {
      return false, [];
    }
  }

  /** The directory scan with its estimate of the image size, and the search for duplicates. */
  method Scan(o: Options, rootEnt: Ent, raw: Tree) returns (root: Entry, ub: nat, ghost below: seq<Entry>)
    requires ValidTree(Parsed(raw)) && IsDir(rootEnt.mode) && rootEnt.data == []
    ensures ub == UpperBound(o, Parsed(raw))
    ensures root.ent == rootEnt.(size := Width(Parsed(raw))) && !root.ent.HasData()
    ensures Rep(root.child, Parsed(raw)) && below == Pre(root.child, Parsed(raw)) && Distinct(below)
    ensures |below| == Count(Parsed(raw)) && Deduplicated([root] + below)
    ensures forall x | x in [root] + below :: fresh(x)
  {
    hide ValidTree, Deduplicated, Distinct, Pre, Rep, Chosen, UpperBound, Parsed, Count, TreeBound, Width;
    ghost var t := Parsed(raw);
    ub := SUPER_SIZE + (if o.insert == [] then 0 else |o.insert| + 3) + PadLength(o);
    var child, totalsize;
    child, totalsize, ub, below := ParseDirectory(raw, ub);
    UpperBoundIs(o, t);
    root := new Entry(rootEnt.(size := totalsize), child, null);
    ghost var all := [root] + below;
    assert forall x | x in all :: fresh(x);
    RootTree(root, child, t, all, below);
    EliminateDoubles(root, root, Node(root.ent, t, Nil), Node(root.ent, t, Nil), all);
    DeduplicatedAll(root, child, t, all, below);
  }

  lemma ImageSizeIs(o: Options, t: Tree)
    ensures ImageSize(o, t) == RoundUpBlock(Used(o, t))
  {
  }

  lemma UpperBoundIs(o: Options, t: Tree)
    ensures UpperBound(o, t) == SUPER_SIZE + (if o.insert == [] then 0 else |o.insert| + 3) + PadLength(o) + TreeBound(t)
  {
  }

  /** The root entry on top of what `parse_directory` returned. */
  lemma RootTree(root: Entry, child: Entry?, t: Tree, all: seq<Entry>, below: seq<Entry>)
    requires Rep(child, t) && below == Pre(child, t) && Distinct(below) && root.child == child && root.next == null
    requires root !in below && all == [root] + below
    ensures Rep(root, Node(root.ent, t, Nil)) && Pre(root, Node(root.ent, t, Nil)) == all && Distinct(all)
    ensures |all| == 1 + Count(t) && all[1..1 + Count(t)] == below
  {
    DistinctParts(root, below, []);
    assert all == [root] + below + [];
    assert Pre(root, Node(root.ent, t, Nil)) == [root] + Pre(child, t) + Pre(null, Nil);
  }

  lemma {:induction false} DataSizes(e: Entry?, t: Tree)
    requires Rep(e, t) && ValidTree(t)
    ensures forall x | x in Pre(e, t) :: x.ent.HasData() ==> x.ent.size == |x.ent.data|
  {
    match t
    case Nil =>
    case Node(_, c, n) => DataSizes(e.child, c); DataSizes(e.next, n);
  }

  lemma DeduplicatedAll(root: Entry, child: Entry?, t: Tree, all: seq<Entry>, below: seq<Entry>)
    requires Rep(child, t) && ValidTree(t) && below == Pre(child, t) && all == [root] + below && Distinct(all)
    requires !root.ent.HasData() && forall x | x in all :: x.same == Chosen(all, x)
    ensures Deduplicated(all)
  {
    hide Chosen, Distinct;
    DataSizes(child, t);
    assert forall x | x in all :: x == root || x in below;
  }

  lemma ImageRoom(o: Options, t: Tree)
    requires ImageSize(o, t) <= RoundUpBlock(UpperBound(o, t))
    ensures DirStart(o) + Total(t) <= Used(o, t) <= ImageSize(o, t)
    ensures PadLength(o) + SUPER_SIZE + |o.insert| <= DirStart(o) && DirStart(o) % 4 == 0
  {
    hide Used, StoreTree, Total, Lay, DirBytes, RoundUp4, UpperBound;
    BodyLength(o, t);
    DirStartEven(o);
  }

  lemma DirStartEven(o: Options)
    ensures DirStart(o) % 4 == 0
  {
  }

  /** Everything the two passes require of the laid-out tree. */
  lemma LaidFacts(o: Options, t: Tree, child: Entry?, m: map<Entry, nat>, below: seq<Entry>)
    requires ValidTree(t) && Rep(child, t) && below == Pre(child, t) && Distinct(below) && m == PosMap(child, Laid(o, t))
    ensures var f, start := Laid(o, t), DirStart(o);
            && f == Lay(o.z, o.holes, t, start, start + Width(t), DataStart(o, t))
            && Placed(child, f, m) && Reach(child, f) == (set x | x in below) && Linked(f)
            && Contiguous(Flat(f), start, start + Total(t)) && OffsetsEven(f) && InRecs(f, Flat(f))
  {
    hide Contiguous, Linked, OffsetsEven, InRecs, Flat, Placed, Reach, Pre, PosMap, Distinct, Lay, Total, Width, Below, StoreTree, Rep, ValidTree;
    var start, s := DirStart(o), DataStart(o, t);
    EraseLay(o.z, o.holes, t, start, start + Width(t), s);
    PosMapKeys(child, Laid(o, t));
    PosMapPlaces(child, Laid(o, t), m);
    LayLinked(o.z, o.holes, t, start, start + Width(t), s);
    LayContiguous(o.z, o.holes, t, start, start + Width(t), s);
    TotalSplits(t);
    Aligned(start, Width(t));
    Aligned(start, Total(t));
    LayEven(o.z, o.holes, t, start, start + Width(t), s);
    FlatInRecs(Laid(o, t), Flat(Laid(o, t)));
  }

  lemma StoredNone(all: seq<Entry>, s: Store)
    requires |all| > 0 && !all[0].ent.HasData() && s.where == map[]
    ensures Stored(all, 1, s)
  {
  }

  lemma NothingToStore(o: Options, t: Tree, child: Entry?, f: Forest, r: seq<byte>, masked: set<nat>)
    requires Rep(child, t) && child == null && f == Laid(o, t) && DirStart(o) + Total(t) <= |r|
    ensures Used(o, t) == DirStart(o) + Total(t) && DataNodes(f) == {} && masked - {} == masked
    ensures HoldsAt(r, DirStart(o) + Total(t), DataBytes(o.en, o.z, o.holes, t, DataStart(o, t)))
    ensures BlocksWritten(o.z, o.holes, t, DataStart(o, t)) == 0
    ensures Kept(r, r, DirStart(o), DirStart(o) + Total(t), DirStart(o) + Total(t))
  {
  }
}
