/** What it means for cramfsck to accept an image: a description of well-formed images that does not walk, and the
    proof that exactly the well-formed images are accepted, with exactly the tree that they hold. */
module CramfsSound {
  import opened Bytes
  import opened CramfsFormat
  import opened CramfsLayout
  import opened CramfsImage
  import opened CramfsCheck

  // ------------------------------------------------------------ what an image holds

  /** The bytes from `from` to `to` stand for `block`: nothing for a block of zeros, a zlib stream of at most 8192 bytes
      otherwise. */
  predicate BlockIs(z: Zlib, img: seq<byte>, from: nat, to: nat, block: seq<byte>) {
    if from == to then AllZero(block)
    else from < to <= |img| && to - from <= 8192 && z.inflate(img[from..to]) == Some(block)
  }

  /** Block `k` of `data` ends where pointer `k` of the table at `table` says, and starts where the block before it
      ends, the first one at `first`. */
  predicate BlockHeld(en: Endian, z: Zlib, img: seq<byte>, table: nat, first: nat, data: seq<byte>, k: nat)
    requires 4096 * k < |data|
  {
    && table + 4 * k + 4 <= |img|
    && BlockIs(z, img, if k == 0 then first else WordAt(en, img, table + 4 * k - 4), WordAt(en, img, table + 4 * k),
               data[4096 * k..Min(4096 * k + 4096, |data|)])
  }

  ghost predicate DataHeld(en: Endian, z: Zlib, img: seq<byte>, table: nat, first: nat, data: seq<byte>) {
    forall k: nat | 4096 * k < |data| :: BlockHeld(en, z, img, table, first, data, k)
  }

  /** `data` is what the inode of a file, a link, a device, a pipe or a socket stands for. */
  ghost predicate ContentHeld(en: Endian, z: Zlib, img: seq<byte>, i: Inode, data: seq<byte>) {
    var at := 4 * i.offset;
    if IsReg(i.mode) then
      && |data| == i.size
      && (at == 0 <==> i.size == 0)
      && DataHeld(en, z, img, at, at + 4 * BlockCount(i.size), data)
    else if IsLnk(i.mode) then
      && |data| == i.size && 0 < i.size <= 8192
      && at != 0 && at + 4 <= |img|
      && LinkIs(z, img, at + 4, WordAt(en, img, at), data)
    else
      data == [] && at == 0 && (IsDevice(i.mode) || (IsPipe(i.mode) && i.size == 0))
  }

  predicate LinkIs(z: Zlib, img: seq<byte>, from: nat, to: nat, target: seq<byte>) {
    from <= to <= |img| && to - from <= 8192 && z.inflate(img[from..to]) == Some(target)
  }

  /** A record at `pos`: the inode, and the name, filled up with at most three bytes of which the first is a NUL. */
  predicate RecordAt(en: Endian, img: seq<byte>, pos: nat, i: Inode, name: seq<byte>) {
    var len := 4 * i.namelen;
    && pos + 12 + len <= |img| && DecodeInode(en, img[pos..pos + 12]) == i
    && 0 < len && |name| <= len <= |name| + 3
    && img[pos + 12..pos + 12 + |name|] == name && (forall k :: 0 <= k < |name| ==> name[k] != 0)
    && (|name| < len ==> img[pos + 12 + |name|] == 0)
  }

  /** The records of a directory in order, each with what is below it. */
  datatype Records = Done | Record(pos: nat, inode: Inode, ent: Ent, below: Records, next: Records)

  function TreeOf(f: Records): Tree {
    match f
    case Done => Nil
    case Record(_, _, e, c, n) => Node(e, TreeOf(c), TreeOf(n))
  }

  /** How many directories deep it goes. */
  function Levels(f: Records): nat {
    match f
    case Done => 0
    case Record(_, i, _, c, n) => Max(if IsDir(i.mode) then 1 + Levels(c) else 0, Levels(n))
  }

  /** One record follows the other from `pos` on, until at least `count` bytes are covered. */
  predicate InRow(f: Records, pos: nat, count: int) {
    match f
    case Done => count <= 0
    case Record(p, i, _, _, n) =>
      count > 0 && p == pos && InRow(n, pos + 12 + 4 * i.namelen, count - 12 - 4 * i.namelen)
  }

  /** `e` has the attributes of the inode, and the records below it or its data are in the image. */
  ghost predicate EntHeld(en: Endian, z: Zlib, img: seq<byte>, i: Inode, e: Ent, below: Records) {
    && e == Ent(e.name, i.mode, i.uid, i.gid, i.size, e.data)
    && if IsDir(i.mode) then
         e.data == [] && (i.offset == 0 ==> i.size == 0) && InRow(below, 4 * i.offset, i.size)
       else
         below == Done && ContentHeld(en, z, img, i, e.data)
  }

  ghost predicate Held(en: Endian, z: Zlib, img: seq<byte>, f: Records) {
    match f
    case Done => true
    case Record(pos, i, e, c, n) =>
      && RecordAt(en, img, pos, i, e.name) && EntHeld(en, z, img, i, e, c)
      && Held(en, z, img, c) && Held(en, z, img, n)
  }

  // ------------------------------------------------------------ the bounds

  predicate Stores(i: Inode) { (IsReg(i.mode) && i.size > 0) || IsLnk(i.mode) }

  /** Where the pointer tables start. */
  function Starts(f: Records): set<nat> {
    match f
    case Done => {}
    case Record(_, i, _, c, n) => (if Stores(i) then {4 * i.offset} else {}) + Starts(c) + Starts(n)
  }

  /** Where the last block of a file or link ends. */
  function LastEnd(en: Endian, img: seq<byte>, i: Inode): nat {
    WordAt(en, img, if IsLnk(i.mode) || i.size == 0 then 4 * i.offset else 4 * i.offset + 4 * ((i.size - 1) / 4096))
  }

  function Ends(en: Endian, img: seq<byte>, f: Records): set<nat> {
    match f
    case Done => {}
    case Record(_, i, _, c, n) =>
      (if Stores(i) then {LastEnd(en, img, i)} else {}) + Ends(en, img, c) + Ends(en, img, n)
  }

  /** Where the records end. */
  function RecordEnds(f: Records): set<nat> {
    match f
    case Done => {}
    case Record(pos, i, _, c, n) => {pos + 12 + 4 * i.namelen} + RecordEnds(c) + RecordEnds(n)
  }

  /** Something that is stored starts where the last record ends, and nothing starts before that. */
  predicate Adjoining(f: Records) {
    && (forall d <- Starts(f), r <- RecordEnds(f) :: r <= d)
    && (Starts(f) != {} ==> exists d :: d in Starts(f) && d in RecordEnds(f))
  }

  // ------------------------------------------------------------ the superblock

  /** The superblock is at `start`: at 0, or behind 512 bytes that do not begin with the magic number. */
  predicate SuperHeld(en: Endian, img: seq<byte>, start: nat) {
    && start + 76 <= |img|
    && (start == 0 || (start == 512 && WordAt(en, img, 0) != 0x28cd3d45))
    && WordAt(en, img, start) == 0x28cd3d45
    && WordAt(en, img, start + 8) < 0x800 && WordAt(en, img, start + 4) >= 4096
  }

  /** An image of version 2 says how long it is, counts at least one file, and its checksum is that of the bytes from
      `start` to this length with its own four bytes zero. */
  predicate SumHeld(en: Endian, z: Zlib, img: seq<byte>, start: nat)
    requires start + 76 <= |img|
  {
    var size := WordAt(en, img, start + 4);
    && WordAt(en, img, start + 44) != 0
    && start + 36 <= size <= |img|
    && WordAt(en, img, start + 32) == z.crc(img[start..start + 32] + [0, 0, 0, 0] + img[start + 36..size])
  }

  /** The root inode: a directory, behind the superblock at one of the two places unless the flag 0x400 is set. */
  predicate RootAt(en: Endian, img: seq<byte>, start: nat)
    requires start + 76 <= |img|
  {
    var i := DecodeInode(en, img[start + 64..start + 76]);
    && IsDir(i.mode)
    && (WordAt(en, img, start + 8) / 0x400 % 2 == 0 ==> 4 * i.offset == 76 || 4 * i.offset == 512 + 76)
  }

  /** The records `f` are what is below the root of a well-formed image. */
  ghost predicate WellFormed(en: Endian, z: Zlib, img: seq<byte>, start: nat, root: Ent, f: Records) {
    && SuperHeld(en, img, start)
    && (WordAt(en, img, start + 8) % 2 == 1 ==> SumHeld(en, z, img, start))
    && RootAt(en, img, start)
    && root.name == []
    && EntHeld(en, z, img, DecodeInode(en, img[start + 64..start + 76]), root, f)
    && Held(en, z, img, f)
    && (forall d <- Starts(f) :: start + 76 <= d)
    && Adjoining(f)
    && (WordAt(en, img, start + 8) % 2 == 1 ==> forall e <- Ends(en, img, f) :: e <= WordAt(en, img, start + 4))
  }

  // ------------------------------------------------------------ data

  lemma OneBlockIs(z: Zlib, img: seq<byte>, curr: nat, next: nat, size: nat, block: seq<byte>)
    ensures OneBlock(z, img, curr, next, size) == Ok(block)
            <==> |block| == Min(size, BLOCK) && BlockIs(z, img, curr, next, block)
  {
    if curr == next && |block| == Min(size, BLOCK) && AllZero(block) {
      assert block == Zeros(Min(size, BLOCK));
    }
  }

  lemma ReadWordIs(en: Endian, img: seq<byte>, at: nat)
    ensures ReadWord(en, img, at) == if at + 4 <= |img| then Ok(WordAt(en, img, at)) else Die(ReadPastEnd)
  {
    hide Get32;
  }

  /** Block `k` behind the first one. */
  lemma BlockShift(en: Endian, z: Zlib, img: seq<byte>, table: nat, first: nat, data: seq<byte>, k: nat)
    requires |data| > 4096 && 4096 * (k + 1) < |data| && table + 4 <= |img|
    ensures BlockHeld(en, z, img, table, first, data, k + 1)
            <==> BlockHeld(en, z, img, table + 4, WordAt(en, img, table), data[4096..], k)
  {
    hide WordAt, BlockIs;
    SliceOfRest(data, 4096, 4096 * k, Min(4096 * k + 4096, |data| - 4096));
    assert table + 4 + 4 * k == table + 4 * (k + 1);
  }

  lemma DataShift(en: Endian, z: Zlib, img: seq<byte>, table: nat, first: nat, data: seq<byte>)
    requires |data| > 4096
    ensures DataHeld(en, z, img, table, first, data)
            <==> BlockHeld(en, z, img, table, first, data, 0)
                 && DataHeld(en, z, img, table + 4, WordAt(en, img, table), data[4096..])
  {
    hide WordAt, BlockIs, BlockHeld;
    var rest := data[4096..];
    if BlockHeld(en, z, img, table, first, data, 0) {
      FirstRead(en, z, img, table, first, data);
      if DataHeld(en, z, img, table, first, data) {
        forall k: nat | 4096 * k < |rest|
          ensures BlockHeld(en, z, img, table + 4, WordAt(en, img, table), rest, k)
        {
          BlockShift(en, z, img, table, first, data, k);
        }
      }
      if DataHeld(en, z, img, table + 4, WordAt(en, img, table), rest) {
        forall k: nat | 4096 * k < |data| ensures BlockHeld(en, z, img, table, first, data, k) {
          if k > 0 { BlockShift(en, z, img, table, first, data, k - 1); }
        }
      }
    }
  }

  lemma FirstRead(en: Endian, z: Zlib, img: seq<byte>, table: nat, first: nat, data: seq<byte>)
    requires data != [] && BlockHeld(en, z, img, table, first, data, 0)
    ensures table + 4 <= |img| && first <= WordAt(en, img, table)
    ensures BlockIs(z, img, first, WordAt(en, img, table), data[..Min(4096, |data|)])
  {
    hide WordAt;
  }

  lemma FirstHeld(en: Endian, z: Zlib, img: seq<byte>, table: nat, first: nat, data: seq<byte>)
    requires data != [] && table + 4 <= |img|
    requires BlockIs(z, img, first, WordAt(en, img, table), data[..Min(4096, |data|)])
    ensures BlockHeld(en, z, img, table, first, data, 0)
  {
    hide WordAt, BlockIs;
  }

  /** The last pointer of the table for `size` bytes. */
  function LastPointer(en: Endian, img: seq<byte>, table: nat, size: nat): nat
    requires size > 0
  {
    WordAt(en, img, table + 4 * ((size - 1) / 4096))
  }

  lemma LastShift(en: Endian, img: seq<byte>, table: nat, size: nat)
    requires size > 4096
    ensures LastPointer(en, img, table, size) == LastPointer(en, img, table + 4, size - 4096)
  {
    hide WordAt;
  }

  /** What is read is held. */
  lemma {:induction false} UncompressSound(en: Endian, z: Zlib, img: seq<byte>, table: nat, curr: nat, size: nat, e: nat)
    requires size > 0 && Uncompress(en, z, img, table, curr, size, e).Ok?
    ensures var (data, end) := Uncompress(en, z, img, table, curr, size, e).value;
            && |data| == size && DataHeld(en, z, img, table, curr, data)
            && curr <= LastPointer(en, img, table, size) && end == Max(e, LastPointer(en, img, table, size))
    decreases size
  {
    hide WordAt, BlockIs, OneBlock, DataHeld, BlockHeld, ReadWord;
    ReadWordIs(en, img, table);
    var next := WordAt(en, img, table);
    var out := OneBlock(z, img, curr, next, size).value;
    OneBlockIs(z, img, curr, next, size, out);
    var (data, end) := Uncompress(en, z, img, table, curr, size, e).value;
    assert |out| == Min(size, 4096);
    assert data[..|out|] == out && out[..Min(4096, |out|)] == out;
    FirstHeld(en, z, img, table, curr, out);
    FirstRead(en, z, img, table, curr, out);
    if size > 4096 {
      UncompressSound(en, z, img, table + 4, next, size - 4096, Max(e, next));
      LastShift(en, img, table, size);
      assert data[4096..] == Uncompress(en, z, img, table + 4, next, size - 4096, Max(e, next)).value.0;
      FirstHeld(en, z, img, table, curr, data);
      DataShift(en, z, img, table, curr, data);
    } else {
      assert Uncompress(en, z, img, table + 4, next, 0, Max(e, next)) == Ok(([], Max(e, next)));
      assert data == out;
      OneBlockData(en, z, img, table, curr, data);
    }
  }

  lemma OneBlockData(en: Endian, z: Zlib, img: seq<byte>, table: nat, first: nat, data: seq<byte>)
    requires 0 < |data| <= 4096
    ensures DataHeld(en, z, img, table, first, data) <==> BlockHeld(en, z, img, table, first, data, 0)
  {
    hide BlockHeld;
  }

  /** What is held is read. */
  lemma {:induction false} UncompressComplete(en: Endian, z: Zlib, img: seq<byte>, table: nat, curr: nat,
                                              data: seq<byte>, e: nat)
    requires data != [] && DataHeld(en, z, img, table, curr, data)
    ensures var last := LastPointer(en, img, table, |data|);
            curr <= last && Uncompress(en, z, img, table, curr, |data|, e) == Ok((data, Max(e, last)))
    decreases |data|
  {
    hide WordAt, BlockIs, OneBlock, DataHeld, BlockHeld, ReadWord;
    if |data| <= 4096 { OneBlockData(en, z, img, table, curr, data); } else { DataShift(en, z, img, table, curr, data); }
    FirstRead(en, z, img, table, curr, data);
    ReadWordIs(en, img, table);
    var next, out := WordAt(en, img, table), data[..Min(4096, |data|)];
    OneBlockIs(z, img, curr, next, |data|, out);
    if |data| > 4096 {
      UncompressComplete(en, z, img, table + 4, next, data[4096..], Max(e, next));
      LastShift(en, img, table, |data|);
      assert data == out + data[4096..];
    } else {
      assert Uncompress(en, z, img, table + 4, next, 0, Max(e, next)) == Ok(([], Max(e, next)));
      assert data == out + [];
    }
  }

  // ------------------------------------------------------------ one inode

  /** The bounds behind the inode of an entry; those of a directory's records are not in yet. */
  function AfterInode(en: Endian, img: seq<byte>, i: Inode, b: Bounds): Bounds {
    if IsDir(i.mode) then if i.offset != 0 then b.(startDir := Min(4 * i.offset, b.startDir)) else b
    else if Stores(i) then
      b.(startData := Min(4 * i.offset, b.startData), endData := Max(b.endData, LastEnd(en, img, i)))
    else b
  }

  /** `do_file`, `do_symlink` or `do_special_inode`. */
  function DoContent(en: Endian, z: Zlib, img: seq<byte>, i: Inode, b: Bounds): Result<(seq<byte>, Bounds)> {
    if IsReg(i.mode) then DoFile(en, z, img, i, b)
    else if IsLnk(i.mode) then DoSymlink(en, z, img, i, b)
    else DoSpecial(i, b)
  }

  lemma FileSound(en: Endian, z: Zlib, img: seq<byte>, i: Inode, b: Bounds)
    requires IsReg(i.mode) && DoFile(en, z, img, i, b).Ok?
    ensures var (data, b') := DoFile(en, z, img, i, b).value;
            ContentHeld(en, z, img, i, data) && b' == AfterInode(en, img, i, b)
  {
    hide WordAt, DataHeld;
    if i.size == 0 {
      NoData(en, z, img, 4 * i.offset, 4 * i.offset);
    } else {
      UncompressSound(en, z, img, 4 * i.offset, 4 * i.offset + 4 * BlockCount(i.size), i.size, b.endData);
    }
  }

  lemma NoData(en: Endian, z: Zlib, img: seq<byte>, table: nat, first: nat)
    ensures DataHeld(en, z, img, table, first, [])
  {
  }

  lemma FileComplete(en: Endian, z: Zlib, img: seq<byte>, i: Inode, data: seq<byte>, b: Bounds)
    requires IsReg(i.mode) && ContentHeld(en, z, img, i, data)
    ensures DoFile(en, z, img, i, b) == Ok((data, AfterInode(en, img, i, b)))
  {
    hide WordAt, DataHeld;
    if i.size > 0 {
      UncompressComplete(en, z, img, 4 * i.offset, 4 * i.offset + 4 * BlockCount(i.size), data, b.endData);
    }
  }

  /** A file, link, device, pipe or socket is read exactly if its content is held. */
  lemma ContentIff(en: Endian, z: Zlib, img: seq<byte>, i: Inode, data: seq<byte>, b: Bounds)
    requires !IsDir(i.mode)
    ensures DoContent(en, z, img, i, b) == Ok((data, AfterInode(en, img, i, b))) <==> ContentHeld(en, z, img, i, data)
    ensures DoContent(en, z, img, i, b).Ok? ==> DoContent(en, z, img, i, b).value.1 == AfterInode(en, img, i, b)
  {
    hide WordAt, DataHeld, DoFile;
    if IsReg(i.mode) {
      if DoFile(en, z, img, i, b).Ok? { FileSound(en, z, img, i, b); }
      if ContentHeld(en, z, img, i, data) { FileComplete(en, z, img, i, data, b); }
    } else if IsLnk(i.mode) {
      LinkIff(en, z, img, i, data, b);
    }
  }

  lemma LinkIff(en: Endian, z: Zlib, img: seq<byte>, i: Inode, data: seq<byte>, b: Bounds)
    requires IsLnk(i.mode)
    ensures DoSymlink(en, z, img, i, b) == Ok((data, AfterInode(en, img, i, b))) <==> ContentHeld(en, z, img, i, data)
    ensures DoSymlink(en, z, img, i, b).Ok? ==> DoSymlink(en, z, img, i, b).value.1 == AfterInode(en, img, i, b)
  {
    hide WordAt, ReadWord, DataHeld;
    ReadWordIs(en, img, 4 * i.offset);
  }

  // ------------------------------------------------------------ one record

  lemma {:induction false} StrLenIs(s: seq<byte>)
    ensures forall k :: 0 <= k < StrLen(s) ==> s[k] != 0
    ensures StrLen(s) < |s| ==> s[StrLen(s)] == 0
  {
    if s != [] && s[0] != 0 {
      StrLenIs(s[1..]);
      forall k | 0 <= k < StrLen(s) ensures s[k] != 0 {
        if k > 0 { assert s[k] == s[1..][k - 1]; }
      }
      if StrLen(s) < |s| { assert s[StrLen(s)] == s[1..][StrLen(s) - 1]; }
    }
  }

  lemma StrLenOnly(s: seq<byte>, n: nat)
    requires n <= |s| && (forall k :: 0 <= k < n ==> s[k] != 0) && (n < |s| ==> s[n] == 0)
    ensures StrLen(s) == n
  {
    StrLenIs(s);
  }

  /** What the loop of `do_directory` sees of a record at `pos`. */
  predicate RecordSeen(en: Endian, img: seq<byte>, pos: nat, i: Inode, name: seq<byte>) {
    var raw, padded := ReadAt(img, pos, INODE_SIZE), ReadAt(img, pos + INODE_SIZE, 4 * i.namelen);
    && raw.Ok? && i == DecodeInode(en, raw.value) && padded.Ok? && i.namelen != 0
    && 4 * i.namelen - StrLen(padded.value) <= 3 && name == padded.value[..StrLen(padded.value)]
  }

  lemma RecordIff(en: Endian, img: seq<byte>, pos: nat, i: Inode, name: seq<byte>)
    ensures RecordSeen(en, img, pos, i, name) <==> RecordAt(en, img, pos, i, name)
  {
    hide DecodeInode;
    var len := 4 * i.namelen;
    if pos + 12 + len <= |img| {
      var padded := img[pos + 12..pos + 12 + len];
      StrLenIs(padded);
      assert forall k :: 0 <= k < len ==> padded[k] == img[pos + 12 + k];
      if |name| <= len { assert padded[..|name|] == img[pos + 12..pos + 12 + |name|]; }
      if RecordAt(en, img, pos, i, name) {
        assert forall k :: 0 <= k < |name| ==> padded[k] == name[k];
        StrLenOnly(padded, |name|);
      }
    }
  }

  // ------------------------------------------------------------ the walk

  /** The bounds behind all records. */
  function After(en: Endian, img: seq<byte>, f: Records, b: Bounds): Bounds {
    match f
    case Done => b
    case Record(pos, i, _, c, n) =>
      var b1 := After(en, img, c, AfterInode(en, img, i, b));
      After(en, img, n, b1.(endDir := Max(pos + 12 + 4 * i.namelen, b1.endDir)))
  }

  /** The walk of an entry found `f` below it. */
  ghost predicate ExpandSaw(en: Endian, z: Zlib, img: seq<byte>, i: Inode, b: Bounds, fuel: nat,
                            r: Result<(Ent, Tree, Bounds)>, name: seq<byte>, f: Records) {
    && r.Ok? && r.value.0.name == name && r.value.1 == TreeOf(f)
    && EntHeld(en, z, img, i, r.value.0, f) && Held(en, z, img, f)
    && (IsDir(i.mode) ==> Levels(f) < fuel)
    && r.value.2 == After(en, img, f, AfterInode(en, img, i, b))
  }

  ghost predicate EntriesSaw(en: Endian, z: Zlib, img: seq<byte>, pos: nat, count: int, b: Bounds, fuel: nat,
                             r: Result<(Tree, Bounds)>, f: Records) {
    && r.Ok? && r.value.0 == TreeOf(f) && InRow(f, pos, count) && Held(en, z, img, f)
    && Levels(f) <= fuel && r.value.1 == After(en, img, f, b)
  }

  /** Whatever an entry expands to is in the image. */
  lemma {:induction false} ExpandSound(en: Endian, z: Zlib, img: seq<byte>, name: seq<byte>, i: Inode, b: Bounds,
                                       fuel: nat) returns (f: Records)
    requires Expand(en, z, img, name, i, b, fuel).Ok?
    ensures ExpandSaw(en, z, img, i, b, fuel, Expand(en, z, img, name, i, b, fuel), name, f)
    decreases fuel, 1
  {
    hide Entries, ContentHeld, DoFile, DoSymlink, DoSpecial, LastEnd;
    if IsDir(i.mode) {
      f := EntriesSound(en, z, img, 4 * i.offset, i.size, AfterInode(en, img, i, b), fuel - 1);
    } else {
      f := Done;
      var data := DoContent(en, z, img, i, b).value.0;
      ContentIff(en, z, img, i, data, b);
    }
  }

  lemma {:induction false} EntriesSound(en: Endian, z: Zlib, img: seq<byte>, pos: nat, count: int, b: Bounds, fuel: nat)
    returns (f: Records)
    requires Entries(en, z, img, pos, count, b, fuel).Ok?
    ensures EntriesSaw(en, z, img, pos, count, b, fuel, Entries(en, z, img, pos, count, b, fuel), f)
    decreases fuel, 2 + (if count > 0 then count else 0)
  {
    hide Expand, Entries, EntHeld, AfterInode, DecodeInode, RecordAt, RecordSeen, ExpandSaw, EntriesSaw;
    if count <= 0 {
      f := Done;
      NoEntries(en, z, img, pos, count, b, fuel);
      SawNone(en, z, img, pos, count, b, fuel);
    } else {
      var i, e, child, b1 := EntriesOk(en, z, img, pos, count, b, fuel);
      RecordIff(en, img, pos, i, e.name);
      var c := ExpandSound(en, z, img, e.name, i, b, fuel);
      var end, rest := pos + INODE_SIZE + 4 * i.namelen, count - INODE_SIZE - 4 * i.namelen;
      var b2 := b1.(endDir := Max(end, b1.endDir));
      var n := EntriesSound(en, z, img, end, rest, b2, fuel);
      f := Record(pos, i, e, c, n);
      SawOne(en, z, img, pos, count, i, e, child, b, b1, fuel, c, n);
    }
  }

  lemma SawNone(en: Endian, z: Zlib, img: seq<byte>, pos: nat, count: int, b: Bounds, fuel: nat)
    requires count <= 0
    ensures EntriesSaw(en, z, img, pos, count, b, fuel, Ok((Nil, b)), Done)
  {
  }

  /** What the loop of `do_directory` does if it does not give up at the record at `pos`. */
  lemma EntriesOk(en: Endian, z: Zlib, img: seq<byte>, pos: nat, count: int, b: Bounds, fuel: nat)
    returns (i: Inode, e: Ent, child: Tree, b1: Bounds)
    requires count > 0 && Entries(en, z, img, pos, count, b, fuel).Ok?
    ensures RecordSeen(en, img, pos, i, e.name) && Expand(en, z, img, e.name, i, b, fuel) == Ok((e, child, b1))
    ensures var end := pos + INODE_SIZE + 4 * i.namelen;
            var r := Entries(en, z, img, end, count - INODE_SIZE - 4 * i.namelen, b1.(endDir := Max(end, b1.endDir)), fuel);
            r.Ok? && Entries(en, z, img, pos, count, b, fuel) == Ok((Node(e, child, r.value.0), r.value.1))
  {
    hide Expand, DecodeInode;
    i := DecodeInode(en, ReadAt(img, pos, INODE_SIZE).value);
    var padded := ReadAt(img, pos + INODE_SIZE, 4 * i.namelen).value;
    var x := Expand(en, z, img, padded[..StrLen(padded)], i, b, fuel).value;
    e, child, b1 := x.0, x.1, x.2;
    ExpandName(en, z, img, padded[..StrLen(padded)], i, b, fuel);
  }

  lemma ExpandName(en: Endian, z: Zlib, img: seq<byte>, name: seq<byte>, i: Inode, b: Bounds, fuel: nat)
    ensures var r := Expand(en, z, img, name, i, b, fuel); r.Ok? ==> r.value.0.name == name
  {
    hide DoDirectory, DoFile, DoSymlink, DoSpecial;
  }

  lemma SawOne(en: Endian, z: Zlib, img: seq<byte>, pos: nat, count: int, i: Inode, e: Ent, child: Tree, b: Bounds,
               b1: Bounds, fuel: nat, c: Records, n: Records)
    requires count > 0 && RecordAt(en, img, pos, i, e.name)
    requires ExpandSaw(en, z, img, i, b, fuel, Ok((e, child, b1)), e.name, c)
    requires var end := pos + INODE_SIZE + 4 * i.namelen;
             var b2 := b1.(endDir := Max(end, b1.endDir));
             var rest := count - INODE_SIZE - 4 * i.namelen;
             EntriesSaw(en, z, img, end, rest, b2, fuel, Entries(en, z, img, end, rest, b2, fuel), n)
    ensures var end := pos + INODE_SIZE + 4 * i.namelen;
            var r := Entries(en, z, img, end, count - INODE_SIZE - 4 * i.namelen, b1.(endDir := Max(end, b1.endDir)), fuel);
            r.Ok?
            && EntriesSaw(en, z, img, pos, count, b, fuel, Ok((Node(e, child, r.value.0), r.value.1)), Record(pos, i, e, c, n))
  {
    hide RecordAt, EntHeld, Entries, AfterInode;
    if !IsDir(i.mode) { NotDeep(en, z, img, i, e, c); }
  }

  lemma NotDeep(en: Endian, z: Zlib, img: seq<byte>, i: Inode, e: Ent, c: Records)
    requires EntHeld(en, z, img, i, e, c) && !IsDir(i.mode)
    ensures c == Done
  {
    hide ContentHeld;
  }

  lemma {:induction false} StartDirFalls(en: Endian, img: seq<byte>, f: Records, b: Bounds)
    ensures After(en, img, f, b).startDir <= b.startDir
  {
    hide LastEnd;
    match f
    case Done =>
    case Record(pos, i, _, c, n) =>
      StartDirFalls(en, img, c, AfterInode(en, img, i, b));
      var b1 := After(en, img, c, AfterInode(en, img, i, b));
      StartDirFalls(en, img, n, b1.(endDir := Max(pos + 12 + 4 * i.namelen, b1.endDir)));
  }

  /** Whatever is in the image is what an entry expands to; that a record ends at or before the first directory is
      never found. */
  lemma {:induction false} ExpandComplete(en: Endian, z: Zlib, img: seq<byte>, i: Inode, e: Ent, f: Records, b: Bounds,
                                          fuel: nat)
    requires EntHeld(en, z, img, i, e, f) && Held(en, z, img, f) && (IsDir(i.mode) ==> Levels(f) < fuel)
    ensures Expand(en, z, img, e.name, i, b, fuel) == Ok((e, TreeOf(f), After(en, img, f, AfterInode(en, img, i, b))))
    decreases f, 1
  {
    hide Entries, ContentHeld, DoFile, DoSymlink, DoSpecial, LastEnd, Held;
    if IsDir(i.mode) {
      EntriesComplete(en, z, img, 4 * i.offset, i.size, f, AfterInode(en, img, i, b), fuel - 1);
    } else {
      ContentIff(en, z, img, i, e.data, b);
    }
  }

  lemma {:induction false} EntriesComplete(en: Endian, z: Zlib, img: seq<byte>, pos: nat, count: int, f: Records,
                                           b: Bounds, fuel: nat)
    requires InRow(f, pos, count) && Held(en, z, img, f) && Levels(f) <= fuel
    requires count > 0 ==> b.startDir <= pos
    ensures Entries(en, z, img, pos, count, b, fuel) == Ok((TreeOf(f), After(en, img, f, b)))
    decreases f, 0
  {
    hide Expand, Entries, EntHeld, DecodeInode, RecordAt, AfterInode, RecordSeen;
    match f
    case Done =>
      NoEntries(en, z, img, pos, count, b, fuel);
    case Record(_, i, e, c, n) =>
      RecordIff(en, img, pos, i, e.name);
      if !IsDir(i.mode) { NotDeep(en, z, img, i, e, c); }
      ExpandComplete(en, z, img, i, e, c, b, fuel);
      StartDirFalls(en, img, c, AfterInode(en, img, i, b));
      InodeStartDir(en, img, i, b);
      var end, b1 := pos + INODE_SIZE + 4 * i.namelen, After(en, img, c, AfterInode(en, img, i, b));
      var b2 := b1.(endDir := Max(end, b1.endDir));
      EntriesComplete(en, z, img, end, count - INODE_SIZE - 4 * i.namelen, n, b2, fuel);
      EntriesTurn(en, z, img, pos, count, i, e, TreeOf(c), b, b1, TreeOf(n), After(en, img, n, b2), fuel);
  }

  lemma NoEntries(en: Endian, z: Zlib, img: seq<byte>, pos: nat, count: int, b: Bounds, fuel: nat)
    requires count <= 0
    ensures Entries(en, z, img, pos, count, b, fuel) == Ok((Nil, b))
  {
  }

  /** One turn of the loop of `do_directory`. */
  lemma EntriesTurn(en: Endian, z: Zlib, img: seq<byte>, pos: nat, count: int, i: Inode, e: Ent, child: Tree, b: Bounds,
                    b1: Bounds, next: Tree, b3: Bounds, fuel: nat)
    requires count > 0 && RecordSeen(en, img, pos, i, e.name)
    requires Expand(en, z, img, e.name, i, b, fuel) == Ok((e, child, b1)) && b1.startDir <= pos
    requires var end := pos + INODE_SIZE + 4 * i.namelen;
             Entries(en, z, img, end, count - INODE_SIZE - 4 * i.namelen, b1.(endDir := Max(end, b1.endDir)), fuel)
             == Ok((next, b3))
    ensures Entries(en, z, img, pos, count, b, fuel) == Ok((Node(e, child, next), b3))
  {
    hide Expand, DecodeInode;
  }

  lemma InodeStartDir(en: Endian, img: seq<byte>, i: Inode, b: Bounds)
    ensures AfterInode(en, img, i, b).startDir <= b.startDir
  {
    hide LastEnd;
  }

  // ------------------------------------------------------------ the bounds are those of the records

  /** `m` is the least of `b` and the set, or the greatest. */
  ghost predicate LeastOf(m: nat, b: nat, s: set<nat>) {
    m <= b && (forall d <- s :: m <= d) && (m == b || m in s)
  }

  ghost predicate MostOf(m: nat, b: nat, s: set<nat>) {
    m >= b && (forall d <- s :: m >= d) && (m == b || m in s)
  }

  /** `start_data` is the least start of a table, `end_dir` the greatest end of a record, and `end_data` the greatest end
      of a file or link. */
  lemma {:induction false} AfterBounds(en: Endian, z: Zlib, img: seq<byte>, f: Records, b: Bounds)
    requires Held(en, z, img, f)
    ensures var a := After(en, img, f, b);
            && LeastOf(a.startData, b.startData, Starts(f)) && MostOf(a.endDir, b.endDir, RecordEnds(f))
            && MostOf(a.endData, b.endData, Ends(en, img, f))
  {
    hide LastEnd, RecordAt, EntHeld, LeastOf, MostOf;
    match f
    case Done =>
      BoundsDone(b);
    case Record(pos, i, e, c, n) =>
      var b0 := AfterInode(en, img, i, b);
      var b1 := After(en, img, c, b0);
      var end := pos + 12 + 4 * i.namelen;
      var b2 := b1.(endDir := Max(end, b1.endDir));
      AfterBounds(en, z, img, c, b0);
      AfterBounds(en, z, img, n, b2);
      InodeBounds(en, img, i, b, end, b1.endDir);
      var a := After(en, img, n, b2);
      var start, stop := if Stores(i) then {4 * i.offset} else {}, if Stores(i) then {LastEnd(en, img, i)} else {};
      LeastThree(b.startData, b0.startData, b1.startData, a.startData, start, Starts(c), Starts(n));
      MostThree(b.endData, b0.endData, b1.endData, a.endData, stop, Ends(en, img, c), Ends(en, img, n));
      MostThree(b.endDir, b1.endDir, b2.endDir, a.endDir, RecordEnds(c), {end}, RecordEnds(n));
      assert RecordEnds(f) == RecordEnds(c) + {end} + RecordEnds(n);
  }

  lemma BoundsDone(b: Bounds)
    ensures LeastOf(b.startData, b.startData, {}) && MostOf(b.endDir, b.endDir, {}) && MostOf(b.endData, b.endData, {})
  {
  }

  lemma InodeBounds(en: Endian, img: seq<byte>, i: Inode, b: Bounds, end: nat, endDir: nat)
    ensures var b0 := AfterInode(en, img, i, b);
            && LeastOf(b0.startData, b.startData, if Stores(i) then {4 * i.offset} else {})
            && MostOf(b0.endData, b.endData, if Stores(i) then {LastEnd(en, img, i)} else {})
            && b0.endDir == b.endDir && MostOf(Max(end, endDir), endDir, {end})
  {
    hide LastEnd;
  }

  lemma LeastThree(b: nat, m0: nat, m1: nat, m2: nat, s0: set<nat>, s1: set<nat>, s2: set<nat>)
    requires LeastOf(m0, b, s0) && LeastOf(m1, m0, s1) && LeastOf(m2, m1, s2)
    ensures LeastOf(m2, b, s0 + s1 + s2)
  {
  }

  lemma MostThree(b: nat, m0: nat, m1: nat, m2: nat, s0: set<nat>, s1: set<nat>, s2: set<nat>)
    requires MostOf(m0, b, s0) && MostOf(m1, m0, s1) && MostOf(m2, m1, s2)
    ensures MostOf(m2, b, s0 + s1 + s2)
  {
  }

  lemma OffsetSmall(en: Endian, s: seq<byte>)
    requires |s| == INODE_SIZE
    ensures DecodeInode(en, s).offset < OFFSET_LIMIT
  {
    hide Get32;
    WordSmall(en, s[8..12]);
  }

  lemma WordSmall(en: Endian, s: seq<byte>)
    requires |s| == 4
    ensures Get32(en, s) < 0x1_0000_0000
  {
    hide Le32, Be32, GetLe32, GetBe32;
    BytesRoundTrip(s);
  }

  lemma {:induction false} StartsSmall(en: Endian, z: Zlib, img: seq<byte>, f: Records)
    requires Held(en, z, img, f)
    ensures forall d <- Starts(f) :: d < NONE
  {
    hide EntHeld, DecodeInode;
    match f
    case Done =>
    case Record(pos, i, e, c, n) =>
      OffsetSmall(en, img[pos..pos + 12]);
      StartsSmall(en, z, img, c);
      StartsSmall(en, z, img, n);
  }

  // ------------------------------------------------------------ the whole program

  /** The closing checks of `test_fs` on the bounds `b`. */
  predicate ClosingChecks(start: nat, checked: bool, size: nat, b: Bounds) {
    && !(b.startData != NONE && b.startData < 76 + start)
    && !(b.startData != NONE && b.endDir != b.startData)
    && !(checked && b.endData > size)
  }

  /** What the closing checks say of the records. */
  lemma ClosingIff(start: nat, checked: bool, size: nat, a: Bounds, starts: set<nat>, recordEnds: set<nat>,
                   ends: set<nat>)
    requires LeastOf(a.startData, NONE, starts) && MostOf(a.endDir, 0, recordEnds) && MostOf(a.endData, 0, ends)
    requires forall d <- starts :: d < NONE
    ensures ClosingChecks(start, checked, size, a) <==>
            && (forall d <- starts :: start + 76 <= d)
            && (forall d <- starts, r <- recordEnds :: r <= d)
            && (starts != {} ==> exists d :: d in starts && d in recordEnds)
            && (checked ==> forall e <- ends :: e <= size)
  {
    if starts == {} {
      assert a.startData == NONE;
    } else {
      var d :| d in starts;
      assert a.startData in starts;
      if (forall d <- starts :: start + 76 <= d) && (forall d <- starts, r <- recordEnds :: r <= d)
         && exists d :: d in starts && d in recordEnds {
        var x :| x in starts && x in recordEnds;
        assert a.startData <= x <= a.endDir && a.endDir in recordEnds;
      }
    }
  }

  /** What `TestSuper` sees at `start`. */
  lemma SuperIff(en: Endian, img: seq<byte>, start: nat)
    requires start + 76 <= |img|
    ensures var s := DecodeSuper(en, img[start..start + 76]);
            && (TestSuper(en, img) == Ok((start, s))
                <==> SuperHeld(en, img, start)
                     && (s.flags % 2 == 1 ==> s.files != 0 && s.size <= |img|))
            && s.size == WordAt(en, img, start + 4) && s.flags == WordAt(en, img, start + 8)
            && s.crc == WordAt(en, img, start + 32) && s.files == WordAt(en, img, start + 44)
            && s.root == DecodeInode(en, img[start + 64..start + 76])
  {
    hide Get32, DecodeInode;
    SuperAt(en, img, start);
    SuperAt(en, img, 0);
  }

  lemma SuperAt(en: Endian, img: seq<byte>, start: nat)
    requires start + 76 <= |img|
    ensures var s := DecodeSuper(en, img[start..start + 76]);
            && s.magic == WordAt(en, img, start)
            && s.size == WordAt(en, img, start + 4) && s.flags == WordAt(en, img, start + 8)
            && s.crc == WordAt(en, img, start + 32) && s.files == WordAt(en, img, start + 44)
            && s.root == DecodeInode(en, img[start + 64..start + 76])
  {
    hide Get32, DecodeInode;
    var b := img[start..start + 76];
    HoldsAtSlice(img, start, b, 0, 4);
    HoldsAtSlice(img, start, b, 4, 8);
    HoldsAtSlice(img, start, b, 8, 12);
    HoldsAtSlice(img, start, b, 32, 36);
    HoldsAtSlice(img, start, b, 44, 48);
    HoldsAtSlice(img, start, b, 64, 76);
  }

  /** The checksum is that of the image with the four bytes of the field zero. */
  lemma ClearedBytes(img: seq<byte>, start: nat, size: nat)
    requires start + 76 <= |img| && start + 36 <= size <= |img|
    ensures ClearCrc(img, start)[start..size] == img[start..start + 32] + [0, 0, 0, 0] + img[start + 36..size]
  {
  }

  lemma TestSuperPlace(en: Endian, img: seq<byte>)
    requires TestSuper(en, img).Ok?
    ensures var (start, s) := TestSuper(en, img).value;
            start + 76 <= |img| && s == DecodeSuper(en, img[start..start + 76])
  {
    hide DecodeSuper;
  }

  /** The superblock and the checksum pass. */
  ghost predicate HeadHeld(en: Endian, z: Zlib, img: seq<byte>, start: nat) {
    && SuperHeld(en, img, start)
    && (WordAt(en, img, start + 8) % 2 == 1 ==> SumHeld(en, z, img, start))
  }

  lemma HeadIff(en: Endian, z: Zlib, img: seq<byte>, start: nat)
    requires start + 76 <= |img|
    ensures var s := DecodeSuper(en, img[start..start + 76]);
            HeadHeld(en, z, img, start) <==> TestSuper(en, img) == Ok((start, s)) && TestCrc(z, img, start, s)
  {
    hide DecodeSuper, WordAt, TestSuper, ClearCrc;
    SuperIff(en, img, start);
    var s := DecodeSuper(en, img[start..start + 76]);
    if SuperHeld(en, img, start) && s.flags % 2 == 1 && s.size <= |img| { ClearedBytes(img, start, s.size); }
  }

  /** The root is a directory at one of its two places, or anywhere if the flag says so. */
  predicate RootPlaced(s: Super) {
    IsDir(s.root.mode) && (s.flags / 0x400 % 2 == 0 ==> 4 * s.root.offset == 76 || 4 * s.root.offset == 512 + 76)
  }

  lemma TestFsIff(en: Endian, z: Zlib, img: seq<byte>, start: nat, s: Super, fuel: nat)
    ensures var r := Expand(en, z, img, [], s.root, Fresh, fuel);
            TestFs(en, z, img, start, s, fuel).Ok?
            <==> RootPlaced(s) && r.Ok? && ClosingChecks(start, s.flags % 2 == 1, s.size, r.value.2)
    ensures TestFs(en, z, img, start, s, fuel).Ok? ==>
              var (root, t, _) := Expand(en, z, img, [], s.root, Fresh, fuel).value;
              TestFs(en, z, img, start, s, fuel) == Ok((root, t))
  {
    hide Expand;
  }

  /** The closing checks on the bounds behind the whole walk. */
  lemma WalkedIff(en: Endian, z: Zlib, img: seq<byte>, start: nat, s: Super, f: Records)
    requires Held(en, z, img, f) && IsDir(s.root.mode)
    ensures ClosingChecks(start, s.flags % 2 == 1, s.size, After(en, img, f, AfterInode(en, img, s.root, Fresh)))
            <==> (forall d <- Starts(f) :: start + 76 <= d) && Adjoining(f)
                 && (s.flags % 2 == 1 ==> forall e <- Ends(en, img, f) :: e <= s.size)
  {
    hide Held, After, LeastOf, MostOf, LastEnd, ClosingChecks, Starts, Ends, RecordEnds;
    var b := AfterInode(en, img, s.root, Fresh);
    AfterBounds(en, z, img, f, b);
    StartsSmall(en, z, img, f);
    ClosingIff(start, s.flags % 2 == 1, s.size, After(en, img, f, b), Starts(f), RecordEnds(f), Ends(en, img, f));
  }

  /** Every image that cramfsck accepts is well-formed, and what it extracts is what the image holds. */
  lemma AcceptedIsWellFormed(en: Endian, z: Zlib, img: seq<byte>, fuel: nat) returns (start: nat, f: Records)
    requires Fsck(en, z, img, fuel).Ok?
    ensures var (root, t) := Fsck(en, z, img, fuel).value;
            WellFormed(en, z, img, start, root, f) && TreeOf(f) == t && Levels(f) < fuel
  {
    hide WordAt, TestSuper, TestCrc, DecodeSuper, SuperHeld, SumHeld, Expand, DecodeInode, EntHeld, Held, After,
      ClosingChecks, TestFs, Adjoining, Starts, Ends, AfterInode;
    TestSuperPlace(en, img);
    start := TestSuper(en, img).value.0;
    var s := DecodeSuper(en, img[start..start + 76]);
    HeadIff(en, z, img, start);
    SuperIff(en, img, start);
    TestFsIff(en, z, img, start, s, fuel);
    f := ExpandSound(en, z, img, [], s.root, Fresh, fuel);
    WalkedIff(en, z, img, start, s, f);
    assert (forall d <- Starts(f) :: start + 76 <= d);
    assert (WordAt(en, img, start + 8) % 2 == 1 ==> forall e <- Ends(en, img, f) :: e <= WordAt(en, img, start + 4));
    assert SuperHeld(en, img, start);
    assert (WordAt(en, img, start + 8) % 2 == 1 ==> SumHeld(en, z, img, start));
  }

  /** Every well-formed image is accepted and extracts to what it holds, if the recursion goes deep enough. */
  lemma WellFormedIsAccepted(en: Endian, z: Zlib, img: seq<byte>, fuel: nat, start: nat, root: Ent, f: Records)
    requires WellFormed(en, z, img, start, root, f) && Levels(f) < fuel
    ensures Fsck(en, z, img, fuel) == Ok((root, TreeOf(f)))
  {
    hide WordAt, TestSuper, TestCrc, DecodeSuper, SuperHeld, SumHeld, Expand, DecodeInode, EntHeld, Held, After,
      ClosingChecks, TestFs, Adjoining, Starts, Ends, AfterInode;
    SuperRoom(en, img, start);
    var s := DecodeSuper(en, img[start..start + 76]);
    HeadIff(en, z, img, start);
    SuperIff(en, img, start);
    TestFsIff(en, z, img, start, s, fuel);
    ExpandComplete(en, z, img, s.root, root, f, Fresh, fuel);
    WalkedIff(en, z, img, start, s, f);
  }

  lemma SuperRoom(en: Endian, img: seq<byte>, start: nat)
    requires SuperHeld(en, img, start)
    ensures start + 76 <= |img|
  {
    hide WordAt;
  }

  /** cramfsck accepts exactly the well-formed images, with exactly the tree they hold. */
  lemma AcceptsExactly(en: Endian, z: Zlib, img: seq<byte>, fuel: nat, root: Ent, t: Tree)
    ensures Fsck(en, z, img, fuel) == Ok((root, t))
            <==> exists start, f :: WellFormed(en, z, img, start, root, f) && TreeOf(f) == t && Levels(f) < fuel
  {
    hide Fsck, WellFormed, TreeOf, Levels;
    if Fsck(en, z, img, fuel) == Ok((root, t)) {
      var start, f := AcceptedIsWellFormed(en, z, img, fuel);
    }
    if exists start, f :: WellFormed(en, z, img, start, root, f) && TreeOf(f) == t && Levels(f) < fuel {
      var start, f :| WellFormed(en, z, img, start, root, f) && TreeOf(f) == t && Levels(f) < fuel;
      WellFormedIsAccepted(en, z, img, fuel, start, root, f);
    }
  }

  /** A wrong checksum: whatever the rest of the image is, it is not accepted. */
  lemma AcceptedChecksum(en: Endian, z: Zlib, img: seq<byte>, fuel: nat)
    requires Fsck(en, z, img, fuel).Ok?
    ensures exists start ::
              && (start == 0 || start == 512) && start + 76 <= |img| && WordAt(en, img, start) == 0x28cd3d45
              && (WordAt(en, img, start + 8) % 2 == 1 ==>
                    && start + 36 <= WordAt(en, img, start + 4) <= |img|
                    && WordAt(en, img, start + 32) == z.crc(img[start..start + 32] + [0, 0, 0, 0]
                                                            + img[start + 36..WordAt(en, img, start + 4)]))
  {
    hide Fsck, WordAt, EntHeld, Held, Adjoining, Starts, Ends, DecodeInode;
    var start, f := AcceptedIsWellFormed(en, z, img, fuel);
  }
}
