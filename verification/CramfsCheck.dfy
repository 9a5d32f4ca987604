/** cramfsck as a function of the image: the superblock tests, the checksum, the recursive walk with
    its running bounds, and the closing bounds checks.  `fuel` bounds the depth of the recursion. */
module CramfsCheck {
  import opened Bytes
  import opened CramfsFormat
  import opened CramfsLayout
  import opened CramfsImage

  datatype Fault =
    | TooShort | NoMagic | Unsupported | SizeTooSmall | NoFiles | BadCrc
    | RootNotDirectory | BadRootOffset | ZeroOffset | EmptyName | BadNameLength | BadInodeOffset
    | NonzeroOffset | ZeroSize | BlockTooLarge | Inflate | WrongBlockSize | WrongLinkSize
    | BogusMode | PipeSize | DataBeforeStart | DirDataGap | DataPastEnd
    | ReadPastEnd | TooDeep

  datatype Result<+T> = Ok(value: T) | Die(fault: Fault)
  {
    predicate IsFailure() { Die? }
    function PropagateFailure<U>(): Result<U> requires Die? { Die(fault) }
    function Extract(): T requires Ok? { value }
  }

  /** `~0UL` */
  const NONE := 0xFFFF_FFFF_FFFF_FFFF

  /** The four global bounds of cramfsck. */
  datatype Bounds = Bounds(startDir: nat, endDir: nat, startData: nat, endData: nat)

  const Fresh := Bounds(NONE, 0, NONE, 0)

  function Max(a: nat, b: nat): nat { if a > b then a else b }

  /** The bytes behind `romfs_read(offset)`. */
  function ReadAt(img: seq<byte>, offset: nat, len: nat): (r: Result<seq<byte>>)
    ensures r.Ok? ==> |r.value| == len
  {
    if offset + len <= |img| then Ok(img[offset..offset + len]) else Die(ReadPastEnd)
  }

  function ReadWord(en: Endian, img: seq<byte>, offset: nat): Result<nat> {
    var s :- ReadAt(img, offset, 4);
    Ok(Get32(en, s))
  }

  /** `uncompress_block`: at most 8192 bytes in and out. */
  function UncompressBlock(z: Zlib, img: seq<byte>, curr: nat, next: nat): Result<seq<byte>> {
    if next < curr || next - curr > 2 * BLOCK then Die(BlockTooLarge)
    else
      var src :- ReadAt(img, curr, next - curr);
      match z.inflate(src)
      case None => Die(Inflate)
      case Some(out) => if |out| > 2 * BLOCK then Die(Inflate) else Ok(out)
  }

  /** One turn of the loop in `do_uncompress`: the bytes of the block at `curr`. */
  function OneBlock(z: Zlib, img: seq<byte>, curr: nat, next: nat, size: nat): (r: Result<seq<byte>>)
    ensures r.Ok? ==> |r.value| == Min(size, BLOCK)
  {
    if curr == next then Ok(Zeros(Min(size, BLOCK)))
    else
      var out :- UncompressBlock(z, img, curr, next);
      if |out| == Min(size, BLOCK) then Ok(out) else Die(WrongBlockSize)
  }

  /** `do_uncompress`: the file's bytes and the new `end_data`. */
  function Uncompress(en: Endian, z: Zlib, img: seq<byte>, offset: nat, curr: nat, size: nat, endData: nat)
    : Result<(seq<byte>, nat)>
    decreases size
  {
    if size == 0 then Ok(([], endData))
    else
      var next :- ReadWord(en, img, offset);
      var out :- OneBlock(z, img, curr, next, size);
      var (rest, end) :- Uncompress(en, z, img, offset + 4, next, size - |out|, Max(endData, next));
      Ok((out + rest, end))
  }

  function DoFile(en: Endian, z: Zlib, img: seq<byte>, i: Inode, b: Bounds): Result<(seq<byte>, Bounds)> {
    var offset := 4 * i.offset;
    if offset == 0 && i.size != 0 then Die(ZeroOffset)
    else if i.size == 0 && offset != 0 then Die(NonzeroOffset)
    else
      var b1 := if offset != 0 then b.(startData := Min(offset, b.startData)) else b;
      var (data, end) :- Uncompress(en, z, img, offset, offset + 4 * BlockCount(i.size), i.size, b1.endData);
      Ok((data, b1.(endData := end)))
  }

  function DoSymlink(en: Endian, z: Zlib, img: seq<byte>, i: Inode, b: Bounds): Result<(seq<byte>, Bounds)> {
    var offset := 4 * i.offset;
    var next :- ReadWord(en, img, offset);
    if offset == 0 then Die(ZeroOffset)
    else if i.size == 0 then Die(ZeroSize)
    else
      var target :- UncompressBlock(z, img, offset + 4, next);
      if |target| != i.size then Die(WrongLinkSize)
      else Ok((target, b.(startData := Min(offset, b.startData), endData := Max(b.endData, next))))
  }

  function DoSpecial(i: Inode, b: Bounds): Result<(seq<byte>, Bounds)> {
    if i.offset != 0 then Die(NonzeroOffset)
    else if IsDevice(i.mode) then Ok(([], b))
    else if IsPipe(i.mode) then if i.size != 0 then Die(PipeSize) else Ok(([], b))
    else Die(BogusMode)
  }

  /** `strlen` of a name that may be padded with NULs. */
  function StrLen(s: seq<byte>): (n: nat)
    ensures n <= |s|
  {
    if s == [] || s[0] == 0 then 0 else 1 + StrLen(s[1..])
  }

  /** `expand_fs`: the entry named `name`, everything below it, and the new bounds. */
  function Expand(en: Endian, z: Zlib, img: seq<byte>, name: seq<byte>, i: Inode, b: Bounds, fuel: nat)
    : Result<(Ent, Tree, Bounds)>
    decreases fuel, 1
  {
    if IsDir(i.mode) then
      var (child, b1) :- DoDirectory(en, z, img, i, b, fuel);
      Ok((Ent(name, i.mode, i.uid, i.gid, i.size, []), child, b1))
    else
      var (data, b1) :- if IsReg(i.mode) then DoFile(en, z, img, i, b)
                        else if IsLnk(i.mode) then DoSymlink(en, z, img, i, b)
                        else DoSpecial(i, b);
      Ok((Ent(name, i.mode, i.uid, i.gid, i.size, data), Nil, b1))
  }

  /** The tests at the head of `do_directory`, then the loop over its entries. */
  function DoDirectory(en: Endian, z: Zlib, img: seq<byte>, i: Inode, b: Bounds, fuel: nat)
    : Result<(Tree, Bounds)>
    decreases fuel, 0
  {
    var offset := 4 * i.offset;
    if offset == 0 && i.size != 0 then Die(ZeroOffset)
    else if fuel == 0 then Die(TooDeep)
    else
      var b1 := if offset != 0 then b.(startDir := Min(offset, b.startDir)) else b;
      Entries(en, z, img, offset, i.size, b1, fuel - 1)
  }

  /** The loop of `do_directory` with `count` bytes of records to go. */
  function Entries(en: Endian, z: Zlib, img: seq<byte>, offset: nat, count: int, b: Bounds, fuel: nat)
    : Result<(Tree, Bounds)>
    decreases fuel, 2 + (if count > 0 then count else 0)
  {
    if count <= 0 then Ok((Nil, b))
    else
      var raw :- ReadAt(img, offset, INODE_SIZE);
      var i := DecodeInode(en, raw);
      var newlen := 4 * i.namelen;
      var padded :- ReadAt(img, offset + INODE_SIZE, newlen);
      if newlen == 0 then Die(EmptyName)
      else if newlen - StrLen(padded) > 3 then Die(BadNameLength)
      else
        var (ent, child, b1) :- Expand(en, z, img, padded[..StrLen(padded)], i, b, fuel);
        var offset1 := offset + INODE_SIZE + newlen;
        if offset1 <= b1.startDir then Die(BadInodeOffset)
        else
          var b2 := b1.(endDir := Max(offset1, b1.endDir));
          var (next, b3) :- Entries(en, z, img, offset1, count - INODE_SIZE - newlen, b2, fuel);
          Ok((Node(ent, child, next), b3))
  }

  // ------------------------------------------------------------ the whole program

  /** `test_super`: where the superblock is, and what it says. */
  function TestSuper(en: Endian, img: seq<byte>): (r: Result<(nat, Super)>)
    ensures r.Ok? ==>
      var (start, super) := r.value;
      start + SUPER_SIZE <= |img| && (super.flags % 2 == 1 ==> start <= super.size <= |img|)
  {
    if |img| < SUPER_SIZE then Die(TooShort)
    else
      var first := DecodeSuper(en, img[..SUPER_SIZE]);
      var (start, super) :=
        if first.magic == MAGIC || |img| < PAD_SIZE + SUPER_SIZE then (0, first)
        else (PAD_SIZE, DecodeSuper(en, img[PAD_SIZE..PAD_SIZE + SUPER_SIZE]));
      if super.magic != MAGIC then Die(NoMagic)
      else if super.flags >= 0x800 then Die(Unsupported)
      else if super.size < BLOCK then Die(SizeTooSmall)
      else if super.flags % 2 == 1 && super.files == 0 then Die(NoFiles)
      else if super.flags % 2 == 1 && |img| < super.size then Die(TooShort)
      else Ok((start, super))
  }

  /** The image with the checksum field of the superblock at `start` cleared. */
  function ClearCrc(img: seq<byte>, start: nat): (r: seq<byte>)
    requires start + SUPER_SIZE <= |img|
    ensures |r| == |img|
  {
    img[..start + 32] + Zeros(4) + img[start + 36..]
  }

  /** `test_crc`; images of the old format carry no checksum. */
  function TestCrc(z: Zlib, img: seq<byte>, start: nat, super: Super): bool
    requires start + SUPER_SIZE <= |img|
    requires super.flags % 2 == 1 ==> start <= super.size <= |img|
  {
    super.flags % 2 == 1
    ==> z.crc(ClearCrc(img, start)[start..super.size]) == super.crc
  }

  /** `test_fs`: the walk from the root inode and the closing bounds checks. */
  function TestFs(en: Endian, z: Zlib, img: seq<byte>, start: nat, super: Super, fuel: nat): Result<(Ent, Tree)> {
    var root := super.root;
    var offset := 4 * root.offset;
    if !IsDir(root.mode) then Die(RootNotDirectory)
    else if super.flags / FLAG_SHIFTED % 2 == 0 && offset != SUPER_SIZE && offset != PAD_SIZE + SUPER_SIZE
    then Die(BadRootOffset)
    else
      var (ent, tree, b) :- Expand(en, z, img, [], root, Fresh, fuel);
      if b.startData != NONE && b.startData < SUPER_SIZE + start then Die(DataBeforeStart)
      else if b.startData != NONE && b.endDir != b.startData then Die(DirDataGap)
      else if super.flags % 2 == 1 && b.endData > super.size then Die(DataPastEnd)
      else Ok((ent, tree))
  }

  /** cramfsck -x: the extracted tree, or the reason for giving up. */
  function Fsck(en: Endian, z: Zlib, img: seq<byte>, fuel: nat): Result<(Ent, Tree)> {
    var (start, super) :- TestSuper(en, img);
    if !TestCrc(z, img, start, super) then Die(BadCrc)
    else TestFs(en, z, img, start, super, fuel)
  }
}
