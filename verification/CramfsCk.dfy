/** cramfsck itself: the double-sized read buffer, the running bounds kept in global variables, and the
    recursive extraction.  Every method computes what the functions of CramfsCheck say. */
module CramfsCk {
  import opened Bytes
  import opened CramfsFormat
  import opened CramfsLayout
  import opened CramfsImage
  import opened CramfsCheck

  const BUFFER_SIZE := 8192

  class Checker {
    const en: Endian
    const z: Zlib
    const img: seq<byte>
    const readBuffer: array<byte>
    var readBufferBlock: int
    var startDir: nat
    var endDir: nat
    var startData: nat
    var endData: nat

    /** The buffer holds the two halves that start at `readBufferBlock`, as far as the file goes. */
    ghost predicate Valid()
      reads this, readBuffer
    {
      && readBuffer.Length == 2 * BUFFER_SIZE && -1 <= readBufferBlock
      && (readBufferBlock >= 0 ==>
            forall i :: 0 <= i < 2 * BUFFER_SIZE && readBufferBlock * BUFFER_SIZE + i < |img| ==>
              readBuffer[i] == img[readBufferBlock * BUFFER_SIZE + i])
    }

    function Limits(): Bounds
      reads this
    {
      Bounds(startDir, endDir, startData, endData)
    }

    constructor (en: Endian, z: Zlib, img: seq<byte>)
      ensures Valid() && fresh(readBuffer) && this.en == en && this.z == z && this.img == img && Limits() == Fresh
    {
      this.en, this.z, this.img := en, z, img;
      readBuffer := new byte[2 * BUFFER_SIZE](_ => 0);
      readBufferBlock := -1;
      startDir, endDir, startData, endData := NONE, 0, NONE, 0;
    }

    /** How much of the file there is from `offset` on, up to what one read guarantees. */
    function Available(offset: nat): nat {
      if offset >= |img| then 0 else Min(|img| - offset, BUFFER_SIZE)
    }

    /** Makes at least 8192 bytes from `offset` on available, and returns where they are in the buffer. */
    method RomfsRead(offset: nat) returns (p: nat)
      requires Valid() && offset <= |img|
      modifies readBuffer, this`readBufferBlock
      ensures Valid() && p + BUFFER_SIZE <= readBuffer.Length
      ensures readBuffer[p..p + Available(offset)] == img[offset..offset + Available(offset)]
    {
      var block := offset / BUFFER_SIZE;
      if block != readBufferBlock {
        readBufferBlock := block;
        var i := 0;
        while i < 2 * BUFFER_SIZE && block * BUFFER_SIZE + i < |img|
          invariant 0 <= i <= 2 * BUFFER_SIZE && readBufferBlock == block
          invariant forall k :: 0 <= k < i ==> block * BUFFER_SIZE + k < |img| && readBuffer[k] == img[block * BUFFER_SIZE + k]
        {
          readBuffer[i] := img[block * BUFFER_SIZE + i];
          i := i + 1;
        }
      }
      p := offset % BUFFER_SIZE;
      assert offset == block * BUFFER_SIZE + p;
      var a, b := readBuffer[p..p + Available(offset)], img[offset..offset + Available(offset)];
      forall k | 0 <= k < Available(offset) ensures a[k] == b[k] {
        assert readBuffer[p + k] == img[readBufferBlock * BUFFER_SIZE + (p + k)];
      }
    }

    /** `len` bytes through the buffer. */
    method Fetch(offset: nat, len: nat) returns (r: Result<seq<byte>>)
      requires Valid() && len <= BUFFER_SIZE
      modifies readBuffer, this`readBufferBlock
      ensures Valid() && r == ReadAt(img, offset, len)
    {
      if offset + len > |img| {
        return Die(ReadPastEnd);
      }
      var p := RomfsRead(offset);
      assert readBuffer[p..p + len] == readBuffer[p..p + Available(offset)][..len];
      assert img[offset..offset + len] == img[offset..offset + Available(offset)][..len];
      r := Ok(readBuffer[p..p + len]);
    }

    method FetchWord(offset: nat) returns (r: Result<nat>)
      requires Valid()
      modifies readBuffer, this`readBufferBlock
      ensures Valid() && r == ReadWord(en, img, offset)
    {
      var s := Fetch(offset, 4);
      r := if s.Die? then Die(s.fault) else Ok(Get32(en, s.value));
    }

    method Uncompress1(curr: nat, next: nat) returns (r: Result<seq<byte>>)
      requires Valid()
      modifies readBuffer, this`readBufferBlock
      ensures Valid() && r == UncompressBlock(z, img, curr, next)
    {
      if next < curr || next - curr > 2 * BLOCK {
        return Die(BlockTooLarge);
      }
      var src := Fetch(curr, next - curr);
      if src.Die? {
        return Die(src.fault);
      }
      match z.inflate(src.value)
      case None => r := Die(Inflate);
      case Some(out) => r := if |out| > 2 * BLOCK then Die(Inflate) else Ok(out);
    }

    /** The block loop of one file; `end_data` is a global that grows with every pointer read. */
    method DoUncompress(offset0: nat, size0: nat) returns (r: Result<seq<byte>>)
      requires Valid()
      modifies readBuffer, this`readBufferBlock, this`endData
      ensures Valid()
      ensures var spec := Uncompress(en, z, img, offset0, offset0 + 4 * BlockCount(size0), size0, old(endData));
              if spec.Ok? then r == Ok(spec.value.0) && endData == spec.value.1 else r == Die(spec.fault)
    {
      hide ReadWord, OneBlock, UncompressBlock;
      var offset: nat, size: nat := offset0, size0;
      var curr: nat := offset + 4 * BlockCount(size);
      var data: seq<byte> := [];
      ghost var spec := Uncompress(en, z, img, offset, curr, size, endData);
      Joined([], [], spec);
      while size > 0
        invariant Valid()
        invariant var now := Uncompress(en, z, img, offset, curr, size, endData);
                  if now.Ok? then spec == Ok((data + now.value.0, now.value.1)) else spec == Die(now.fault)
      {
        var next := FetchWord(offset);
        if next.Die? {
          return Die(next.fault);
        }
        ghost var end0 := endData;
        if next.value > endData {
          endData := next.value;
        }
        offset := offset + 4;
        var out: seq<byte>;
        if curr == next.value {
          out := Zeros(if size < BLOCK then size else BLOCK);
        } else {
          var block := Uncompress1(curr, next.value);
          if block.Die? {
            OneBlockDies(z, img, curr, next.value, size);
            return Die(block.fault);
          }
          out := block.value;
          if |out| != (if size >= BLOCK then BLOCK else size) {
            OneBlockWrong(z, img, curr, next.value, size);
            return Die(WrongBlockSize);
          }
        }
        OneBlockGood(z, img, curr, next.value, size, out);
        Joined(data, out, Uncompress(en, z, img, offset, next.value, size - |out|, endData));
        data := data + out;
        size := size - |out|;
        curr := next.value;
      }
      assert data + [] == data;
      r := Ok(data);
    }

    method DoFileData(i: Inode) returns (r: Result<seq<byte>>)
      requires Valid()
      modifies readBuffer, this`readBufferBlock, this`startData, this`endData
      ensures Valid()
      ensures var spec := DoFile(en, z, img, i, old(Limits()));
              if spec.Ok? then r == Ok(spec.value.0) && Limits() == spec.value.1 else r == Die(spec.fault)
    {
      var offset := 4 * i.offset;
      if offset == 0 && i.size != 0 {
        return Die(ZeroOffset);
      }
      if i.size == 0 && offset != 0 {
        return Die(NonzeroOffset);
      }
      if offset != 0 && offset < startData {
        startData := offset;
      }
      if i.size > 0 {
        r := DoUncompress(offset, i.size);
      } else {
        r := Ok([]);
      }
    }

    method DoSymlinkTarget(i: Inode) returns (r: Result<seq<byte>>)
      requires Valid()
      modifies readBuffer, this`readBufferBlock, this`startData, this`endData
      ensures Valid()
      ensures var spec := DoSymlink(en, z, img, i, old(Limits()));
              if spec.Ok? then r == Ok(spec.value.0) && Limits() == spec.value.1 else r == Die(spec.fault)
    {
      hide UncompressBlock, ReadWord;
      var offset := 4 * i.offset;
      var curr := offset + 4;
      var next := FetchWord(offset);
      if next.Die? {
        return Die(next.fault);
      }
      if offset == 0 {
        return Die(ZeroOffset);
      }
      if i.size == 0 {
        return Die(ZeroSize);
      }
      if offset < startData {
        startData := offset;
      }
      if next.value > endData {
        endData := next.value;
      }
      r := Uncompress1(curr, next.value);
      if r.Ok? && |r.value| != i.size {
        r := Die(WrongLinkSize);
      }
    }

    method DoSpecialInode(i: Inode) returns (r: Result<seq<byte>>)
      ensures var spec := DoSpecial(i, Limits());
              if spec.Ok? then r == Ok(spec.value.0) && Limits() == spec.value.1 else r == Die(spec.fault)
    {
      if i.offset != 0 {
        return Die(NonzeroOffset);
      }
      if IsDevice(i.mode) {
        r := Ok([]);
      } else if IsPipe(i.mode) {
        r := if i.size != 0 then Die(PipeSize) else Ok([]);
      } else {
        r := Die(BogusMode);
      }
    }

    /** Extracts one entry and, for a directory, all below it. */
    method ExpandFs(name: seq<byte>, i: Inode, fuel: nat) returns (r: Result<(Ent, Tree)>)
      requires Valid()
      modifies readBuffer, this`readBufferBlock, this`startDir, this`endDir, this`startData, this`endData
      ensures Valid()
      ensures var spec := Expand(en, z, img, name, i, old(Limits()), fuel);
              if spec.Ok? then r == Ok((spec.value.0, spec.value.1)) && Limits() == spec.value.2 else r == Die(spec.fault)
      decreases fuel, 1, 0
    {
      hide DoFile, DoSymlink, DoSpecial;
      var data: Result<seq<byte>>;
      if IsDir(i.mode) {
        var children := DoDirectoryEntries(i, fuel);
        return if children.Die? then Die(children.fault)
               else Ok((Ent(name, i.mode, i.uid, i.gid, i.size, []), children.value));
      } else if IsReg(i.mode) {
        data := DoFileData(i);
      } else if IsLnk(i.mode) {
        data := DoSymlinkTarget(i);
      } else {
        data := DoSpecialInode(i);
      }
      r := if data.Die? then Die(data.fault) else Ok((Ent(name, i.mode, i.uid, i.gid, i.size, data.value), Nil));
    }

    /** Walks the records of one directory.  The children are collected in order and linked at the end. */
    method DoDirectoryEntries(i: Inode, fuel: nat) returns (r: Result<Tree>)
      requires Valid()
      modifies readBuffer, this`readBufferBlock, this`startDir, this`endDir, this`startData, this`endData
      ensures Valid()
      ensures var spec := DoDirectory(en, z, img, i, old(Limits()), fuel);
              if spec.Ok? then r == Ok(spec.value.0) && Limits() == spec.value.1 else r == Die(spec.fault)
      decreases fuel, 0, 0
    {
      hide ReadAt, Expand, DecodeInode, StrLen;
      var count: int := i.size;
      var offset: nat := 4 * i.offset;
      if offset == 0 && count != 0 {
        return Die(ZeroOffset);
      }
      if fuel == 0 {
        return Die(TooDeep);
      }
      if offset != 0 && offset < startDir {
        startDir := offset;
      }
      var found: seq<(Ent, Tree)> := [];
      ghost var spec := Entries(en, z, img, offset, count, Limits(), fuel - 1);
      while count > 0
        invariant Valid()
        invariant var now := Entries(en, z, img, offset, count, Limits(), fuel - 1);
                  if now.Ok? then spec == Ok((Link(found, now.value.0), now.value.1)) else spec == Die(now.fault)
        decreases count
      {
        var raw := Fetch(offset, INODE_SIZE);
        if raw.Die? {
          return Die(raw.fault);
        }
        var child := DecodeInode(en, raw.value);
        NameFits(en, raw.value);
        var newlen := 4 * child.namelen;
        var size := INODE_SIZE + newlen;
        var padded := Fetch(offset + INODE_SIZE, newlen);
        if padded.Die? {
          return Die(padded.fault);
        }
        if newlen == 0 {
          return Die(EmptyName);
        }
        var len := StrLen(padded.value);
        if newlen - len > 3 {
          return Die(BadNameLength);
        }
        var one := ExpandFs(padded.value[..len], child, fuel - 1);
        if one.Die? {
          return Die(one.fault);
        }
        if offset + size <= startDir {
          return Die(BadInodeOffset);
        }
        LinkMore(found, one.value, Entries(en, z, img, offset + size, count - size,
                                           Limits().(endDir := Max(offset + size, endDir)), fuel - 1));
        count := count - size;
        offset := offset + size;
        if offset > endDir {
          endDir := offset;
        }
        found := found + [one.value];
      }
      r := Ok(Link(found, Nil));
    }

    /** `test_fs`. */
    method TestFsMain(start: nat, super: Super, fuel: nat) returns (r: Result<(Ent, Tree)>)
      requires Valid() && Limits() == Fresh
      modifies readBuffer, this`readBufferBlock, this`startDir, this`endDir, this`startData, this`endData
      ensures r == TestFs(en, z, img, start, super, fuel)
    {
      hide Expand;
      var offset := 4 * super.root.offset;
      if !IsDir(super.root.mode) {
        return Die(RootNotDirectory);
      }
      if super.flags / FLAG_SHIFTED % 2 == 0 && offset != SUPER_SIZE && offset != PAD_SIZE + SUPER_SIZE {
        return Die(BadRootOffset);
      }
      r := ExpandFs([], super.root, fuel);
      if r.Die? {
        return;
      }
      if startData != NONE {
        if startData < SUPER_SIZE + start {
          return Die(DataBeforeStart);
        }
        if endDir != startData {
          return Die(DirDataGap);
        }
      }
      if super.flags % 2 == 1 {
        if endData > super.size {
          return Die(DataPastEnd);
        }
      }
    }
  }

  /** The extracted siblings, linked in order. */
  function Link(found: seq<(Ent, Tree)>, rest: Tree): Tree {
    if found == [] then rest else Node(found[0].0, found[0].1, Link(found[1..], rest))
  }

  lemma {:induction false} LinkMore(found: seq<(Ent, Tree)>, one: (Ent, Tree), rest: Result<(Tree, Bounds)>)
    ensures rest.Ok? ==> Link(found + [one], rest.value.0) == Link(found, Node(one.0, one.1, rest.value.0))
    decreases found
  {
    if found != [] {
      LinkMore(found[1..], one, rest);
      assert (found + [one])[1..] == found[1..] + [one];
    }
  }

  /** A name never needs more than one read of the buffer. */
  lemma NameFits(en: Endian, raw: seq<byte>)
    requires |raw| == INODE_SIZE
    ensures DecodeInode(en, raw).namelen < 64
  {
    BytesRoundTrip(raw[8..12]);
  }

  /** cramfsck -x as a program; `fuel` bounds the depth of directories it goes into. */
  method Run(en: Endian, z: Zlib, img: seq<byte>, fuel: nat) returns (r: Result<(Ent, Tree)>)
    ensures r == Fsck(en, z, img, fuel)
  {
    var head := TestSuper(en, img);
    if head.Die? {
      return Die(head.fault);
    }
    var (start, super) := head.value;
    if !TestCrc(z, img, start, super) {
      return Die(BadCrc);
    }
    var k := new Checker(en, z, img);
    r := k.TestFsMain(start, super, fuel);
  }

  lemma OneBlockDies(z: Zlib, img: seq<byte>, curr: nat, next: nat, size: nat)
    requires curr != next && UncompressBlock(z, img, curr, next).Die?
    ensures OneBlock(z, img, curr, next, size) == Die(UncompressBlock(z, img, curr, next).fault)
  {
  }

  lemma OneBlockWrong(z: Zlib, img: seq<byte>, curr: nat, next: nat, size: nat)
    requires curr != next && UncompressBlock(z, img, curr, next).Ok?
    requires |UncompressBlock(z, img, curr, next).value| != Min(size, BLOCK)
    ensures OneBlock(z, img, curr, next, size) == Die(WrongBlockSize)
  {
  }

  lemma OneBlockGood(z: Zlib, img: seq<byte>, curr: nat, next: nat, size: nat, out: seq<byte>)
    requires if curr == next then out == Zeros(Min(size, BLOCK))
             else UncompressBlock(z, img, curr, next) == Ok(out) && |out| == Min(size, BLOCK)
    ensures OneBlock(z, img, curr, next, size) == Ok(out)
  {
  }

  lemma Joined(data: seq<byte>, out: seq<byte>, rest: Result<(seq<byte>, nat)>)
    ensures rest.Ok? ==> data + (out + rest.value.0) == (data + out) + rest.value.0
    ensures rest.Ok? ==> [] + rest.value.0 == rest.value.0
  {
  }
}
