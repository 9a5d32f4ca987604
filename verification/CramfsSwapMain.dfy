/** The loops of cramfsswap, proved to compute `Swapped` whatever the byte order of the host. */
module CramfsSwapMain {
  import opened Bytes
  import opened CramfsFormat
  import opened CramfsImage
  import opened CramfsSwap

  /** What the directory pass will have produced, given what it has produced and what is left to list. */
  function Joined(out: seq<byte>, slots: seq<Slot>, remaining: nat, l: Option<Listing>): Option<Listing> {
    match l
    case None => None
    case Some(l) => Some(Listing(out + l.out, slots + l.slots, remaining + l.remaining, l.rest))
  }

  lemma JoinedStep(en: Endian, s: seq<byte>, n: nat, out: seq<byte>, slots: seq<Slot>, remaining: nat)
    requires n > 0 && |s| >= INODE_SIZE && |s| >= RecordLength(en, s)
    ensures var end, i := RecordLength(en, s), DecodeInode(en, s[..INODE_SIZE]);
            Joined(out, slots, remaining, Listed(en, s, n))
            == Joined(out + SwapRecord(en, s[..end]), slots + [Slot(i.size, i.offset)],
                      remaining + (if HasChunk(i) then 1 else 0), Listed(en, s[end..], n - 1))
  {
    hide DecodeInode, SwapRecord, HasChunk;
    var end := RecordLength(en, s);
    var i := DecodeInode(en, s[..INODE_SIZE]);
    assert s[..end][..INODE_SIZE] == s[..INODE_SIZE];
    match Listed(en, s[end..], n - 1)
    case None =>
    case Some(l) =>
      Assoc(out, SwapRecord(en, s[..end]), l.out);
      assert slots + [Slot(i.size, i.offset)] + l.slots == slots + ([Slot(i.size, i.offset)] + l.slots);
  }

  lemma JoinedNone(en: Endian, s: seq<byte>, n: nat)
    requires n > 0 && (|s| < INODE_SIZE || |s| < RecordLength(en, s))
    ensures Listed(en, s, n) == None
  {
  }

  /** The tables hold the slots. */
  ghost predicate Tables(filesize: array<nat>, fileoffset: array<nat>, slots: seq<Slot>, n: nat)
    reads filesize, fileoffset
  {
    && n <= |slots| && filesize.Length >= n && fileoffset.Length >= n
    && forall i :: 0 <= i < n ==> slots[i] == Slot(filesize[i], fileoffset[i])
  }

  /** Reads `filecnt` records, writes them swapped, and fills the two tables. */
  method ReadDirectory(host: Endian, en: Endian, src: seq<byte>, filecnt: nat)
    returns (ok: bool, out: seq<byte>, filesize: array<nat>, fileoffset: array<nat>, remaining: nat,
             filepos: nat, pos: nat, ghost slots: seq<Slot>)
    requires |src| >= SUPER_HEAD
    ensures !ok ==> Listed(en, src[SUPER_HEAD..], filecnt) == None
    ensures ok ==> && pos <= |src| && |slots| == filecnt == filesize.Length == fileoffset.Length
                   && Tables(filesize, fileoffset, slots, filecnt) && filepos == 16 + |out| / 4
                   && Listed(en, src[SUPER_HEAD..], filecnt) == Some(Listing(out, slots, remaining, src[pos..]))
  {
    hide Listed, DecodeInode, SwapInode, HasChunk;
    filesize, fileoffset := new nat[filecnt], new nat[filecnt];
    out, slots, remaining, filepos, pos := [], [], 0, 16, SUPER_HEAD;
    JoinedNothing(Listed(en, src[SUPER_HEAD..], filecnt));
    var file := 0;
    while file < filecnt
      invariant file <= filecnt && SUPER_HEAD <= pos <= |src| && |slots| == file
      invariant Tables(filesize, fileoffset, slots, file)
      invariant |out| % 4 == 0 && filepos == 16 + |out| / 4
      invariant Listed(en, src[SUPER_HEAD..], filecnt)
             == Joined(out, slots, remaining, Listed(en, src[pos..], filecnt - file))
    {
      ghost var s := src[pos..];
      if |src| - pos < INODE_SIZE {
        JoinedNone(en, s, filecnt - file);
        ok := false;
        return;
      }
      var inodeIn := src[pos..pos + INODE_SIZE];
      assert inodeIn == s[..INODE_SIZE];
      var inodeOut := SwapInode(en, inodeIn);
      SwapInodeDecodes(en, inodeIn);
      var inode := DecodeInode(host, if host == en then inodeIn else inodeOut);
      assert inode == DecodeInode(en, inodeIn);
      var end := pos + INODE_SIZE + 4 * inode.namelen;
      if |src| < end {
        JoinedNone(en, s, filecnt - file);
        ok := false;
        return;
      }
      JoinedStep(en, s, filecnt - file, out, slots, remaining);
      RecordParts(en, src, pos, end);
      out := out + (inodeOut + src[pos + INODE_SIZE..end]);
      filesize[file], fileoffset[file] := inode.size, inode.offset;
      slots := slots + [Slot(inode.size, inode.offset)];
      filepos := filepos + inode.namelen + 3;
      if HasChunk(inode) {
        remaining := remaining + 1;
      }
      file, pos := file + 1, end;
    }
    ListedNothing(en, src[pos..]);
    assert out + [] == out && slots + [] == slots;
    ok := true;
  }

  lemma JoinedNothing(l: Option<Listing>)
    ensures Joined([], [], 0, l) == l
  {
    if l.Some? { assert [] + l.value.out == l.value.out && [] + l.value.slots == l.value.slots; }
  }

  lemma ListedNothing(en: Endian, s: seq<byte>)
    ensures Listed(en, s, 0) == Some(Listing([], [], 0, s))
  {
  }

  lemma RecordParts(en: Endian, src: seq<byte>, pos: nat, end: nat)
    requires pos + INODE_SIZE <= end <= |src|
    ensures src[pos..][..end - pos] == src[pos..end] && src[pos..][end - pos..] == src[end..]
    ensures SwapRecord(en, src[pos..end]) == SwapInode(en, src[pos..pos + INODE_SIZE]) + src[pos + INODE_SIZE..end]
  {
    assert src[pos..end][..INODE_SIZE] == src[pos..pos + INODE_SIZE];
    assert src[pos..end][INODE_SIZE..] == src[pos + INODE_SIZE..end];
  }

  // ------------------------------------------------------------ the data pass

  function Glued(out: seq<byte>, rest: Option<seq<byte>>): Option<seq<byte>> {
    match rest
    case None => None
    case Some(r) => Some(out + r)
  }

  lemma DataStep(en: Endian, slots: seq<Slot>, s: seq<byte>, filepos: nat, remaining: nat, out: seq<byte>)
    requires remaining != 0
    ensures FindExtent(en, slots, s, filepos) == None ==> DataPass(en, slots, s, filepos, remaining) == None
    ensures FindExtent(en, slots, s, filepos).Some? ==>
              var x := FindExtent(en, slots, s, filepos).value;
              Glued(out, DataPass(en, slots, s, filepos, remaining))
              == Glued(out + SwapWords(s[..x.table]) + s[x.table..x.end],
                       DataPass(en, slots, s[x.end..], x.next, Modulo32(remaining - x.files)))
  {
    hide FindExtent, SwapWords, Modulo32;
    if FindExtent(en, slots, s, filepos).Some? {
      var x := FindExtent(en, slots, s, filepos).value;
      var r := DataPass(en, slots, s[x.end..], x.next, Modulo32(remaining - x.files));
      if r.Some? {
        assert out + SwapWords(s[..x.table]) + s[x.table..x.end] + r.value
            == out + (SwapWords(s[..x.table]) + s[x.table..x.end] + r.value);
      }
    }
  }

  lemma ModuloStep(a: int)
    ensures Modulo32(Modulo32(a) - 1) == Modulo32(a - 1)
  {
  }

  /** The search for the file at `filepos`; the bound is tested before the table is read. */
  method FindFile(fileoffset: array<nat>, filesize: array<nat>, filepos: nat, ghost slots: seq<Slot>) returns (file: nat)
    requires |slots| == fileoffset.Length && Tables(filesize, fileoffset, slots, |slots|)
    ensures file == FindSlot(slots, 1, filepos)
  {
    file := 1;
    while file < fileoffset.Length && fileoffset[file] != filepos
      invariant FindSlot(slots, 1, filepos) == FindSlot(slots, file, filepos)
      decreases fileoffset.Length - file
    {
      assert slots[file].offset == fileoffset[file];
      file := file + 1;
    }
    if file < fileoffset.Length { assert slots[file].offset == fileoffset[file]; }
  }

  /** Takes every file at `filepos` off the counter. */
  method CountDown(fileoffset: array<nat>, filesize: array<nat>, filepos: nat, remaining: nat, ghost slots: seq<Slot>)
    returns (r: nat)
    requires |slots| == fileoffset.Length && Tables(filesize, fileoffset, slots, |slots|) && |slots| > 0
    requires remaining < LIMIT
    ensures r == Modulo32(remaining - CountSlots(slots, |slots|, filepos))
  {
    hide Modulo32;
    ModuloSmall(remaining);
    r := remaining;
    var x := 1;
    while x < fileoffset.Length
      invariant 1 <= x <= |slots| && r == Modulo32(remaining - CountSlots(slots, x, filepos))
    {
      assert slots[x].offset == fileoffset[x];
      if fileoffset[x] == filepos {
        ModuloStep(remaining - CountSlots(slots, x, filepos));
        r := Modulo32(r - 1);
      }
      x := x + 1;
    }
  }

  lemma ModuloSmall(n: nat)
    ensures n < LIMIT ==> Modulo32(n) == n
  {
  }

  /** The pointer in front of offset `end`. */
  function TableLast(en: Endian, src: seq<byte>, end: nat): nat {
    if 4 <= end <= |src| then Get32(en, src[end - 4..end]) else 0
  }

  /** Where the chunk at `start` ends; past the end of the input if its table does. */
  function ChunkEnd(en: Endian, src: seq<byte>, start: nat, filepos: nat, nblocks: nat): nat {
    if start + 4 * nblocks > |src| then |src| + 1
    else start + 4 * nblocks + CopyBytes(TableLast(en, src, start + 4 * nblocks), filepos + nblocks)
  }

  /** Swaps the pointer table of one file and copies its blocks. */
  method CopyFile(host: Endian, en: Endian, src: seq<byte>, start: nat, filepos: nat, nblocks: nat)
    returns (ok: bool, out: seq<byte>, last: nat, pos: nat)
    requires start <= |src| && nblocks > 0
    ensures ok == (ChunkEnd(en, src, start, filepos, nblocks) <= |src|)
    ensures ok ==> && start + 4 * nblocks <= pos <= |src| && last == TableLast(en, src, start + 4 * nblocks)
                   && pos == ChunkEnd(en, src, start, filepos, nblocks)
                   && out == SwapWords(src[start..start + 4 * nblocks]) + src[start + 4 * nblocks..pos]
  {
    hide SwapWords, Bswap, Get32, WordUp, Modulo32;
    SwapNothing();
    out, pos, last := [], start, 0;
    var x := 0;
    while x < nblocks
      invariant x <= nblocks && pos == start + 4 * x <= |src|
      invariant out == SwapWords(src[start..pos])
      invariant x > 0 ==> last == TableLast(en, src, pos)
    {
      if |src| - pos < 4 {
        ok := false;
        return;
      }
      var pointerIn := src[pos..pos + 4];
      var pointerOut := Bswap(pointerIn);
      BswapGet(en, pointerIn);
      last := Get32(host, if host == en then pointerIn else pointerOut);
      SwapWordsConcat(src[start..pos], pointerIn);
      SwapOne(pointerIn);
      assert src[start..pos + 4] == src[start..pos] + pointerIn;
      out := out + pointerOut;
      x, pos := x + 1, pos + 4;
    }
    var copybytes: nat := CopyBytes(last, filepos + nblocks);
    ghost var table, end := pos, pos + copybytes;
    ghost var swapped := out;
    while copybytes > 0
      invariant table <= pos <= |src| && pos + copybytes == end
      invariant out == swapped + src[table..pos]
      decreases copybytes
    {
      var readbytes := if copybytes > BUFFER_SIZE then BUFFER_SIZE else copybytes;
      if |src| - pos < readbytes {
        ok := false;
        return;
      }
      CutAt(src, table, pos, pos + readbytes);
      Assoc(swapped, src[table..pos], src[pos..pos + readbytes]);
      out := out + src[pos..pos + readbytes];
      copybytes, pos := copybytes - readbytes, pos + readbytes;
    }
    ok := true;
  }

  lemma SwapNothing()
    ensures SwapWords([]) == []
  {
  }

  /** Swaps the data of the files, one shared chunk after the other, until no file remains. */
  method CopyData(host: Endian, en: Endian, src: seq<byte>, filesize: array<nat>, fileoffset: array<nat>,
                  start: nat, firstWord: nat, files: nat, ghost slots: seq<Slot>)
    returns (ok: bool, out: seq<byte>, pos: nat)
    requires start <= |src| && files < LIMIT
    requires |slots| == fileoffset.Length == filesize.Length && Tables(filesize, fileoffset, slots, |slots|)
    ensures ok ==> pos <= |src|
    ensures DataPass(en, slots, src[start..], firstWord, files) == if ok then Some(out + src[pos..]) else None
  {
    hide DataPass, SwapWords, Get32, WordUp, CopyBytes, BlockTotal, FindSlot, CountSlots, Modulo32;
    out, pos := [], start;
    var filepos: nat, remaining: nat := firstWord, files;
    GluedNothing(DataPass(en, slots, src[start..], firstWord, files));
    while remaining != 0
      invariant pos <= |src| && remaining < LIMIT
      invariant DataPass(en, slots, src[start..], firstWord, files)
             == Glued(out, DataPass(en, slots, src[pos..], filepos, remaining))
      decreases |src| - pos
    {
      DataStep(en, slots, src[pos..], filepos, remaining, out);
      var file := FindFile(fileoffset, filesize, filepos, slots);
      if file >= fileoffset.Length {
        ok := false;
        return;
      }
      assert slots[file].size == filesize[file];
      remaining := CountDown(fileoffset, filesize, filepos, remaining, slots);
      var nblocks := BlockTotal(filesize[file]);
      var copied, chunk, last, end := CopyFile(host, en, src, pos, filepos, nblocks);
      TableSlices(src, pos, 4 * nblocks);
      if !copied {
        ok := false;
        return;
      }
      assert chunk == SwapWords(src[pos..][..4 * nblocks]) + src[pos..][4 * nblocks..end - pos];
      Assoc(out, SwapWords(src[pos..][..4 * nblocks]), src[pos..][4 * nblocks..end - pos]);
      assert src[pos..][end - pos..] == src[end..];
      out := out + chunk;
      filepos, pos := WordUp(last) / 4, end;
    }
    DataDone(en, slots, src[pos..], filepos);
    ok := true;
  }

  lemma TableSlices(src: seq<byte>, pos: nat, n: nat)
    requires pos <= |src| && n >= 4
    ensures pos + n <= |src| ==> src[pos..][n - 4..n] == src[pos + n - 4..pos + n] && src[pos..][..n] == src[pos..pos + n]
  {
  }

  lemma GluedNothing(r: Option<seq<byte>>)
    ensures Glued([], r) == r
  {
    if r.Some? { assert [] + r.value == r.value; }
  }

  lemma DataDone(en: Endian, slots: seq<Slot>, s: seq<byte>, filepos: nat)
    ensures DataPass(en, slots, s, filepos, 0) == Some(s)
  {
  }

  /** The whole program: superblock, directory pass, data pass, padding, checksum. */
  method Swap(host: Endian, z: Zlib, src: seq<byte>) returns (result: Option<seq<byte>>)
    requires |src| < 0x8000_0000
    ensures result == Swapped(z, src)
  {
    hide DataPass, Listed, SwapSuper, Get32, ByteOrder, ClearCrc, Supported, Put32, Bswap;
    ByteOrderSize(src);
    if |src| < SUPER_HEAD {
      return None;
    }
    HostWord(host, src);
    var isHostorder := Get32(host, src[0..4]) == MAGIC;
    if !isHostorder && Get32(host, Bswap(src[0..4])) != MAGIC {
      return None;
    }
    var en := if isHostorder then host else Other(host);
    var super := SwapSuper(src[..SUPER_HEAD]);
    HostField(host, en, src, super);
    var from := if isHostorder then src else super;
    var flags := Get32(host, from[8..12]);
    FlagTests(flags);
    if flags % 2 == 0 || flags / 0x100 % 2 == 1 || flags / 0x400 % 2 == 1 || flags / 4 > 0 {
      return None;
    }
    var filecnt := Get32(host, from[44..48]);
    var ok, out, filesize, fileoffset, remaining, filepos, pos, slots := ReadDirectory(host, en, src, filecnt);
    if !ok {
      return None;
    }
    RemainingBound(en, src[SUPER_HEAD..], filecnt);
    var copied, data, end := CopyData(host, en, src, filesize, fileoffset, pos, filepos, remaining, slots);
    if !copied {
      return None;
    }
    ghost var l := Listed(en, src[SUPER_HEAD..], filecnt).value;
    Assoc(super + l.out, data, src[end..]);
    out := CopyRest(src, end, super + out + data);
    var crc := z.crc(ClearCrc(out));
    result := Some(out[..32] + Put32(Other(en), crc) + out[36..]);
  }

  /** Copies the remaining data (padding) behind `before`. */
  method CopyRest(src: seq<byte>, start: nat, before: seq<byte>) returns (out: seq<byte>)
    requires start <= |src|
    ensures out == before + src[start..]
  {
    out := before;
    var pos := start;
    while pos < |src|
      invariant start <= pos <= |src| && out == before + src[start..pos]
    {
      var readbytes := if |src| - pos > BUFFER_SIZE then BUFFER_SIZE else |src| - pos;
      CutAt(src, start, pos, pos + readbytes);
      Assoc(before, src[start..pos], src[pos..pos + readbytes]);
      out := out + src[pos..pos + readbytes];
      pos := pos + readbytes;
    }
    assert src[start..pos] == src[start..];
  }

  /** The three tests of the flags, one after the other, leave only the supported ones. */
  lemma FlagTests(flags: nat)
    ensures Supported(flags) <==> !(flags % 2 == 0 || flags / 0x100 % 2 == 1 || flags / 0x400 % 2 == 1 || flags / 4 > 0)
  {
  }

  /** The byte order of the file, found by comparing host words. */
  lemma HostWord(host: Endian, src: seq<byte>)
    requires |src| >= SUPER_HEAD
    ensures ByteOrder(src) == if Get32(host, src[0..4]) == MAGIC then Some(host)
                              else if Get32(host, Bswap(src[0..4])) == MAGIC then Some(Other(host))
                              else None
  {
    BytesRoundTrip(src[0..4]);
    BswapGet(Other(host), src[0..4]);
  }

  lemma HostField(host: Endian, en: Endian, src: seq<byte>, super: seq<byte>)
    requires |src| >= SUPER_HEAD && super == SwapSuper(src[..SUPER_HEAD])
    ensures var from := if host == en then src else super;
            && |from| >= SUPER_HEAD
            && Get32(host, from[8..12]) == Get32(en, src[8..12]) && Get32(host, from[44..48]) == Get32(en, src[44..48])
    ensures Get32(en, src[44..48]) < LIMIT
  {
    hide Get32, SwapSuper;
    SuperFields(src[..SUPER_HEAD]);
    assert src[..SUPER_HEAD][8..12] == src[8..12] && src[..SUPER_HEAD][44..48] == src[44..48];
    BswapGet(en, src[8..12]);
    BswapGet(en, src[44..48]);
    PutGet32(en, src[44..48]);
  }

  lemma {:induction false} RemainingBound(en: Endian, s: seq<byte>, n: nat)
    ensures Listed(en, s, n).Some? ==> Listed(en, s, n).value.remaining <= n
  {
    hide DecodeInode, SwapRecord, HasChunk;
    if n > 0 && |s| >= INODE_SIZE && |s| >= RecordLength(en, s) {
      RemainingBound(en, s[RecordLength(en, s)..], n - 1);
    }
  }
}
