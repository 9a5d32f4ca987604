/** The seama program: packing, sealing, verifying and extracting through buffers of limited size. */
module SeamaTool {
  import opened Bytes
  import opened Seama
  import Md5
  import Md5Firmware
  import Words

  const BUF_SIZE := 1024

  /** A file opened for reading. */
  class Input {
    const data: seq<byte>
    var pos: nat
    var eof: bool

    constructor (data: seq<byte>)
      ensures this.data == data && pos == 0 && !eof
    {
      this.data, pos, eof := data, 0, false;
    }

    ghost predicate Valid()
      reads this
    {
      pos <= |data| && (eof ==> pos == |data|)
    }

    /** What is still unread. */
    ghost function Rest(): seq<byte>
      reads this
      requires Valid()
    {
      data[pos..]
    }

    /** fread: as many of `n` bytes as there are; a short read sets the end-of-file mark. */
    method Read(n: nat) returns (s: seq<byte>)
      requires Valid()
      modifies this
      ensures Valid() && s == old(Rest())[..Min(n, |old(Rest())|)] && Rest() == old(Rest())[|s|..]
      ensures old(eof) ==> eof
      ensures eof == (old(eof) || |s| < n)
    {
      var m := Min(n, |data| - pos);
      s := data[pos..pos + m];
      pos := pos + m;
      if m < n {
        eof := true;
      }
    }
  }

  /** calculate_digest of the next `size` bytes, or of everything when `size` is zero. */
  method CalculateDigest(fh: Input, size: nat) returns (digest: seq<byte>, bytesRead: nat)
    requires fh.Valid() && !fh.eof
    modifies fh
    ensures fh.Valid() && bytesRead == (if size > 0 then Min(size, |old(fh.Rest())|) else |old(fh.Rest())|)
    ensures digest == Md5.Digest(old(fh.Rest())[..bytesRead]) && fh.Rest() == old(fh.Rest())[bytesRead..]
  {
    hide Md5.Digest;
    ghost var all := fh.Rest();
    assert all[..0] == [] && all[0..] == all;
    var bytesLeft: nat := if size > 0 then size else BUF_SIZE;
    bytesRead := 0;
    var ctx := new Md5Firmware.Context();
    while !fh.eof && bytesLeft > 0
      invariant fh.Valid() && ctx.Valid() && fresh(ctx) && fresh(ctx.input)
      invariant bytesRead <= |all| && fh.Rest() == all[bytesRead..] && ctx.message == all[..bytesRead]
      invariant if size > 0 then bytesLeft + bytesRead == size else bytesLeft == BUF_SIZE
      decreases |all| - bytesRead, !fh.eof, bytesLeft
    {
      var chunk := fh.Read(if bytesLeft < BUF_SIZE then bytesLeft else BUF_SIZE);
      if |chunk| > 0 {
        ctx.Update(chunk);
        Extend(all, bytesRead, chunk);
        bytesRead := bytesRead + |chunk|;
      }
      if size > 0 {
        bytesLeft := bytesLeft - |chunk|;
      }
    }
    assert fh.eof ==> bytesRead == |all|;
    digest := ctx.Final();
  }

  /** copy_file: everything that is left. */
  method CopyFile(from: Input) returns (out: seq<byte>)
    requires from.Valid() && !from.eof
    modifies from
    ensures out == old(from.Rest())
  {
    ghost var all := from.Rest();
    out := [];
    while !from.eof
      invariant from.Valid() && |out| <= |all| && out == all[..|out|] && from.Rest() == all[|out|..]
      decreases |all| - |out|, !from.eof
    {
      var chunk := from.Read(8 * BUF_SIZE);
      Extend(all, |out|, chunk);
      out := out + chunk;
    }
  }

  /** Reading on from the first `i` bytes. */
  lemma Extend(all: seq<byte>, i: nat, m: seq<byte>)
    requires i + |m| <= |all| && m == all[i..][..|m|]
    ensures all[..i + |m|] == all[..i] + m && all[i + |m|..] == all[i..][|m|..]
  {
  }

  // ------------------------------------------------------------ writing

  method WriteHeader(metas: seq<seq<byte>>, size: nat) returns (out: seq<byte>)
    ensures out == Header(|MetaBytes(metas)|, size)
  {
    var metasize := 0;
    var i := 0;
    assert metas[0..] == metas;
    while i < |metas|
      invariant i <= |metas| && metasize + |Terminated(metas[i..])| == |Terminated(metas)|
    {
      assert metas[i..][1..] == metas[i + 1..];
      metasize := metasize + |metas[i]| + 1;
      i := i + 1;
    }
    out := Header((metasize + 3) / 4 * 4, size);
  }

  method WriteMetaData(metas: seq<seq<byte>>) returns (out: seq<byte>)
    ensures out == MetaBytes(metas)
  {
    out := [];
    var i := 0;
    assert metas[0..] == metas && [] + Terminated(metas) == Terminated(metas);
    while i < |metas|
      invariant i <= |metas| && out + Terminated(metas[i..]) == Terminated(metas)
    {
      assert metas[i..][1..] == metas[i + 1..];
      assert out + (metas[i] + [0] + Terminated(metas[i + 1..])) == out + (metas[i] + [0]) + Terminated(metas[i + 1..]);
      out := out + (metas[i] + [0]);
      i := i + 1;
    }
    assert metas[i..] == [] && out == Terminated(metas);
    ghost var n := |out|;
    var j := (|out| + 3) / 4 * 4;
    while |out| < j
      invariant n <= |out| <= j && out == Terminated(metas) + Zeros(|out| - n)
    {
      assert Zeros(|out| - n) + [0] == Zeros(|out| + 1 - n);
      out := out + [0];
    }
  }

  /** One image of pack_files. */
  method Pack(metas: seq<seq<byte>>, image: seq<byte>) returns (out: seq<byte>)
    ensures out == Image(metas, image).Bytes()
  {
    hide Md5.Digest, Header, MetaBytes;
    var ifh := new Input(image);
    assert ifh.Rest() == image;
    var digest, fsize := CalculateDigest(ifh, 0);
    assert image[..|image|] == image;
    var head := WriteHeader(metas, fsize);
    var meta := WriteMetaData(metas);
    var again := new Input(image);
    assert again.Rest() == image;
    var copy := CopyFile(again);
    out := head + digest + meta + copy;
  }

  // ------------------------------------------------------------ reading

  /** What the programs know of an entity when they have read its header, its digest and its meta area. */
  datatype Head = Head(size: nat, sum: seq<byte>, meta: seq<byte>)

  /** The head was read, and `rest` is what comes after it. */
  predicate HeadRead(b: seq<byte>, head: Option<Head>, rest: seq<byte>) {
    match Next(b)
    case None => head == None
    case Some(x) =>
      && head == Some(Head(x.size, x.sum, x.meta)) && |rest| + HEADER_SIZE <= |b|
      && x.data == rest[..Min(x.size, |rest|)] && x.rest == rest[Min(x.size, |rest|)..]
  }

  lemma HeadReads(b: seq<byte>, k: nat, msize: nat, isize: nat)
    requires |b| >= HEADER_SIZE && GetBe32(b[0..4]) == MAGIC && isize == GetBe32(b[8..12]) && msize == GetBe16(b[6..8])
    requires k == if isize > 0 then DIGEST_SIZE else 0
    ensures |b| < HEADER_SIZE + k + msize ==> HeadRead(b, None, [])
    ensures |b| >= HEADER_SIZE + k + msize ==>
              var b2 := b[HEADER_SIZE..][k..];
              HeadRead(b, Some(Head(isize, b[HEADER_SIZE..][..k], b2[..msize])), b2[msize..])
  {
    hide GetBe32, GetBe16;
    if |b| >= HEADER_SIZE + k + msize {
      var at := HEADER_SIZE + k + msize;
      NestedSlices(b, HEADER_SIZE, k, msize, Min(isize, |b| - at));
    }
  }

  lemma NestedSlices(b: seq<byte>, h: nat, k: nat, m: nat, n: nat)
    requires h + k + m + n <= |b|
    ensures var b1 := b[h..]; var b2 := b1[k..]; var b3 := b2[m..];
            && b1[..k] == b[h..h + k] && b2[..m] == b[h + k..h + k + m]
            && b3[..n] == b[h + k + m..h + k + m + n] && b3[n..] == b[h + k + m + n..]
            && |b3| == |b| - (h + k + m)
  {
  }

  method ReadHead(fh: Input) returns (head: Option<Head>)
    requires fh.Valid() && !fh.eof
    modifies fh
    ensures fh.Valid() && HeadRead(old(fh.Rest()), head, fh.Rest())
    ensures head.Some? ==> !fh.eof
  {
    hide GetBe32, GetBe16, HeadRead;
    ghost var b := fh.Rest();
    var shdr := fh.Read(HEADER_SIZE);
    assert |b| >= HEADER_SIZE ==> shdr[0..4] == b[0..4] && shdr[6..8] == b[6..8] && shdr[8..12] == b[8..12];
    if |shdr| < HEADER_SIZE || GetBe32(shdr[0..4]) != MAGIC {
      NoHead(b, fh.Rest());
      return None;
    }
    var isize, msize := GetBe32(shdr[8..12]), GetBe16(shdr[6..8]);
    ghost var k: nat := if isize > 0 then DIGEST_SIZE else 0;
    HeadReads(b, k, msize, isize);
    var checksum: seq<byte> := [];
    if isize > 0 {
      checksum := fh.Read(DIGEST_SIZE);
      if |checksum| < DIGEST_SIZE {
        NoRest(b, fh.Rest());
        return None;
      }
    }
    assert checksum == b[HEADER_SIZE..][..k] && fh.Rest() == b[HEADER_SIZE..][k..];
    var buf := fh.Read(msize);
    if |buf| < msize {
      NoRest(b, fh.Rest());
      return None;
    }
    head := Some(Head(isize, checksum, buf));
  }

  lemma NoHead(b: seq<byte>, rest: seq<byte>)
    requires |b| < HEADER_SIZE || GetBe32(b[0..4]) != MAGIC
    ensures HeadRead(b, None, rest)
  {
  }

  lemma NoRest(b: seq<byte>, rest: seq<byte>)
    requires HeadRead(b, None, [])
    ensures HeadRead(b, None, rest)
  {
  }

  /** verify_seama: true for a return value of zero. */
  method Verify(data: seq<byte>) returns (ok: bool)
    ensures ok == Verified(data, false)
  {
    hide Next, Md5.Digest;
    var fh := new Input(data);
    ok := false;
    assert fh.Rest() == data;
    NextNothing();
    while !fh.eof
      invariant fh.Valid() && fresh(fh) && Verified(data, false) == Verified(fh.Rest(), ok)
      decreases |fh.Rest()|, !fh.eof
    {
      var head := ReadHead(fh);
      if head == None || |head.value.meta| > MAX_META {
        return;
      }
      if head.value.size > 0 {
        var digest, n := CalculateDigest(fh, head.value.size);
        if head.value.sum != digest {
          return;
        }
        ok := true;
      }
    }
  }

  /** match_meta */
  method MatchMeta(meta: array<byte>, size: nat, wanted: seq<seq<byte>>) returns (r: bool)
    requires size <= meta.Length
    ensures r == Matches(meta[..], size, wanted)
  {
    hide StringsIn;
    var i := 0;
    while i < |wanted|
      invariant i <= |wanted| && forall k :: 0 <= k < i ==> wanted[k] in StringsIn(meta[..], 0, size)
    {
      var matched, j: nat := false, 0;
      while j < size && !matched
        invariant if matched then wanted[i] in StringsIn(meta[..], 0, size)
                  else wanted[i] in StringsIn(meta[..], 0, size) <==> wanted[i] in StringsIn(meta[..], j, size)
        decreases size - j, !matched
      {
        var s := FirstString(meta[j..]);
        assert meta[j..] == meta[..][j..];
        StringsStep(meta[..], j, size, s);
        if s == wanted[i] {
          matched := true;
        } else {
          j := j + |s| + 1;
        }
      }
      if !matched {
        NoStrings(meta[..], j, size);
        return false;
      }
      i := i + 1;
    }
    r := true;
  }

  lemma NoStrings(buf: seq<byte>, j: nat, size: nat)
    requires size <= |buf| && j >= size
    ensures StringsIn(buf, j, size) == []
  {
  }

  /** fread into `p`: a short read leaves the rest of `p` as it was. */
  method ReadInto(fh: Input, p: array<byte>, n: nat) returns (m: nat)
    requires fh.Valid() && n <= p.Length
    modifies fh, p
    ensures fh.Valid() && m == Min(n, |old(fh.Rest())|) && fh.Rest() == old(fh.Rest())[m..]
    ensures p[..] == Overlay(old(p[..]), Take(old(fh.Rest()), n))
    ensures fh.eof == (old(fh.eof) || m < n)
  {
    var s := fh.Read(n);
    m := |s|;
    forall i | 0 <= i < m {
      p[i] := s[i];
    }
    assert p[..] == s + old(p[..])[m..];
  }

  /** The loops of extract_file that read `size` bytes through the buffer, to write or to skip them. */
  method ReadThrough(fh: Input, buf: array<byte>, size: nat) returns (data: seq<byte>)
    requires fh.Valid() && buf.Length == MAX_META
    modifies fh, buf
    ensures fh.Valid() && data == Take(old(fh.Rest()), size) && fh.Rest() == old(fh.Rest())[|data|..]
    ensures buf[..] == Through(old(buf[..]), data)
    ensures fh.eof == (old(fh.eof) || |data| < size)
  {
    hide Take, Overlay, Through;
    ghost var all, was, marked, short := fh.Rest(), buf[..], fh.eof, false;
    ghost var rest := Take(all, size);
    data := [];
    var left: nat := size;
    assert [] + rest == rest;
    while left > 0
      invariant fh.Valid() && |data| + left == size && |data| <= |all| && fh.Rest() == all[|data|..]
      invariant rest == Take(fh.Rest(), left) && data + rest == Take(all, size)
      invariant Through(buf[..], rest) == Through(was, Take(all, size))
      invariant fh.eof == (marked || short) && (short ==> fh.Rest() == [] && left > 0)
      decreases left, !short
    {
      var n := if left < MAX_META then left else MAX_META;
      ghost var before := fh.Rest();
      OnePiece(before, left, n, buf[..]);
      NothingRead(buf[..]);
      var m := ReadInto(fh, buf, n);
      if m == 0 {
        assert rest == [] && data + [] == data;
        return;
      }
      data := data + buf[..m];
      rest := Take(fh.Rest(), left - m);
      left := left - m;
      short := m < n;
    }
    NothingMore(fh.Rest(), buf[..]);
    assert data + [] == data;
  }

  lemma NothingMore(b: seq<byte>, buf: Buffer)
    ensures Take(b, 0) == [] && b[0..] == b && Overlay(buf, []) == buf && Through(buf, []) == buf
  {
  }

  /** One piece read through the buffer. */
  lemma OnePiece(b: seq<byte>, left: nat, n: nat, buf: Buffer)
    requires left > 0 && n == if left < MAX_META then left else MAX_META
    ensures var piece := Take(b, n);
            var rest := Take(b[|piece|..], left - |piece|);
            && Take(b, left) == piece + rest && Overlay(buf, piece)[..|piece|] == piece
            && Through(buf, piece + rest) == Through(Overlay(buf, piece), rest)
            && (b == [] ==> piece + rest == [] && Through(buf, []) == buf)
  {
    var piece := Take(b, n);
    var rest := Take(b[|piece|..], left - |piece|);
    assert Take(b, left) == piece + rest;
    if |piece + rest| <= MAX_META {
      assert rest == [];
      assert piece + rest == piece;
      NothingRead(Overlay(buf, piece));
      NothingRead(buf);
    } else {
      assert (piece + rest)[..MAX_META] == piece && (piece + rest)[MAX_META..] == rest;
    }
  }

  /** One turn of the loop of extract_file; `None` when the loop goes on or ends at the end of the file. */
  method Turn(fh: Input, wanted: seq<seq<byte>>, shdr: array<byte>, buf: array<byte>) returns (out: Option<Outcome>)
    requires fh.Valid() && !fh.eof && shdr.Length == HEADER_SIZE && buf.Length == MAX_META && shdr != buf
    modifies fh, shdr, buf
    ensures fh.Valid() && (out == None ==> fh.eof || |fh.Rest()| < |old(fh.Rest())|)
    ensures var w := Walk(old(fh.Rest()), State(old(shdr[..]), old(buf[..])), wanted);
            var st := State(shdr[..], buf[..]);
            w == match out case Some(o) => Walked(o, st)
                           case None => if fh.eof then Walked(NotFound, st) else Walk(fh.Rest(), st, wanted)
  {
    hide GetBe32, GetBe16, Overlay, Take, Through, Matches, Input.Rest, Input.Valid;
    ghost var limit := |fh.Rest()|;
    var got := ReadInto(fh, shdr, HEADER_SIZE);
    if GetBe32(shdr[..][0..4]) != MAGIC {
      return Some(NotFound);
    }
    ghost var w := Body(fh.Rest(), fh.eof, State(shdr[..], buf[..]), wanted, limit);
    assert w == Walk(old(fh.Rest()), State(old(shdr[..]), old(buf[..])), wanted);
    hide Walk;
    var isize, msize := GetBe32(shdr[..][8..12]), GetBe16(shdr[..][6..8]);
    assert fh.eof || |fh.Rest()| < limit;
    hide Body;
    if isize == 0 {
      ghost var b1, eof1, st1 := fh.Rest(), fh.eof, State(shdr[..], buf[..]);
      var skipped := ReadThrough(fh, buf, msize);
      BodySeal(b1, eof1, st1, wanted, limit, skipped);
      return None;
    }
    if msize > MAX_META {
      return Some(Overrun);
    }
    out := ImageTurn(fh, wanted, shdr, buf, msize, isize, limit);
  }

  /** The turn for a header without an image. */
  lemma BodySeal(b: seq<byte>, eof: bool, st: State, wanted: seq<seq<byte>>, limit: nat, meta: seq<byte>)
    requires (eof || |b| < limit) && GetBe32(st.shdr[8..12]) == 0 && meta == Take(b, GetBe16(st.shdr[6..8]))
    ensures |b[|meta|..]| <= |b|
    ensures Body(b, eof, st, wanted, limit)
         == Onward(b[|meta|..], eof || |meta| < GetBe16(st.shdr[6..8]), State(st.shdr, Through(st.buf, meta)), wanted, limit)
  {
    hide GetBe32, GetBe16, Through, Onward;
  }

  /** The part of the turn that reads an image with its digest and its meta area. */
  method ImageTurn(fh: Input, wanted: seq<seq<byte>>, shdr: array<byte>, buf: array<byte>, msize: nat, isize: nat,
                   ghost limit: nat)
    returns (out: Option<Outcome>)
    requires fh.Valid() && shdr.Length == HEADER_SIZE && buf.Length == MAX_META && shdr != buf
    requires isize == GetBe32(shdr[..][8..12]) > 0 && msize == GetBe16(shdr[..][6..8]) <= MAX_META
    requires fh.eof || |fh.Rest()| < limit
    modifies fh, buf
    ensures fh.Valid() && |fh.Rest()| <= |old(fh.Rest())| && (old(fh.eof) ==> fh.eof)
    ensures var w := Body(old(fh.Rest()), old(fh.eof), State(shdr[..], old(buf[..])), wanted, limit);
            var st := State(shdr[..], buf[..]);
            w == match out case Some(o) => Walked(o, st) case None => Onward(fh.Rest(), fh.eof, st, wanted, limit)
  {
    hide GetBe32, GetBe16, Overlay, Take, Through, Matches, Walk, Body, Onward, Input.Rest, Input.Valid;
    ghost var b, eof, st := fh.Rest(), fh.eof, State(shdr[..], buf[..]);
    ghost var sum := Take(b, DIGEST_SIZE);
    ghost var meta := Take(b[|sum|..], msize);
    ghost var rest := b[|sum|..][|meta|..];
    BodyImage(b, eof, st, wanted, limit, sum, meta, rest, Take(rest, isize));
    var k := ReadInto(fh, buf, DIGEST_SIZE);
    if msize > 0 {
      var m := ReadInto(fh, buf, msize);
      var matched := MatchMeta(buf, msize, wanted);
      if matched {
        var image := ReadThrough(fh, buf, isize);
        return Some(Written(image));
      }
    } else {
      NothingMore(fh.Rest(), buf[..]);
    }
    assert fh.Rest() == rest && buf[..] == Overlay(Overlay(st.buf, sum), meta);
    assert fh.eof == (eof || |sum| < DIGEST_SIZE || |meta| < msize);
    var skipped := ReadThrough(fh, buf, isize);
    out := None;
  }

  /** The turn for a header with an image, in terms of what is read one after the other. */
  lemma BodyImage(b: seq<byte>, eof: bool, st: State, wanted: seq<seq<byte>>, limit: nat,
                  sum: seq<byte>, meta: seq<byte>, rest: seq<byte>, image: seq<byte>)
    requires eof || |b| < limit
    requires GetBe32(st.shdr[8..12]) > 0 && GetBe16(st.shdr[6..8]) <= MAX_META
    requires sum == Take(b, DIGEST_SIZE) && meta == Take(b[|sum|..], GetBe16(st.shdr[6..8]))
    requires rest == b[|sum|..][|meta|..] && image == Take(rest, GetBe32(st.shdr[8..12]))
    ensures var msize := GetBe16(st.shdr[6..8]);
            var buf := Overlay(Overlay(st.buf, sum), meta);
            var next := State(st.shdr, Through(buf, image));
            var eof' := eof || |sum| < DIGEST_SIZE || |meta| < msize || |image| < GetBe32(st.shdr[8..12]);
            && |rest[|image|..]| <= |b|
            && Body(b, eof, st, wanted, limit)
               == if msize > 0 && Matches(buf, msize, wanted) then Walked(Written(image), next)
                  else Onward(rest[|image|..], eof', next, wanted, limit)
  {
    hide GetBe32, GetBe16, Overlay, Through, Matches, Onward;
    assert b[|sum| + |meta|..] == rest;
  }

  /** The walk of extract_file over one file. */
  method ExtractFile(data: seq<byte>, wanted: seq<seq<byte>>, shdr: array<byte>, buf: array<byte>) returns (out: Outcome)
    requires shdr.Length == HEADER_SIZE && buf.Length == MAX_META && shdr != buf
    modifies shdr, buf
    ensures Walked(out, State(shdr[..], buf[..])) == Walk(data, State(old(shdr[..]), old(buf[..])), wanted)
  {
    hide Walk;
    var fh := new Input(data);
    assert fh.Rest() == data;
    while !fh.eof
      invariant fh.Valid() && fresh(fh)
      invariant Walk(data, State(old(shdr[..]), old(buf[..])), wanted)
             == if fh.eof then Walked(NotFound, State(shdr[..], buf[..])) else Walk(fh.Rest(), State(shdr[..], buf[..]), wanted)
      decreases !fh.eof, |fh.Rest()|
    {
      var done := Turn(fh, wanted, shdr, buf);
      if done.Some? {
        return done.value;
      }
    }
    out := NotFound;
  }

  /** extract_file, with whatever its header and buffer hold at first. */
  method Extract(files: seq<seq<byte>>, wanted: seq<seq<byte>>, shdr: array<byte>, buf: array<byte>) returns (out: Outcome)
    requires shdr.Length == HEADER_SIZE && buf.Length == MAX_META && shdr != buf
    modifies shdr, buf
    ensures out == ExtractedFrom(files, State(old(shdr[..]), old(buf[..])), wanted)
  {
    hide Verified, Walk;
    if |wanted| == 0 {
      return NotFound;
    }
    ghost var st := State(shdr[..], buf[..]);
    var i := 0;
    assert files[0..] == files;
    while i < |files|
      invariant i <= |files|
      invariant ExtractedFrom(files, st, wanted) == ExtractedFrom(files[i..], State(shdr[..], buf[..]), wanted)
    {
      assert files[i..][1..] == files[i + 1..];
      var good := Verify(files[i]);
      if good {
        out := ExtractFile(files[i], wanted, shdr, buf);
        if out != NotFound {
          return;
        }
      }
      i := i + 1;
    }
    out := NotFound;
  }

  // ------------------------------------------------------------ sealing

  function Concatenated(files: seq<seq<byte>>): seq<byte> {
    if files == [] then [] else Concatenated(files[..|files| - 1]) + files[|files| - 1]
  }

  /** seal_files: nothing unless every file is accepted. */
  method SealFiles(metas: seq<seq<byte>>, files: seq<seq<byte>>) returns (out: Option<seq<byte>>)
    ensures out == if forall i :: 0 <= i < |files| ==> Verified(files[i], false)
                   then Some(Seal(metas).Bytes() + Concatenated(files)) else None
  {
    hide Verified, Header, MetaBytes;
    var i := 0;
    while i < |files|
      invariant i <= |files| && forall k :: 0 <= k < i ==> Verified(files[k], false)
    {
      var good := Verify(files[i]);
      if !good {
        return None;
      }
      i := i + 1;
    }
    var head := WriteHeader(metas, 0);
    var meta := WriteMetaData(metas);
    var result := head + meta;
    ghost var first := result;
    i := 0;
    assert first + [] == first;
    while i < |files|
      invariant i <= |files| && result == first + Concatenated(files[..i])
    {
      var ifh := new Input(files[i]);
      assert ifh.Rest() == files[i];
      var copy := CopyFile(ifh);
      assert files[..i + 1][..i] == files[..i];
      assert first + Concatenated(files[..i]) + copy == first + (Concatenated(files[..i]) + copy);
      result := result + copy;
      i := i + 1;
    }
    assert files[..i] == files;
    out := Some(result);
  }

  lemma {:induction false} ConcatenatedItems(items: seq<Item>, files: seq<seq<byte>>)
    requires |files| == |items| && forall i :: 0 <= i < |items| ==> files[i] == items[i].Bytes()
    ensures Concatenated(files) == AllBytes(items)
  {
    hide Item.Bytes;
    if items != [] {
      var n := |items| - 1;
      ConcatenatedItems(items[..n], files[..n]);
      ItemsSnoc(items[..n], items[n]);
      assert items == items[..n] + [items[n]];
    }
  }

  lemma {:induction false} ItemsSnoc(items: seq<Item>, x: Item)
    ensures AllBytes(items + [x]) == AllBytes(items) + x.Bytes()
  {
    hide Item.Bytes;
    if items == [] {
      assert items + [x] == [x] && [x][1..] == [];
    } else {
      ItemsSnoc(items[1..], x);
      assert (items + [x])[1..] == items[1..] + [x];
    }
  }

  /** Packing images, sealing them, verifying and extracting: the sealed file is accepted, and what comes out is
      the first image with all the wanted metas; without one, nothing, or an empty file if the last image and its
      header pass once more. */
  method PackSealExtract(images: seq<Item>, metas: seq<seq<byte>>, wanted: seq<seq<byte>>, shdr: array<byte>, buf: array<byte>)
    returns (accepted: bool, out: Outcome)
    requires AllValid(images) && images != [] && (forall i :: 0 <= i < |images| ==> images[i].Image?) && Seal(metas).Valid()
    requires wanted != [] && forall i :: 0 <= i < |wanted| ==> wanted[i] != []
    requires shdr.Length == HEADER_SIZE && buf.Length == MAX_META && shdr != buf
    modifies shdr, buf
    ensures accepted
    ensures var st := State(old(shdr[..]), old(buf[..]));
            out == match FirstWith(images, wanted)
                   case Some(image) => Written(image)
                   case None => if Stale([Seal(metas)] + images, st, wanted) then Written([]) else NotFound
  {
    hide Verified, Walk, Item.Bytes, Item.Valid, FirstWith, Stale, Matches;
    ghost var st := State(shdr[..], buf[..]);
    var files: seq<seq<byte>> := [];
    var i := 0;
    while i < |images|
      invariant i <= |images| && |files| == i && forall k :: 0 <= k < i ==> files[k] == images[k].Bytes()
      invariant st == State(shdr[..], buf[..])
    {
      var packed := Pack(images[i].metas, images[i].image);
      files := files + [packed];
      i := i + 1;
    }
    ghost var all := [Seal(metas)] + images;
    assert images[0].Image? && all[1..] == images && AllValid(all);
    SealedVerified(metas, images);
    ConcatenatedItems(images, files);
    ExtractItems(all, st, wanted);
    SealSkipped(metas, images, wanted);
    var sealed := SealFiles(metas, files);
    accepted := Verify(sealed.value);
    out := Extract([sealed.value], wanted, shdr, buf);
    OneFile(sealed.value, st, wanted);
  }

  lemma SealSkipped(metas: seq<seq<byte>>, items: seq<Item>, wanted: seq<seq<byte>>)
    ensures FirstWith([Seal(metas)] + items, wanted) == FirstWith(items, wanted)
    ensures AllBytes([Seal(metas)] + items) == Seal(metas).Bytes() + AllBytes(items)
  {
    assert ([Seal(metas)] + items)[1..] == items;
  }

  lemma OneFile(file: seq<byte>, st: State, wanted: seq<seq<byte>>)
    requires Verified(file, false) && wanted != []
    ensures ExtractedFrom([file], st, wanted) == Walk(file, st, wanted).outcome
  {
    hide Verified, Walk;
    assert [file][1..] == [];
  }
}
