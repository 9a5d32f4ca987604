/** The SEAMA container: entities with meta data and an MD5 digest, sealed behind one header. */
module Seama {
  import opened Bytes
  import Md5

  const MAGIC := 0x5EA3A417
  const HEADER_SIZE := 12
  const DIGEST_SIZE := 16
  const MAX_META := 1024

  /** What a file is made of: the header that seals it, or an image; both with their meta strings. */
  datatype Item = Seal(metas: seq<seq<byte>>) | Image(metas: seq<seq<byte>>, image: seq<byte>)
  {
    predicate Valid() {
      && (forall i :: 0 <= i < |metas| ==> 0 !in metas[i]) && |MetaBytes(metas)| <= MAX_META
      && (Image? ==> 0 < |image| < 0x1_0000_0000)
    }

    function Size(): nat { if Image? then |image| else 0 }

    /** The header without the meta area. */
    function Head(): (r: seq<byte>)
      ensures |r| == HEADER_SIZE
    {
      Header(|MetaBytes(metas)|, Size())
    }

    /** What seal_files writes in front of the images, or pack_files for one of them. */
    function Bytes(): seq<byte> {
      if Seal? then Head() + MetaBytes(metas) else Head() + Md5.Digest(image) + MetaBytes(metas) + image
    }
  }

  /** Every string with its terminator. */
  function Terminated(metas: seq<seq<byte>>): seq<byte> {
    if metas == [] then [] else metas[0] + [0] + Terminated(metas[1..])
  }

  /** The meta area, filled with NULs to a word boundary. */
  function MetaBytes(metas: seq<seq<byte>>): (r: seq<byte>)
    ensures |r| % 4 == 0 && |r| == RoundUp4(|Terminated(metas)|)
  {
    var t := Terminated(metas);
    t + Zeros(RoundUp4(|t|) - |t|)
  }

  function Header(metasize: nat, size: nat): (r: seq<byte>)
    ensures |r| == HEADER_SIZE
  {
    Be32(MAGIC) + [0, 0] + Be16(metasize) + Be32(size)
  }

  function AllBytes(items: seq<Item>): seq<byte> {
    if items == [] then [] else items[0].Bytes() + AllBytes(items[1..])
  }

  predicate AllValid(items: seq<Item>) { forall i :: 0 <= i < |items| ==> items[i].Valid() }

  predicate HasImage(items: seq<Item>) { exists i :: 0 <= i < |items| && items[i].Image? }

  /** An item piece by piece: the header; for an image its MD5 digest; the meta area; and the image. */
  lemma ItemFields(it: Item)
    requires it.Valid()
    ensures var b, m, p := it.Bytes(), MetaBytes(it.metas), if it.Image? then 28 else 12;
            && |b| == p + |m| + it.Size() && b[..12] == Header(|m|, it.Size())
            && (it.Image? ==> b[12..28] == Md5.Digest(it.image) && b[28 + |m|..] == it.image)
            && b[p..p + |m|] == m
  {
    hide Header, MetaBytes, Md5.Digest;
    var m, p := MetaBytes(it.metas), if it.Image? then 28 else 12;
    if it.Image? {
      FourPieces(it.Head(), Md5.Digest(it.image), m, it.image);
    }
  }

  lemma FourPieces(h: seq<byte>, d: seq<byte>, m: seq<byte>, i: seq<byte>)
    requires |h| == 12 && |d| == 16
    ensures var b := h + d + m + i;
            b[..12] == h && b[12..28] == d && b[28..28 + |m|] == m && b[28 + |m|..] == i
  {
  }

  // ------------------------------------------------------------ reading

  /** The next entity of a stream; `sum` is empty for an entity without an image, and a short image counts with
      the bytes that are there. */
  datatype Piece = Piece(size: nat, sum: seq<byte>, meta: seq<byte>, data: seq<byte>, rest: seq<byte>)

  function Next(b: seq<byte>): (r: Option<Piece>)
    ensures r.Some? ==> |r.value.rest| + HEADER_SIZE <= |b|
  {
    if |b| < HEADER_SIZE || GetBe32(b[0..4]) != MAGIC then None
    else
      var msize, isize := GetBe16(b[6..8]), GetBe32(b[8..12]);
      var p := if isize > 0 then HEADER_SIZE + DIGEST_SIZE else HEADER_SIZE;
      if |b| < p + msize then None
      else
        var at := p + msize;
        var n := Min(isize, |b| - at);
        Some(Piece(isize, b[HEADER_SIZE..p], b[p..at], b[at..at + n], b[at + n..]))
  }

  /** verify_seama: whether a good entity was found before the first thing that is not one. */
  predicate Verified(b: seq<byte>, ok: bool)
    decreases |b|
  {
    match Next(b)
    case None => ok
    case Some(x) =>
      if |x.meta| > MAX_META then ok
      else if x.size == 0 then Verified(x.rest, ok)
      else if Md5.Digest(x.data) != x.sum then ok
      else Verified(x.rest, true)
  }

  /** The string at the start of `b`: the bytes before its terminator. */
  function FirstString(b: seq<byte>): (s: seq<byte>)
    ensures |s| <= |b| && 0 !in s && s == b[..|s|]
    ensures |s| < |b| ==> b[|s|] == 0
  {
    if b == [] || b[0] == 0 then [] else [b[0]] + FirstString(b[1..])
  }

  /** The strings of a meta area. */
  function Strings(b: seq<byte>): seq<seq<byte>>
    decreases |b|
  {
    if b == [] then []
    else
      var s := FirstString(b);
      if |s| < |b| then [s] + Strings(b[|s| + 1..]) else [s]
  }

  // ------------------------------------------------------------ extracting

  type HeaderBuf = s: seq<byte> | |s| == HEADER_SIZE witness Zeros(HEADER_SIZE)
  type Buffer = s: seq<byte> | |s| == MAX_META witness Zeros(MAX_META)

  /** The two variables that fread fills; what it does not reach stays as it was. */
  datatype State = State(shdr: HeaderBuf, buf: Buffer)

  function Overlay(old': seq<byte>, s: seq<byte>): (r: seq<byte>)
    requires |s| <= |old'|
    ensures |r| == |old'|
  {
    s + old'[|s|..]
  }

  /** The buffer after `data` has passed through it in pieces. */
  function Through(buf: Buffer, data: seq<byte>): Buffer
    decreases |data|
  {
    if |data| <= MAX_META then Overlay(buf, data) else Through(Overlay(buf, data[..MAX_META]), data[MAX_META..])
  }

  /** The strings that start within the first `size` bytes of the buffer; a string may go on behind these. */
  function StringsIn(buf: seq<byte>, j: nat, size: nat): seq<seq<byte>>
    requires size <= |buf|
    decreases size - j
  {
    if j >= size then []
    else
      var s := FirstString(buf[j..]);
      [s] + StringsIn(buf, j + |s| + 1, size)
  }

  /** match_meta: every wanted string is one of these. */
  predicate Matches(buf: seq<byte>, size: nat, wanted: seq<seq<byte>>)
    requires size <= |buf|
  {
    forall i :: 0 <= i < |wanted| ==> wanted[i] in StringsIn(buf, 0, size)
  }

  /** How the walk over a file ends: without a match, with an image written, or with a meta area that does not
      fit the buffer. */
  datatype Outcome = NotFound | Written(image: seq<byte>) | Overrun

  datatype Walked = Walked(outcome: Outcome, state: State)

  function Take(b: seq<byte>, n: nat): (r: seq<byte>)
    ensures |r| == Min(n, |b|)
  {
    b[..Min(n, |b|)]
  }

  /** The loop of extract_file from the unread bytes `b` on, before the end-of-file mark is set.  A short
      read sets the mark, but the turn goes on with what the header and the buffer hold. */
  function Walk(b: seq<byte>, st: State, wanted: seq<seq<byte>>): Walked
    decreases |b|, 2
  {
    var got := Take(b, HEADER_SIZE);
    var shdr := Overlay(st.shdr, got);
    if GetBe32(shdr[0..4]) != MAGIC then Walked(NotFound, State(shdr, st.buf))
    else Body(b[|got|..], |got| < HEADER_SIZE, State(shdr, st.buf), wanted, |b|)
  }

  /** The rest of a turn, for the unread bytes `b` and the mark `eof`; `limit` bytes were unread before it. */
  function Body(b: seq<byte>, eof: bool, st: State, wanted: seq<seq<byte>>, limit: nat): Walked
    requires eof || |b| < limit
    decreases limit, 1
  {
    var msize, isize := GetBe16(st.shdr[6..8]), GetBe32(st.shdr[8..12]);
    if isize == 0 then
      var meta := Take(b, msize);
      Onward(b[|meta|..], eof || |meta| < msize, State(st.shdr, Through(st.buf, meta)), wanted, limit)
    else if msize > MAX_META then Walked(Overrun, st)
    else
      var sum := Take(b, DIGEST_SIZE);
      var meta := Take(b[|sum|..], msize);
      var rest := b[|sum| + |meta|..];
      var buf := Overlay(Overlay(st.buf, sum), meta);
      var image := Take(rest, isize);
      var next := State(st.shdr, Through(buf, image));
      if msize > 0 && Matches(buf, msize, wanted) then Walked(Written(image), next)
      else
        Onward(rest[|image|..], eof || |sum| < DIGEST_SIZE || |meta| < msize || |image| < isize, next, wanted, limit)
  }

  function Onward(b: seq<byte>, eof: bool, st: State, wanted: seq<seq<byte>>, limit: nat): Walked
    requires eof || |b| < limit
    decreases limit, 0
  {
    if eof then Walked(NotFound, st) else Walk(b, st, wanted)
  }

  /** extract_file on all the input files: those that are not accepted are passed over, and header and buffer
      go on from one file to the next. */
  function ExtractedFrom(files: seq<seq<byte>>, st: State, wanted: seq<seq<byte>>): Outcome
    decreases |files|
  {
    if wanted == [] || files == [] then NotFound
    else if !Verified(files[0], false) then ExtractedFrom(files[1..], st, wanted)
    else
      var w := Walk(files[0], st, wanted);
      if w.outcome == NotFound then ExtractedFrom(files[1..], w.state, wanted) else w.outcome
  }

  // ------------------------------------------------------------ meta strings

  lemma {:induction false} FirstStringIs(s: seq<byte>, rest: seq<byte>)
    requires 0 !in s
    ensures FirstString(s + [0] + rest) == s
  {
    var b := s + [0] + rest;
    if s != [] {
      FirstStringIs(s[1..], rest);
      assert b[1..] == s[1..] + [0] + rest;
    }
  }

  lemma StringsCons(s: seq<byte>, rest: seq<byte>)
    requires 0 !in s
    ensures Strings(s + [0] + rest) == [s] + Strings(rest)
  {
    FirstStringIs(s, rest);
    assert (s + [0] + rest)[|s| + 1..] == rest;
  }

  lemma {:induction false} StringsOfZeros(n: nat)
    ensures forall s :: s in Strings(Zeros(n)) <==> s == [] && n > 0
  {
    if n > 0 {
      StringsOfZeros(n - 1);
      StringsCons([], Zeros(n - 1));
      assert Zeros(n) == [] + [0] + Zeros(n - 1);
    }
  }

  lemma {:induction false} StringsOfTerminated(metas: seq<seq<byte>>, rest: seq<byte>)
    requires forall i :: 0 <= i < |metas| ==> 0 !in metas[i]
    ensures Strings(Terminated(metas) + rest) == metas + Strings(rest)
  {
    hide Strings;
    if metas == [] {
      assert Terminated(metas) + rest == rest;
    } else {
      StringsOfTerminated(metas[1..], rest);
      StringsCons(metas[0], Terminated(metas[1..]) + rest);
      assert Terminated(metas) + rest == metas[0] + [0] + (Terminated(metas[1..]) + rest);
      assert metas == [metas[0]] + metas[1..];
    }
  }

  /** In a written meta area a string is found if and only if it is one of the metas, or it is empty and
      there is padding. */
  lemma FoundInMeta(metas: seq<seq<byte>>, s: seq<byte>)
    requires forall i :: 0 <= i < |metas| ==> 0 !in metas[i]
    ensures s in Strings(MetaBytes(metas)) <==> s in metas || (s == [] && |Terminated(metas)| % 4 != 0)
  {
    hide Strings;
    var n := |Terminated(metas)|;
    StringsOfTerminated(metas, Zeros(RoundUp4(n) - n));
    StringsOfZeros(RoundUp4(n) - n);
    assert RoundUp4(n) > n <==> n % 4 != 0;
  }

  lemma {:induction false} FirstStringStays(a: seq<byte>, b: seq<byte>)
    requires 0 in a
    ensures FirstString(a + b) == FirstString(a) && |FirstString(a)| < |a|
  {
    if a[0] != 0 {
      FirstStringStays(a[1..], b);
      assert (a + b)[1..] == a[1..] + b;
    }
  }

  lemma MetaEnds(metas: seq<seq<byte>>)
    ensures MetaBytes(metas) == [] || MetaBytes(metas)[|MetaBytes(metas)| - 1] == 0
    ensures MetaBytes(metas) == [] <==> metas == []
  {
    hide RoundUp4;
    TerminatedEnds(metas);
  }

  lemma {:induction false} TerminatedEnds(metas: seq<seq<byte>>)
    ensures if metas == [] then Terminated(metas) == [] else 0 < |Terminated(metas)| && Terminated(metas)[|Terminated(metas)| - 1] == 0
  {
    if metas != [] {
      TerminatedEnds(metas[1..]);
    }
  }

  lemma StringsStep(buf: seq<byte>, j: nat, size: nat, s: seq<byte>)
    requires j < size <= |buf| && s == FirstString(buf[j..])
    ensures StringsIn(buf, j, size) == [s] + StringsIn(buf, j + |s| + 1, size)
  {
    hide FirstString;
  }

  lemma StringsSplit(b: seq<byte>, s: seq<byte>, rest: seq<byte>)
    requires b != [] && s == FirstString(b) && |s| < |b| && rest == b[|s| + 1..]
    ensures Strings(b) == [s] + Strings(rest)
  {
    hide FirstString;
  }

  /** When the area ends with a terminator, no string goes on behind it. */
  lemma {:induction false} StringsInArea(meta: seq<byte>, tail: seq<byte>, j: nat)
    requires j <= |meta| && (meta == [] || meta[|meta| - 1] == 0)
    ensures StringsIn(meta + tail, j, |meta|) == Strings(meta[j..])
    decreases |meta| - j
  {
    if j < |meta| {
      hide FirstString;
      var here := meta[j..];
      assert here[|here| - 1] == 0;
      FirstStringStays(here, tail);
      assert (meta + tail)[j..] == here + tail;
      var s := FirstString(here);
      StringsInArea(meta, tail, j + |s| + 1);
      assert here[|s| + 1..] == meta[j + |s| + 1..];
      StringsStep(meta + tail, j, |meta|, s);
      StringsSplit(here, s, here[|s| + 1..]);
    } else {
      assert meta[j..] == [];
    }
  }

  /** A written meta area matches exactly when it has all the wanted strings, as long as none of these is
      empty, whatever is left behind it in the buffer. */
  lemma MatchesMetas(metas: seq<seq<byte>>, tail: seq<byte>, wanted: seq<seq<byte>>)
    requires forall i :: 0 <= i < |metas| ==> 0 !in metas[i]
    requires forall i :: 0 <= i < |wanted| ==> wanted[i] != []
    ensures Matches(MetaBytes(metas) + tail, |MetaBytes(metas)|, wanted) <==> HasAll(metas, wanted)
  {
    hide Strings, StringsIn, MetaBytes;
    var meta := MetaBytes(metas);
    MetaEnds(metas);
    StringsInArea(meta, tail, 0);
    assert meta[0..] == meta;
    forall i | 0 <= i < |wanted| ensures wanted[i] in Strings(meta) <==> wanted[i] in metas {
      FoundInMeta(metas, wanted[i]);
    }
  }

  predicate HasAll(metas: seq<seq<byte>>, wanted: seq<seq<byte>>) {
    forall i :: 0 <= i < |wanted| ==> wanted[i] in metas
  }

  // ------------------------------------------------------------ round trips

  /** A header word by word: the magic number, two zero bytes, the size of the meta area, the size of the image. */
  lemma HeaderFields(metasize: nat, size: nat, rest: seq<byte>)
    requires metasize < 0x1_0000 && size < 0x1_0000_0000
    ensures var b := Header(metasize, size) + rest;
            && GetBe32(b[0..4]) == 0x5EA3A417 && b[4..6] == [0, 0]
            && GetBe16(b[6..8]) == metasize && GetBe32(b[8..12]) == size
  {
    hide Be32, GetBe32, Be16, GetBe16;
    var b := Header(metasize, size) + rest;
    assert b[0..4] == Be32(MAGIC) && b[6..8] == Be16(metasize) && b[8..12] == Be32(size);
    SmallWord(MAGIC);
    SmallWord(size);
    Be16RoundTrip(metasize);
  }

  /** Reading back an item that was written. */
  lemma NextItem(x: Item, rest: seq<byte>)
    requires x.Valid()
    ensures Next(x.Bytes() + rest)
         == Some(if x.Seal? then Piece(0, [], MetaBytes(x.metas), [], rest)
                 else Piece(|x.image|, Md5.Digest(x.image), MetaBytes(x.metas), x.image, rest))
  {
    hide Header, GetBe32, GetBe16, Be32, Be16, MetaBytes, Md5.Digest;
    var meta := MetaBytes(x.metas);
    var b := x.Bytes() + rest;
    if x.Seal? {
      assert b == x.Head() + (meta + rest);
      HeaderFields(|meta|, 0, meta + rest);
      assert b[12..12] == [] && b[12..12 + |meta|] == meta && b[12 + |meta|..] == rest;
      assert b[12 + |meta|..12 + |meta| + 0] == [];
    } else {
      var sum := Md5.Digest(x.image);
      assert b == x.Head() + (sum + meta + x.image + rest);
      HeaderFields(|meta|, |x.image|, sum + meta + x.image + rest);
      ImageParts(x.Head(), sum, meta, x.image, rest);
    }
  }

  lemma ImageParts(head: seq<byte>, sum: seq<byte>, meta: seq<byte>, image: seq<byte>, rest: seq<byte>)
    requires |head| == HEADER_SIZE && |sum| == DIGEST_SIZE
    ensures var b := head + sum + meta + image + rest;
            var at := 28 + |meta|;
            && b[12..28] == sum && b[28..at] == meta && b[at..at + |image|] == image && b[at + |image|..] == rest
  {
  }

  lemma NextNothing()
    ensures Next([]) == None
  {
  }

  /** A file is accepted if and only if it holds an image. */
  lemma {:induction false} VerifiedItems(items: seq<Item>, ok: bool)
    requires AllValid(items)
    ensures Verified(AllBytes(items), ok) == (ok || HasImage(items))
    decreases |items|
  {
    hide Next, Item.Bytes, MetaBytes, Md5.Digest;
    if items == [] {
      NextNothing();
    } else {
      NextItem(items[0], AllBytes(items[1..]));
      VerifiedItems(items[1..], ok || items[0].Image?);
      assert items == [items[0]] + items[1..];
    }
  }

  /** Every packed image is accepted, and whatever is sealed as well if and only if it holds an image. */
  lemma SealedVerified(metas: seq<seq<byte>>, items: seq<Item>)
    requires AllValid(items) && Seal(metas).Valid()
    ensures Verified(Seal(metas).Bytes() + AllBytes(items), false) <==> HasImage(items)
    ensures forall i :: 0 <= i < |items| && items[i].Image? ==> Verified(items[i].Bytes(), false)
  {
    hide Item.Bytes, Item.Valid, Verified, AllBytes;
    var all := [Seal(metas)] + items;
    BytesStep(Seal(metas), items);
    VerifiedItems(all, false);
    assert forall i :: 0 <= i < |items| ==> all[i + 1] == items[i];
    forall i | 0 <= i < |items| && items[i].Image? ensures Verified(items[i].Bytes(), false) {
      OneVerified(items[i]);
    }
  }

  lemma BytesStep(it: Item, items: seq<Item>)
    ensures AllBytes([it] + items) == it.Bytes() + AllBytes(items)
  {
    hide Item.Bytes;
    assert ([it] + items)[1..] == items;
  }

  lemma OneVerified(it: Item)
    requires it.Valid() && it.Image?
    ensures Verified(it.Bytes(), false)
  {
    hide Item.Bytes, Item.Valid, Verified;
    VerifiedItems([it], false);
    assert [it][0].Image?;
    assert AllBytes([]) == [] && AllBytes([it]) == it.Bytes() + AllBytes([it][1..]) == it.Bytes() + [] == it.Bytes();
  }

  // ------------------------------------------------------------ extracting from files that were written

  /** Header and buffer after an item. */
  function After(x: Item, st: State): State
    requires x.Valid()
  {
    State(x.Head(), if x.Seal? then Through(st.buf, MetaBytes(x.metas)) else Through(MetaRead(x, st), x.image))
  }

  /** The buffer when the meta area of an image has been read. */
  function MetaRead(x: Item, st: State): (buf: Buffer)
    requires x.Image? && x.Valid()
  {
    Overlay(Overlay(st.buf, Md5.Digest(x.image)), MetaBytes(x.metas))
  }

  function AfterAll(items: seq<Item>, st: State): State
    requires AllValid(items)
  {
    if items == [] then st else AfterAll(items[1..], After(items[0], st))
  }

  /** The image of the first item that has all the wanted metas. */
  function FirstWith(items: seq<Item>, wanted: seq<seq<byte>>): Option<seq<byte>> {
    if items == [] then None
    else if items[0].Image? && HasAll(items[0].metas, wanted) then Some(items[0].image)
    else FirstWith(items[1..], wanted)
  }

  /** The header of the last image of the file, looked at once more at its end, together with what is then in
      the buffer, passes for an image with all the wanted metas. */
  predicate Stale(items: seq<Item>, st: State, wanted: seq<seq<byte>>)
    requires AllValid(items)
  {
    items != [] &&
    var last := items[|items| - 1];
    last.Image? && last.metas != [] && Matches(AfterAll(items, st).buf, |MetaBytes(last.metas)|, wanted)
  }

  lemma OverlayFull(old': seq<byte>, s: seq<byte>, rest: seq<byte>)
    requires |s| == |old'|
    ensures Overlay(old', s) == s && Take(s + rest, |s|) == s && (s + rest)[|s|..] == rest
  {
  }

  lemma TakeAll(s: seq<byte>, rest: seq<byte>)
    ensures Take(s + rest, |s|) == s && (s + rest)[|s|..] == rest
  {
  }

  /** The fields of a header on its own. */
  lemma HeadFields(x: Item)
    requires x.Valid()
    ensures var h := x.Head();
            GetBe32(h[0..4]) == MAGIC && GetBe16(h[6..8]) == |MetaBytes(x.metas)| && GetBe32(h[8..12]) == x.Size()
  {
    hide Header, GetBe32, GetBe16;
    HeaderFields(|MetaBytes(x.metas)|, x.Size(), []);
    assert x.Head() + [] == x.Head();
  }

  lemma WalkSeal(x: Item, rest: seq<byte>, st: State, wanted: seq<seq<byte>>)
    requires x.Valid() && x.Seal?
    ensures Walk(x.Bytes() + rest, st, wanted) == Walk(rest, After(x, st), wanted)
  {
    hide Item.Head, GetBe32, GetBe16, MetaBytes, Overlay, Take, Through, Matches, Walk, Md5.Digest;
    var meta := MetaBytes(x.metas);
    HeadFields(x);
    Assoc(x.Head(), meta, rest);
    WalkHead(x.Head(), meta + rest, st, wanted);
    TakeAll(meta, rest);
  }

  lemma WalkImage(x: Item, rest: seq<byte>, st: State, wanted: seq<seq<byte>>)
    requires x.Valid() && x.Image? && wanted != [] && forall i :: 0 <= i < |wanted| ==> wanted[i] != []
    ensures Walk(x.Bytes() + rest, st, wanted)
         == if HasAll(x.metas, wanted) then Walked(Written(x.image), After(x, st)) else Walk(rest, After(x, st), wanted)
  {
    hide Item.Head, GetBe32, GetBe16, MetaBytes, Overlay, Take, Through, Matches, Walk, Md5.Digest, HasAll;
    var sum, meta := Md5.Digest(x.image), MetaBytes(x.metas);
    var after := sum + (meta + (x.image + rest));
    HeadFields(x);
    assert x.Bytes() + rest == x.Head() + after;
    WalkHead(x.Head(), after, st, wanted);
    TakeAll(sum, meta + (x.image + rest));
    TakeAll(meta, x.image + rest);
    TakeAll(x.image, rest);
    assert after[|sum| + |meta|..] == x.image + rest;
    MetaMatches(x, st, wanted);
  }

  /** One turn for an item that was written. */
  lemma WalkItem(x: Item, rest: seq<byte>, st: State, wanted: seq<seq<byte>>)
    requires x.Valid() && wanted != [] && forall i :: 0 <= i < |wanted| ==> wanted[i] != []
    ensures Walk(x.Bytes() + rest, st, wanted)
         == if x.Image? && HasAll(x.metas, wanted) then Walked(Written(x.image), After(x, st))
            else Walk(rest, After(x, st), wanted)
  {
    hide Item.Valid, Item.Bytes, After, Walk, HasAll;
    if x.Seal? {
      WalkSeal(x, rest, st, wanted);
    } else {
      WalkImage(x, rest, st, wanted);
    }
  }

  lemma WalkHead(head: seq<byte>, rest: seq<byte>, st: State, wanted: seq<seq<byte>>)
    requires |head| == HEADER_SIZE && GetBe32(head[0..4]) == MAGIC
    ensures Walk(head + rest, st, wanted) == Body(rest, false, State(head, st.buf), wanted, |head + rest|)
  {
    hide GetBe32, Body;
    OverlayFull(st.shdr, head, rest);
  }

  lemma MetaMatches(x: Item, st: State, wanted: seq<seq<byte>>)
    requires x.Image? && x.Valid() && wanted != [] && forall i :: 0 <= i < |wanted| ==> wanted[i] != []
    ensures MetaBytes(x.metas) != [] && Matches(MetaRead(x, st), |MetaBytes(x.metas)|, wanted) <==> HasAll(x.metas, wanted)
  {
    hide MetaBytes, Matches;
    var buf := Overlay(st.buf, Md5.Digest(x.image));
    MetaEnds(x.metas);
    MatchesMetas(x.metas, buf[|MetaBytes(x.metas)|..], wanted);
    if x.metas == [] { assert wanted[0] !in x.metas; }
  }

  /** The walk over any items: it finds the first image with all the wanted metas, or comes to the end of the
      file with the last header and the last buffer. */
  lemma {:induction false} WalkItems(items: seq<Item>, st: State, wanted: seq<seq<byte>>)
    requires AllValid(items) && wanted != [] && forall i :: 0 <= i < |wanted| ==> wanted[i] != []
    ensures match FirstWith(items, wanted)
            case Some(image) => Walk(AllBytes(items), st, wanted).outcome == Written(image)
            case None => Walk(AllBytes(items), st, wanted) == Walk([], AfterAll(items, st), wanted)
    decreases |items|
  {
    hide Walk, Item.Bytes, Item.Valid, After, HasAll;
    if items != [] {
      WalkItem(items[0], AllBytes(items[1..]), st, wanted);
      WalkItems(items[1..], After(items[0], st), wanted);
    }
  }

  lemma {:induction false} LastHead(items: seq<Item>, st: State)
    requires AllValid(items) && items != []
    ensures AfterAll(items, st).shdr == items[|items| - 1].Head()
    decreases |items|
  {
    hide Item.Head, Item.Valid, Through;
    if |items| > 1 { LastHead(items[1..], After(items[0], st)); }
  }

  /** The turn at the end of the file. */
  lemma LastTurn(items: seq<Item>, st: State, wanted: seq<seq<byte>>)
    requires AllValid(items) && items != []
    ensures Walk([], AfterAll(items, st), wanted)
         == Walked(if Stale(items, st, wanted) then Written([]) else NotFound, AfterAll(items, st))
  {
    hide Item.Head, GetBe32, GetBe16, MetaBytes, Matches, AfterAll;
    var end, last := AfterAll(items, st), items[|items| - 1];
    LastHead(items, st);
    HeadFields(last);
    MetaEnds(last.metas);
    NothingRead(end.shdr);
    NothingRead(end.buf);
    assert Through(end.buf, []) == end.buf;
  }

  lemma NothingRead(s: seq<byte>)
    ensures Overlay(s, []) == s
    ensures forall n :: Take([], n) == []
  {
  }

  /** Extraction from a file: the image of the first item with all the wanted metas; without one, an empty
      output if the last header passes once more, and nothing otherwise. */
  lemma ExtractItems(items: seq<Item>, st: State, wanted: seq<seq<byte>>)
    requires AllValid(items) && items != [] && wanted != [] && forall i :: 0 <= i < |wanted| ==> wanted[i] != []
    ensures Walk(AllBytes(items), st, wanted).outcome
         == match FirstWith(items, wanted)
            case Some(image) => Written(image)
            case None => if Stale(items, st, wanted) then Written([]) else NotFound
    ensures Walk(AllBytes(items), st, wanted).outcome == NotFound ==> Walk(AllBytes(items), st, wanted).state == AfterAll(items, st)
  {
    hide Walk, AllBytes, AfterAll, Stale, FirstWith;
    WalkItems(items, st, wanted);
    LastTurn(items, st, wanted);
  }

  // ------------------------------------------------------------ many files

  predicate FilesValid(files: seq<seq<Item>>) { forall i :: 0 <= i < |files| ==> AllValid(files[i]) }

  function Contents(files: seq<seq<Item>>): (r: seq<seq<byte>>)
    ensures |r| == |files|
  {
    if files == [] then [] else [AllBytes(files[0])] + Contents(files[1..])
  }

  /** Header and buffer when the first files have been walked over; those that are not accepted are not read. */
  function Passed(files: seq<seq<Item>>, st: State): State
    requires FilesValid(files)
  {
    if files == [] then st else Passed(files[1..], if HasImage(files[0]) then AfterAll(files[0], st) else st)
  }

  /** The first file that holds an image with all the wanted metas; the number of files when there is none. */
  function FirstFile(files: seq<seq<Item>>, wanted: seq<seq<byte>>): (k: nat)
    ensures k <= |files| && (k < |files| ==> FirstWith(files[k], wanted).Some?)
  {
    if files == [] || FirstWith(files[0], wanted).Some? then 0 else 1 + FirstFile(files[1..], wanted)
  }

  /** What extraction is for: the image of the first item, in any of the files, that has all the wanted metas. */
  function Expected(files: seq<seq<Item>>, wanted: seq<seq<byte>>): Outcome {
    var k := FirstFile(files, wanted);
    if k < |files| then Written(FirstWith(files[k], wanted).value) else NotFound
  }

  /** No file before the one that is looked for ends with a header and a buffer that pass once more. */
  predicate NoneStale(files: seq<seq<Item>>, st: State, wanted: seq<seq<byte>>)
    requires FilesValid(files)
  {
    forall i :: 0 <= i < FirstFile(files, wanted) ==> !Stale(files[i], Passed(files[..i], st), wanted)
  }

  lemma NoneStaleCons(files: seq<seq<Item>>, st: State, wanted: seq<seq<byte>>)
    requires FilesValid(files) && files != [] && FirstWith(files[0], wanted) == None
    ensures var st' := if HasImage(files[0]) then AfterAll(files[0], st) else st;
            NoneStale(files, st, wanted) <==> !Stale(files[0], st, wanted) && NoneStale(files[1..], st', wanted)
  {
    hide FirstWith, Stale, HasImage, AfterAll, AllValid;
    var st' := if HasImage(files[0]) then AfterAll(files[0], st) else st;
    assert FirstFile(files, wanted) == 1 + FirstFile(files[1..], wanted);
    assert Passed(files[..0], st) == st;
    forall i: nat | 0 < i < |files|
      ensures files[i] == files[1..][i - 1] && Passed(files[..i], st) == Passed(files[1..][..i - 1], st')
    {
      assert files[..i][1..] == files[1..][..i - 1] && files[..i][0] == files[0];
    }
  }

  lemma {:induction false} NoImage(items: seq<Item>, st: State, wanted: seq<seq<byte>>)
    requires AllValid(items) && !HasImage(items)
    ensures FirstWith(items, wanted) == None && !Stale(items, st, wanted)
    decreases |items|
  {
    hide Item.Valid, AfterAll;
    if items != [] {
      assert !items[0].Image?;
      assert forall i :: 0 <= i < |items[1..]| ==> items[1..][i] == items[i + 1];
      assert !HasImage(items[1..]);
      NoImage(items[1..], st, wanted);
    }
  }

  /** Extraction from any files that were written gives the first image with all the wanted metas, or nothing
      when there is none, if and only if no file before it is stale; otherwise it gives an empty output. */
  lemma {:induction false} ExtractFiles(files: seq<seq<Item>>, st: State, wanted: seq<seq<byte>>)
    requires FilesValid(files) && wanted != [] && forall i :: 0 <= i < |wanted| ==> wanted[i] != []
    ensures ExtractedFrom(Contents(files), st, wanted)
         == if NoneStale(files, st, wanted) then Expected(files, wanted) else Written([])
    ensures ExtractedFrom(Contents(files), st, wanted) == Expected(files, wanted) <==> NoneStale(files, st, wanted)
    decreases |files|
  {
    hide Walk, AllBytes, AfterAll, Stale, FirstWith, AllValid, HasImage, NoneStale, Verified;
    if files == [] {
      EmptyNotStale(st, wanted);
    } else {
      var first := files[0];
      assert Contents(files)[1..] == Contents(files[1..]);
      VerifiedItems(first, false);
      FoundImage(files, wanted);
      if !HasImage(first) {
        NoImage(first, st, wanted);
        NoneStaleCons(files, st, wanted);
        ExtractFiles(files[1..], st, wanted);
      } else {
        NotEmpty(first);
        ExtractItems(first, st, wanted);
        if FirstWith(first, wanted) == None {
          NoneStaleCons(files, st, wanted);
          if !Stale(first, st, wanted) {
            ExtractFiles(files[1..], AfterAll(first, st), wanted);
          }
        } else {
          FirstNotStale(files, st, wanted);
        }
      }
    }
  }

  lemma EmptyNotStale(st: State, wanted: seq<seq<byte>>)
    ensures NoneStale([], st, wanted)
  {
  }

  lemma FirstNotStale(files: seq<seq<Item>>, st: State, wanted: seq<seq<byte>>)
    requires FilesValid(files) && files != [] && FirstWith(files[0], wanted).Some?
    ensures NoneStale(files, st, wanted) && FirstFile(files, wanted) == 0
  {
  }

  lemma NotEmpty(items: seq<Item>)
    requires HasImage(items)
    ensures items != []
  {
  }

  /** An image that is looked for is not empty. */
  lemma FoundImage(files: seq<seq<Item>>, wanted: seq<seq<byte>>)
    requires FilesValid(files)
    ensures Expected(files, wanted) != Written([])
  {
    var k := FirstFile(files, wanted);
    if k < |files| { FoundIn(files[k], wanted); }
  }

  lemma {:induction false} FoundIn(items: seq<Item>, wanted: seq<seq<byte>>)
    requires AllValid(items) && FirstWith(items, wanted).Some?
    ensures FirstWith(items, wanted).value != []
    decreases |items|
  {
    hide HasAll;
    if !(items[0].Image? && HasAll(items[0].metas, wanted)) { FoundIn(items[1..], wanted); }
  }

  /** The file that is looked for comes first: extraction gives its image, without any condition. */
  lemma ExtractFirst(items: seq<Item>, more: seq<seq<Item>>, st: State, wanted: seq<seq<byte>>)
    requires AllValid(items) && FilesValid(more) && FirstWith(items, wanted).Some?
    requires wanted != [] && forall i :: 0 <= i < |wanted| ==> wanted[i] != []
    ensures ExtractedFrom(Contents([items] + more), st, wanted) == Written(FirstWith(items, wanted).value)
  {
    hide AllValid, FirstWith, ExtractedFrom;
    var files := [items] + more;
    assert files[0] == items && files[1..] == more;
    FirstNotStale(files, st, wanted);
    ExtractFiles(files, st, wanted);
  }

  // ------------------------------------------------------------ a stale file

  /** The strings "file=a" and "file=b". */
  const FILE_A: seq<byte> := [0x66, 0x69, 0x6C, 0x65, 0x3D, 0x61]
  const FILE_B: seq<byte> := [0x66, 0x69, 0x6C, 0x65, 0x3D, 0x62]

  /** The only image of the first file has the metas "file=a" and starts with "file=b": asked for "file=b",
      extraction gives an empty output, and the second file, which has it, is never looked at. */
  lemma StaleExample(image: seq<byte>, st: State)
    requires 0 < |image| < 0x1_0000_0000
    ensures var files := [[Image([FILE_A], FILE_B + [0, 0])], [Image([FILE_B], image)]];
            && FilesValid(files) && Expected(files, [FILE_B]) == Written(image)
            && ExtractedFrom(Contents(files), st, [FILE_B]) == Written([])
  {
    hide Walk, Verified, Stale, AfterAll, Md5.Digest, MetaBytes;
    var a, b := Image([FILE_A], FILE_B + [0, 0]), Image([FILE_B], image);
    var files, wanted := [[a], [b]], [FILE_B];
    OneString(FILE_A);
    OneString(FILE_B);
    assert a.Valid() && b.Valid();
    assert FILE_B[5] != FILE_A[5];
    OneItem(a, wanted);
    OneItem(b, wanted);
    assert wanted[0] !in a.metas && HasAll(b.metas, wanted);
    assert files[1..] == [[b]] && files[..0] == [] && FirstFile(files[1..], wanted) == 0;
    StaleHere(a, st);
    assert !NoneStale(files, st, wanted) by { assert Passed(files[..0], st) == st; }
    ExtractFiles(files, st, wanted);
  }

  lemma OneItem(x: Item, wanted: seq<seq<byte>>)
    requires x.Image?
    ensures FirstWith([x], wanted) == if HasAll(x.metas, wanted) then Some(x.image) else None
  {
  }

  lemma OneString(s: seq<byte>)
    requires |s| == 6 && 0 !in s
    ensures MetaBytes([s]) == s + [0, 0]
  {
    assert Terminated([s]) == s + [0] + [];
  }

  lemma StaleHere(a: Item, st: State)
    requires a == Image([FILE_A], FILE_B + [0, 0]) && AllValid([a])
    ensures Stale([a], st, [FILE_B])
  {
    hide Md5.Digest, MetaBytes;
    OneString(FILE_A);
    var buf := AfterAll([a], st).buf;
    assert AfterAll([a], st) == After(a, st);
    var before := MetaRead(a, st);
    assert buf == Overlay(before, FILE_B + [0, 0]);
    assert buf[0..] == FILE_B + [0] + ([0] + before[8..]);
    FirstStringIs(FILE_B, [0] + before[8..]);
    assert FILE_B in StringsIn(buf, 0, 8);
  }
}
