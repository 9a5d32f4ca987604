/** What cramfsswap makes of the images that mkcramfs writes. */
module CramfsSwapImage {
  import opened Bytes
  import opened CramfsFormat
  import opened CramfsLayout
  import opened CramfsImage
  import opened CramfsRecords
  import opened CramfsRoundTrip
  import opened CramfsSwap

  // ------------------------------------------------------------ the directory pass

  predicate RecInRange(r: Rec) { InodeInRange(r.ent.InodeAt(r.at)) }

  function SlotOf(r: Rec): Slot { Slot(r.ent.size, r.at / 4) }

  function SlotsOf(rs: seq<Rec>): (s: seq<Slot>)
    ensures |s| == |rs|
    ensures forall i :: 0 <= i < |rs| ==> s[i] == SlotOf(rs[i])
  {
    if rs == [] then [] else [SlotOf(rs[0])] + SlotsOf(rs[1..])
  }

  /** How many of the records the directory pass counts as having data. */
  function Counted(rs: seq<Rec>): nat {
    if rs == [] then 0 else (if HasChunk(rs[0].ent.InodeAt(rs[0].at)) then 1 else 0) + Counted(rs[1..])
  }

  lemma RecordSwaps(en: Endian, r: Rec)
    requires RecInRange(r)
    ensures var rec := r.ent.Record(en, r.at);
            && |rec| == RecordLength(en, rec) && DecodeInode(en, rec[..INODE_SIZE]) == r.ent.InodeAt(r.at)
            && SwapRecord(en, rec) == r.ent.Record(Other(en), r.at)
  {
    hide EncodeInode, DecodeInode, SwapInode;
    var i := r.ent.InodeAt(r.at);
    var rec := r.ent.Record(en, r.at);
    assert rec[..INODE_SIZE] == EncodeInode(en, i) && rec[INODE_SIZE..] == r.ent.PaddedName();
    InodeRoundTrip(en, i);
    SwapInodeEncodes(en, i);
  }

  /** The directory pass over any list of records rewrites them and tabulates their sizes and offsets. */
  lemma {:induction false} ListedRecs(en: Endian, rs: seq<Rec>, tail: seq<byte>)
    requires forall r | r in rs :: RecInRange(r)
    ensures Listed(en, RecBytes(en, rs) + tail, |rs|)
         == Some(Listing(RecBytes(Other(en), rs), SlotsOf(rs), Counted(rs), tail))
  {
    hide DecodeInode, SwapRecord, Ent.Record, RecInRange, Ent.InodeAt, HasChunk, RecordLength, Listed;
    if rs == [] {
      ListedZero(en, tail);
      assert RecBytes(en, rs) + tail == tail;
    } else {
      var r, rest := rs[0], rs[1..];
      var rec := r.ent.Record(en, r.at);
      assert forall x | x in rest :: x in rs;
      ListedRecs(en, rest, tail);
      RecordSwaps(en, r);
      Assoc(rec, RecBytes(en, rest), tail);
      ListedCons(en, rec, RecBytes(en, rest) + tail, |rest|);
      SlotFields(r);
    }
  }

  lemma ListedZero(en: Endian, s: seq<byte>)
    ensures Listed(en, s, 0) == Some(Listing([], [], 0, s))
  {
  }

  lemma SlotFields(r: Rec)
    ensures SlotOf(r) == Slot(r.ent.InodeAt(r.at).size, r.ent.InodeAt(r.at).offset)
  {
  }

  // ------------------------------------------------------------ the data region as a list of chunks

  datatype Piece = Piece(data: seq<byte>, at: nat)

  /** The chunks that are really written, in the order they are written. */
  function Pieces(z: Zlib, t: Tree, s: Store): seq<Piece> {
    match t
    case Nil => []
    case Node(e, c, n) =>
      var s1 := StoreEnt(z, false, e, s);
      (if e.HasData() && e.data !in s.where then [Piece(e.data, s.end)] else [])
      + Pieces(z, c, s1) + Pieces(z, n, StoreTree(z, false, c, s1))
  }

  function PieceBytes(en: Endian, z: Zlib, ps: seq<Piece>): seq<byte> {
    if ps == [] then [] else Chunk(en, z, false, ps[0].data, ps[0].at) + PieceBytes(en, z, ps[1..])
  }

  lemma {:induction false} PieceBytesConcat(en: Endian, z: Zlib, a: seq<Piece>, b: seq<Piece>)
    ensures PieceBytes(en, z, a + b) == PieceBytes(en, z, a) + PieceBytes(en, z, b)
  {
    hide Chunk;
    if a == [] {
      assert a + b == b;
    } else {
      PieceBytesConcat(en, z, a[1..], b);
      assert (a + b)[1..] == a[1..] + b;
      Assoc(Chunk(en, z, false, a[0].data, a[0].at), PieceBytes(en, z, a[1..]), PieceBytes(en, z, b));
    }
  }

  lemma OnePiece(en: Endian, z: Zlib, p: Piece)
    ensures PieceBytes(en, z, [p]) == Chunk(en, z, false, p.data, p.at)
    ensures PieceBytes(en, z, []) == []
  {
    hide Chunk;
    assert [p][1..] == [];
  }

  lemma {:induction false} DataIsPieces(en: Endian, z: Zlib, t: Tree, s: Store)
    ensures DataBytes(en, z, false, t, s) == PieceBytes(en, z, Pieces(z, t, s))
  {
    hide Chunk, PieceBytes, StoreEnt, StoreTree;
    match t
    case Nil => OnePiece(en, z, Piece([], 0));
    case Node(e, c, n) =>
      var s1 := StoreEnt(z, false, e, s);
      var s2 := StoreTree(z, false, c, s1);
      var own := if e.HasData() && e.data !in s.where then [Piece(e.data, s.end)] else [];
      OnePiece(en, z, Piece(e.data, s.end));
      DataIsPieces(en, z, c, s1);
      DataIsPieces(en, z, n, s2);
      PieceBytesConcat(en, z, own, Pieces(z, c, s1));
      PieceBytesConcat(en, z, own + Pieces(z, c, s1), Pieces(z, n, s2));
  }

  /** The chunks follow each other from `p` to `end` without gaps. */
  predicate Chain(z: Zlib, ps: seq<Piece>, p: nat, end: nat) {
    if ps == [] then p == end
    else ps[0].at == p && 0 < |ps[0].data| < SIZE_LIMIT
         && Chain(z, ps[1..], p + ChunkSize(z, false, ps[0].data), end)
  }

  lemma {:induction false} ChainConcat(z: Zlib, a: seq<Piece>, b: seq<Piece>, p: nat, m: nat, end: nat)
    requires Chain(z, a, p, m) && Chain(z, b, m, end)
    ensures Chain(z, a + b, p, end)
  {
    hide ChunkSize;
    if a == [] {
      assert a + b == b;
    } else {
      ChainConcat(z, a[1..], b, p + ChunkSize(z, false, a[0].data), m, end);
      assert (a + b)[1..] == a[1..] + b;
    }
  }

  lemma {:induction false} PiecesChain(z: Zlib, t: Tree, s: Store)
    requires ValidTree(t)
    ensures Chain(z, Pieces(z, t, s), s.end, StoreTree(z, false, t, s).end)
  {
    hide Chain, ChunkSize;
    match t
    case Nil => ChainNothing(z, s.end);
    case Node(e, c, n) =>
      var s1 := StoreEnt(z, false, e, s);
      var s2 := StoreTree(z, false, c, s1);
      var own := if e.HasData() && e.data !in s.where then [Piece(e.data, s.end)] else [];
      PiecesChain(z, c, s1);
      PiecesChain(z, n, s2);
      if own == [] { ChainNothing(z, s.end); } else { ChainOne(z, e.data, s.end); }
      ChainConcat(z, own, Pieces(z, c, s1), s.end, s1.end, s2.end);
      ChainConcat(z, own + Pieces(z, c, s1), Pieces(z, n, s2), s.end, s2.end, StoreTree(z, false, t, s).end);
  }

  lemma ChainNothing(z: Zlib, p: nat)
    ensures Chain(z, [], p, p)
  {
  }

  lemma ChainOne(z: Zlib, d: seq<byte>, p: nat)
    requires 0 < |d| < SIZE_LIMIT
    ensures Chain(z, [Piece(d, p)], p, p + ChunkSize(z, false, d))
  {
    hide ChunkSize;
    assert [Piece(d, p)][1..] == [];
  }

  /** Chunks lie between `p` and `end`, and no chunk starts inside another. */
  lemma {:induction false} ChainSpread(z: Zlib, ps: seq<Piece>, p: nat, end: nat)
    requires Lawful(z) && Chain(z, ps, p, end)
    ensures p <= end
    ensures forall x | x in ps :: p <= x.at && x.at + ChunkSize(z, false, x.data) <= end && ChunkSize(z, false, x.data) >= 4
    ensures ps != [] ==> forall x | x in ps :: x == ps[0] || x.at >= p + ChunkSize(z, false, ps[0].data)
  {
    hide ChunkSize, Lawful;
    if ps != [] {
      ChunkBound(z, false, ps[0].data);
      ChainSpread(z, ps[1..], p + ChunkSize(z, false, ps[0].data), end);
      assert forall x | x in ps :: x == ps[0] || x in ps[1..];
    }
  }

  // ------------------------------------------------------------ records and chunks agree

  /** A record with data points at its chunk; the others point before the data region. */
  predicate Agrees(r: Rec, all: seq<Piece>, base: nat) {
    && RecInRange(r) && r.at % 4 == 0
    && HasChunk(r.ent.InodeAt(r.at)) == r.ent.HasData()
    && (if r.ent.HasData() then Piece(r.ent.data, r.at) in all && r.ent.size == |r.ent.data| else r.at < base)
  }

  predicate ForestAgrees(f: Forest, all: seq<Piece>, base: nat) {
    match f
    case FNil => true
    case FNode(e, pos, at, c, n) =>
      Agrees(Rec(e, pos, at), all, base) && ForestAgrees(c, all, base) && ForestAgrees(n, all, base)
  }

  lemma {:induction false} FlatAgrees(f: Forest, all: seq<Piece>, base: nat)
    requires ForestAgrees(f, all, base)
    ensures forall r | r in Flat(f) :: Agrees(r, all, base)
    ensures forall r | r in Sib(f) :: Agrees(r, all, base)
    ensures forall r | r in Desc(f) :: Agrees(r, all, base)
  {
    hide Agrees;
    match f
    case FNil =>
    case FNode(e, pos, at, c, n) => FlatAgrees(c, all, base); FlatAgrees(n, all, base);
  }

  /** The store knows only chunks of `all`. */
  ghost predicate Knows(s: Store, all: seq<Piece>) {
    s.end % 4 == 0 && forall d | d in s.where :: Piece(d, s.where[d]) in all && s.where[d] % 4 == 0
  }

  lemma {:induction false} LayAgrees(z: Zlib, t: Tree, p: nat, q: nat, s: Store, all: seq<Piece>, base: nat)
    requires ValidTree(t) && OffsetsFit(Lay(z, false, t, p, q, s)) && Knows(s, all)
    requires forall x | x in Pieces(z, t, s) :: x in all
    requires q % 4 == 0 && q + Below(t) <= base && base > 0
    ensures ForestAgrees(Lay(z, false, t, p, q, s), all, base)
    ensures Knows(StoreTree(z, false, t, s), all)
  {
    hide Knows, Agrees, StoreEnt, DataAt, ChunkSize, ValidEnt, Width, Total, Ent.RecordSize;
    match t
    case Nil =>
    case Node(e, c, n) =>
      var s1 := StoreEnt(z, false, e, s);
      var s2 := StoreTree(z, false, c, s1);
      KnowsEnt(z, e, s, all);
      TotalSplits(c);
      Aligned(q, Width(c));
      Aligned(q, Total(c));
      LayAgrees(z, c, q, q + Width(c), s1, all, base);
      LayAgrees(z, n, p + e.RecordSize(), q + Total(c), s2, all, base);
      ChildTakesSpace(c);
      EntAgrees(z, e, c, p, q, s, all, base);
  }

  lemma ChildTakesSpace(c: Tree)
    ensures c.Node? ==> Total(c) > 0
  {
  }

  lemma KnowsEnt(z: Zlib, e: Ent, s: Store, all: seq<Piece>)
    requires Knows(s, all) && (e.HasData() && e.data !in s.where ==> Piece(e.data, s.end) in all)
    ensures Knows(StoreEnt(z, false, e, s), all)
    ensures e.HasData() ==> Piece(e.data, DataAt(e, s)) in all && DataAt(e, s) % 4 == 0
  {
    ChunkLength(Little, z, false, e.data, s.end);
    Aligned(s.end, ChunkSize(z, false, e.data));
  }

  lemma EntAgrees(z: Zlib, e: Ent, c: Tree, p: nat, q: nat, s: Store, all: seq<Piece>, base: nat)
    requires ValidEnt(e, c) && q % 4 == 0 && base > 0 && (c.Node? ==> q < base)
    requires e.HasData() ==> Piece(e.data, DataAt(e, s)) in all && DataAt(e, s) % 4 == 0
    requires var at := if e.HasData() then DataAt(e, s) else if c.Node? then q else 0; at < 4 * OFFSET_LIMIT
    ensures Agrees(Rec(e, p, if e.HasData() then DataAt(e, s) else if c.Node? then q else 0), all, base)
  {
    hide DataAt;
  }

  /** Every chunk belongs to some record. */
  lemma {:induction false} Covered(z: Zlib, t: Tree, p: nat, q: nat, s: Store, rs: seq<Rec>)
    requires InRecs(Lay(z, false, t, p, q, s), rs)
    ensures forall x | x in Pieces(z, t, s) :: exists r :: r in rs && r.ent.data == x.data && r.at == x.at
  {
    hide StoreEnt, StoreTree, ChunkSize;
    match t
    case Nil =>
    case Node(e, c, n) =>
      var s1 := StoreEnt(z, false, e, s);
      var s2 := StoreTree(z, false, c, s1);
      Covered(z, c, q, q + Width(c), s1, rs);
      Covered(z, n, p + e.RecordSize(), q + Total(c), s2, rs);
      assert Rec(e, p, Lay(z, false, t, p, q, s).at) in rs;
  }

  // ------------------------------------------------------------ one chunk

  lemma {:induction false} PointersSwap(en: Endian, z: Zlib, d: seq<byte>, curr: nat)
    ensures |Pointers(en, z, false, d, curr)| % 4 == 0
    ensures SwapWords(Pointers(en, z, false, d, curr)) == Pointers(Other(en), z, false, d, curr)
    decreases |d|
  {
    hide Put32, Bswap, SwapWords, Squeeze;
    PointersSize(en, z, false, d, curr);
    if d == [] {
      SwapEmpty();
    } else if |d| <= BLOCK {
      PutSwaps(en, curr + |Squeeze(z, false, d)|);
    } else {
      var next := curr + |Squeeze(z, false, d[..BLOCK])|;
      PutSwaps(en, next);
      PointersSwap(en, z, d[BLOCK..], next);
      SwapWordsConcat(Put32(en, next), Pointers(en, z, false, d[BLOCK..], next));
    }
  }

  lemma SwapEmpty()
    ensures SwapWords([]) == []
  {
  }

  lemma PutSwaps(en: Endian, n: nat)
    ensures SwapWords(Put32(en, n)) == Put32(Other(en), n)
  {
    SwapOne(Put32(en, n));
  }

  lemma {:induction false} LastPointer(en: Endian, z: Zlib, d: seq<byte>, curr: nat)
    requires d != [] && curr + |Blocks(z, false, d)| < LIMIT
    ensures var ps := Pointers(en, z, false, d, curr);
            |ps| >= 4 && Get32(en, ps[|ps| - 4..]) == curr + |Blocks(z, false, d)|
    decreases |d|
  {
    hide Put32, Get32, Squeeze;
    var ps := Pointers(en, z, false, d, curr);
    if |d| <= BLOCK {
      assert ps[|ps| - 4..] == ps;
      GetPut32(en, curr + |Squeeze(z, false, d)|);
    } else {
      var next := curr + |Squeeze(z, false, d[..BLOCK])|;
      var rest := Pointers(en, z, false, d[BLOCK..], next);
      LastPointer(en, z, d[BLOCK..], next);
      assert ps == Put32(en, next) + rest;
      assert ps[|ps| - 4..] == rest[|rest| - 4..];
    }
  }

  lemma ChunkLast(en: Endian, z: Zlib, d: seq<byte>, at: nat)
    requires d != [] && at + ChunkSize(z, false, d) < LIMIT
    ensures var n, c := BlockCount(|d|), Chunk(en, z, false, d, at);
            && 4 <= 4 * n <= |c| && |c| == ChunkSize(z, false, d)
            && Get32(en, c[4 * n - 4..4 * n]) == at + 4 * n + |Blocks(z, false, d)|
  {
    hide Get32, Pointers, Blocks, BlockCount, Zeros, Chunk, ChunkSize;
    var n, b := BlockCount(|d|), Blocks(z, false, d);
    var p := Pointers(en, z, false, d, at + 4 * n);
    ChunkShape(en, z, d, at);
    LastPointer(en, z, d, at + 4 * n);
    ChunkTail(p, p, b, Zeros(ChunkSize(z, false, d) - 4 * n - |b|));
    SliceTake(Chunk(en, z, false, d, at), |p|, |p| - 4);
  }

  function SwapTable(c: seq<byte>, n: nat): seq<byte>
    requires 4 * n <= |c|
  {
    SwapWords(c[..4 * n]) + c[4 * n..]
  }

  /** Swapping the pointer table and copying the rest gives the chunk in the other byte order. */
  lemma ChunkSwaps(en: Endian, z: Zlib, d: seq<byte>, at: nat)
    ensures var n, c := BlockCount(|d|), Chunk(en, z, false, d, at);
            4 * n <= |c| && SwapTable(c, n) == Chunk(Other(en), z, false, d, at)
  {
    hide SwapWords, Pointers, Blocks, BlockCount, Zeros, Chunk, ChunkSize;
    var n, b := BlockCount(|d|), Blocks(z, false, d);
    var p, p' := Pointers(en, z, false, d, at + 4 * n), Pointers(Other(en), z, false, d, at + 4 * n);
    ChunkShape(en, z, d, at);
    ChunkShape(Other(en), z, d, at);
    PointersSwap(en, z, d, at + 4 * n);
    ChunkTail(p, p', b, Zeros(ChunkSize(z, false, d) - 4 * n - |b|));
  }

  lemma SliceTake(c: seq<byte>, n: nat, i: nat)
    requires i <= n <= |c|
    ensures c[i..n] == c[..n][i..]
  {
  }

  lemma ChunkShape(en: Endian, z: Zlib, d: seq<byte>, at: nat)
    ensures var n, b := BlockCount(|d|), Blocks(z, false, d);
            var p := Pointers(en, z, false, d, at + 4 * n);
            && |p| == 4 * n && 4 * n + |b| <= ChunkSize(z, false, d)
            && Chunk(en, z, false, d, at) == p + b + Zeros(ChunkSize(z, false, d) - 4 * n - |b|)
  {
    hide Pointers, Blocks, BlockCount;
    PointersSize(en, z, false, d, at + 4 * BlockCount(|d|));
  }

  lemma ChunkTail(p: seq<byte>, p': seq<byte>, b: seq<byte>, fill: seq<byte>)
    ensures (p + b + fill)[..|p|] == p && (p + b + fill)[|p|..] == b + fill
    ensures p' + (b + fill) == p' + b + fill
  {
  }

  // ------------------------------------------------------------ counting the files down

  /** How many records have their data at `w` or later. */
  function Later(rs: seq<Rec>, w: nat): (n: nat)
    ensures n <= |rs|
  {
    if rs == [] then 0
    else Later(rs[..|rs| - 1], w) + if rs[|rs| - 1].ent.HasData() && rs[|rs| - 1].at >= w then 1 else 0
  }

  lemma {:induction false} CountedSnoc(rs: seq<Rec>, r: Rec)
    ensures Counted(rs + [r]) == Counted(rs) + if HasChunk(r.ent.InodeAt(r.at)) then 1 else 0
  {
    if rs == [] {
      assert rs + [r] == [r] && [r][1..] == [];
    } else {
      CountedSnoc(rs[1..], r);
      assert (rs + [r])[1..] == rs[1..] + [r];
    }
  }

  lemma {:induction false} CountedLater(rs: seq<Rec>, all: seq<Piece>, base: nat)
    requires forall r | r in rs :: Agrees(r, all, base)
    requires forall x | x in all :: x.at >= base
    ensures Counted(rs) == Later(rs, base)
  {
    if rs != [] {
      var front, r := rs[..|rs| - 1], rs[|rs| - 1];
      CountedLater(front, all, base);
      CountedSnoc(front, r);
      assert rs == front + [r];
      assert Agrees(r, all, base);
    }
  }

  lemma {:induction false} LaterNone(rs: seq<Rec>, w: nat)
    requires forall r | r in rs && r.ent.HasData() :: r.at < w
    ensures Later(rs, w) == 0
  {
    if rs != [] { LaterNone(rs[..|rs| - 1], w); }
  }

  lemma {:induction false} LaterSome(rs: seq<Rec>, r: Rec, w: nat)
    requires r in rs && r.ent.HasData() && r.at >= w
    ensures Later(rs, w) > 0
  {
    if r != rs[|rs| - 1] { LaterSome(rs[..|rs| - 1], r, w); }
  }

  /** The files at `w` are what is counted at `w` but no longer at `next`. */
  lemma {:induction false} CountMatches(slots: seq<Slot>, root: Slot, rs: seq<Rec>, n: nat, w: nat, next: nat)
    requires slots == [root] + SlotsOf(rs) && 1 <= n <= |slots| && w < next && w % 4 == 0
    requires forall r | r in rs :: r.at % 4 == 0 && (r.at == w ==> r.ent.HasData())
    requires forall r | r in rs && r.ent.HasData() :: r.at <= w || r.at >= next
    ensures Later(rs[..n - 1], w) == CountSlots(slots, n, w / 4) + Later(rs[..n - 1], next)
  {
    if n > 1 {
      CountMatches(slots, root, rs, n - 1, w, next);
      var r := rs[n - 2];
      assert r in rs && slots[n - 1] == SlotOf(r);
      assert rs[..n - 1][..n - 2] == rs[..n - 2] && rs[..n - 1][n - 2] == r;
      assert r.at / 4 == w / 4 <==> r.at == w;
    }
  }

  lemma {:induction false} FindExists(slots: seq<Slot>, k: nat, w: nat, i: nat)
    requires k <= i < |slots| && slots[i].offset == w
    ensures FindSlot(slots, k, w) <= i
    decreases |slots| - k
  {
    if slots[k].offset != w { FindExists(slots, k + 1, w, i); }
  }

  // ------------------------------------------------------------ the data pass

  /** Everything the data pass relies on when it stands at `p` and the chunks `ps` are still to come. */
  ghost predicate Ready(z: Zlib, rs: seq<Rec>, all: seq<Piece>, ps: seq<Piece>, base: nat, p: nat, end: nat) {
    && Chain(z, ps, p, end) && base <= p && p % 4 == 0 && end < LIMIT && |rs| < LIMIT
    && (forall r | r in rs :: Agrees(r, all, base))
    && (forall x | x in all :: x in ps || x.at < p)
    && (forall x | x in ps :: exists r :: r in rs && r.ent.data == x.data && r.at == x.at)
  }

  /** Records with the offset of the next chunk hold its content. */
  lemma ReadyHere(z: Zlib, rs: seq<Rec>, all: seq<Piece>, ps: seq<Piece>, base: nat, p: nat, end: nat, r: Rec)
    requires Lawful(z) && Ready(z, rs, all, ps, base, p, end) && ps != [] && r in rs
    ensures r.at % 4 == 0 && (r.at == p ==> r.ent.HasData())
    ensures r.ent.HasData() ==> r.at <= p || r.at >= p + ChunkSize(z, false, ps[0].data)
    ensures r.at == p ==> r.ent.data == ps[0].data && r.ent.size == |r.ent.data|
  {
    hide Lawful, ChunkSize, RecInRange, HasChunk;
    ChainSpread(z, ps, p, end);
    assert Agrees(r, all, base);
    if r.ent.HasData() {
      var x := Piece(r.ent.data, r.at);
      assert x in ps ==> x == ps[0] || x.at >= p + ChunkSize(z, false, ps[0].data);
      ChunkBound(z, false, ps[0].data);
    }
  }

  lemma ReadyNext(z: Zlib, rs: seq<Rec>, all: seq<Piece>, ps: seq<Piece>, base: nat, p: nat, end: nat)
    requires Lawful(z) && Ready(z, rs, all, ps, base, p, end) && ps != []
    ensures Ready(z, rs, all, ps[1..], base, p + ChunkSize(z, false, ps[0].data), end)
    ensures p + ChunkSize(z, false, ps[0].data) <= end && ChunkSize(z, false, ps[0].data) >= 4
    ensures ps[0].at == p && ps[0].data != []
  {
    hide Lawful, ChunkSize, Agrees;
    ChainSpread(z, ps, p, end);
    ChunkLength(Little, z, false, ps[0].data, p);
    Aligned(p, ChunkSize(z, false, ps[0].data));
    assert forall x | x in ps :: x == ps[0] || x in ps[1..];
    assert forall x | x in ps[1..] :: x in ps;
  }

  /** The step: the file is found, its extent is the whole chunk, and its files leave the counter. */
  lemma ExtentHere(en: Endian, z: Zlib, root: Slot, rs: seq<Rec>, all: seq<Piece>, ps: seq<Piece>, base: nat, p: nat,
                   end: nat, tail: seq<byte>) returns (files: nat)
    requires Lawful(z) && Ready(z, rs, all, ps, base, p, end) && ps != []
    ensures Later(rs, p) > 0
    ensures var d := ps[0].data;
            var size := ChunkSize(z, false, d);
            && FindExtent(en, [root] + SlotsOf(rs), Chunk(en, z, false, d, p) + tail, p / 4)
               == Some(Extent(4 * BlockCount(|d|), size, (p + size) / 4, files))
            && Modulo32(Later(rs, p) - files) == Later(rs, p + size)
  {
    hide Lawful, ChunkSize, Chunk, Ready, CountSlots, FindSlot, Get32, BlockTotal, WordUp, CopyBytes, BlockCount, Later,
         FindExtent, Modulo32;
    var d := ps[0].data;
    var size := ChunkSize(z, false, d);
    var slots := [root] + SlotsOf(rs);
    ReadyNext(z, rs, all, ps, base, p, end);
    ReadyBounds(z, rs, all, ps, base, p, end);
    var r: Rec :| r in rs && r.ent.data == d && r.at == p;
    LaterSome(rs, r, p);
    var i :| 0 <= i < |rs| && rs[i] == r;
    FindExists(slots, 1, p / 4, i + 1);
    var k := FindSlot(slots, 1, p / 4);
    var f := rs[k - 1];
    assert slots[k] == SlotOf(f) && f in rs;
    ReadyHere(z, rs, all, ps, base, p, end, f);
    ExtentAt(en, z, slots, k, d, p, tail);
    CountHere(z, root, rs, all, ps, base, p, end);
    files := CountSlots(slots, |slots|, p / 4);
    LaterLimit(rs, p + size);
  }

  /** What the files of the next chunk leave of the counter. */
  lemma CountHere(z: Zlib, root: Slot, rs: seq<Rec>, all: seq<Piece>, ps: seq<Piece>, base: nat, p: nat, end: nat)
    requires Lawful(z) && Ready(z, rs, all, ps, base, p, end) && ps != [] && ChunkSize(z, false, ps[0].data) > 0 && p % 4 == 0
    ensures var slots := [root] + SlotsOf(rs);
            Later(rs, p) == CountSlots(slots, |slots|, p / 4) + Later(rs, p + ChunkSize(z, false, ps[0].data))
  {
    hide Lawful, ChunkSize, Ready, CountSlots, Later;
    var slots := [root] + SlotsOf(rs);
    ReadyApart(z, rs, all, ps, base, p, end);
    CountMatches(slots, root, rs, |slots|, p, p + ChunkSize(z, false, ps[0].data));
    assert rs[..|slots| - 1] == rs;
  }

  /** No other file starts within the next chunk. */
  lemma ReadyApart(z: Zlib, rs: seq<Rec>, all: seq<Piece>, ps: seq<Piece>, base: nat, p: nat, end: nat)
    requires Lawful(z) && Ready(z, rs, all, ps, base, p, end) && ps != []
    ensures forall r | r in rs ::
              && r.at % 4 == 0 && (r.at == p ==> r.ent.HasData())
              && (r.ent.HasData() ==> r.at <= p || r.at >= p + ChunkSize(z, false, ps[0].data))
  {
    hide Lawful, ChunkSize, Ready;
    forall r | r in rs
      ensures r.at % 4 == 0 && (r.at == p ==> r.ent.HasData())
      ensures r.ent.HasData() ==> r.at <= p || r.at >= p + ChunkSize(z, false, ps[0].data)
    {
      ReadyHere(z, rs, all, ps, base, p, end, r);
    }
  }

  /** The extent of the file `k`, whose chunk is next in the input. */
  lemma ExtentAt(en: Endian, z: Zlib, slots: seq<Slot>, k: nat, d: seq<byte>, p: nat, tail: seq<byte>)
    requires k == FindSlot(slots, 1, p / 4) && k < |slots| && slots[k].size == |d| && 0 < |d| < SIZE_LIMIT
    requires p % 4 == 0 && p + ChunkSize(z, false, d) < LIMIT
    ensures FindExtent(en, slots, Chunk(en, z, false, d, p) + tail, p / 4)
         == Some(Extent(4 * BlockCount(|d|), ChunkSize(z, false, d), (p + ChunkSize(z, false, d)) / 4,
                        CountSlots(slots, |slots|, p / 4)))
  {
    hide ChunkSize, Chunk, CountSlots, FindSlot, Get32, BlockTotal, WordUp, CopyBytes, BlockCount, FindExtent, Blocks;
    var n, c := BlockCount(|d|), Chunk(en, z, false, d, p);
    var last := p + 4 * n + |Blocks(z, false, d)|;
    TotalBlocks(|d|);
    ChunkLast(en, z, d, p);
    TakeTail(c, tail, 4 * n - 4, 4 * n);
    ChunkArithmetic(z, d, p);
    FindExtentIs(en, slots, c + tail, p / 4, k, n, last);
    assert 4 * n + CopyBytes(last, p / 4 + n) == ChunkSize(z, false, d);
  }

  lemma TakeTail(c: seq<byte>, tail: seq<byte>, i: nat, j: nat)
    requires i <= j <= |c|
    ensures (c + tail)[i..j] == c[i..j]
  {
  }

  lemma FindExtentIs(en: Endian, slots: seq<Slot>, s: seq<byte>, w: nat, k: nat, n: nat, last: nat)
    requires k == FindSlot(slots, 1, w) && k < |slots| && n == BlockTotal(slots[k].size)
    requires 4 * n <= |s| && last == Get32(en, s[4 * n - 4..4 * n]) && 4 * n + CopyBytes(last, w + n) <= |s|
    ensures FindExtent(en, slots, s, w)
         == Some(Extent(4 * n, 4 * n + CopyBytes(last, w + n), WordUp(last) / 4, CountSlots(slots, |slots|, w)))
  {
    hide BlockTotal, CopyBytes, WordUp, CountSlots, FindSlot, Get32;
  }

  lemma ReadyBounds(z: Zlib, rs: seq<Rec>, all: seq<Piece>, ps: seq<Piece>, base: nat, p: nat, end: nat)
    requires Ready(z, rs, all, ps, base, p, end) && ps != []
    ensures end < LIMIT && p % 4 == 0 && |rs| < LIMIT && |ps[0].data| < SIZE_LIMIT
    ensures exists r :: r in rs && r.ent.data == ps[0].data && r.at == p
  {
    hide ChunkSize, Agrees;
    assert ps[0] in ps;
  }

  lemma LaterLimit(rs: seq<Rec>, w: nat)
    requires |rs| < LIMIT
    ensures Modulo32(Later(rs, w)) == Later(rs, w)
  {
    hide Later;
  }

  lemma TotalBlocks(size: nat)
    requires 0 < size < SIZE_LIMIT
    ensures BlockTotal(size) == BlockCount(size)
  {
    BlockCountAlt(size);
  }

  lemma ChunkArithmetic(z: Zlib, d: seq<byte>, p: nat)
    requires p % 4 == 0 && p + ChunkSize(z, false, d) < LIMIT
    ensures var n := BlockCount(|d|);
            var last := p + 4 * n + |Blocks(z, false, d)|;
            && 4 * n <= ChunkSize(z, false, d)
            && WordUp(last) == p + ChunkSize(z, false, d)
            && CopyBytes(last, p / 4 + n) == ChunkSize(z, false, d) - 4 * n
  {
    hide BlockCount, Blocks;
    RoundUpIs(p, 4 * BlockCount(|d|) + |Blocks(z, false, d)|);
  }

  lemma RoundUpIs(p: nat, x: nat)
    requires p % 4 == 0 && p + RoundUp4(x) < LIMIT
    ensures WordUp(p + x) == p + RoundUp4(x)
  {
    assert (p + x) % 4 == x % 4;
  }

  lemma {:induction false} DataPassPieces(en: Endian, z: Zlib, root: Slot, rs: seq<Rec>, all: seq<Piece>, ps: seq<Piece>,
                                          base: nat, p: nat, end: nat, tail: seq<byte>)
    requires Lawful(z) && Ready(z, rs, all, ps, base, p, end)
    ensures DataPass(en, [root] + SlotsOf(rs), PieceBytes(en, z, ps) + tail, p / 4, Later(rs, p))
         == Some(PieceBytes(Other(en), z, ps) + tail)
    decreases |ps|
  {
    hide Lawful, ChunkSize, Chunk, Ready, FindExtent, Later, SwapWords, BlockCount, Modulo32;
    if ps == [] {
      NothingLeft(z, rs, all, base, p, end);
    } else {
      var d := ps[0].data;
      var size, n := ChunkSize(z, false, d), BlockCount(|d|);
      var c, c', rest := Chunk(en, z, false, d, p), Chunk(Other(en), z, false, d, p), PieceBytes(en, z, ps[1..]);
      ReadyNext(z, rs, all, ps, base, p, end);
      ReadyBounds(z, rs, all, ps, base, p, end);
      var files := ExtentHere(en, z, root, rs, all, ps, base, p, end, rest + tail);
      ChunkLast(en, z, d, p);
      ChunkSwaps(en, z, d, p);
      DataPassPieces(en, z, root, rs, all, ps[1..], base, p + size, end, tail);
      var s := c + (rest + tail);
      Assoc(c, rest, tail);
      assert s[..4 * n] == c[..4 * n] && s[4 * n..size] == c[4 * n..] && s[size..] == rest + tail;
      Assoc(c', PieceBytes(Other(en), z, ps[1..]), tail);
    }
  }

  lemma NothingLeft(z: Zlib, rs: seq<Rec>, all: seq<Piece>, base: nat, p: nat, end: nat)
    requires Ready(z, rs, all, [], base, p, end)
    ensures Later(rs, p) == 0
  {
    forall r | r in rs && r.ent.HasData() ensures r.at < p {
      assert Agrees(r, all, base);
      assert Piece(r.ent.data, r.at) in all;
    }
    LaterNone(rs, p);
  }

  // ------------------------------------------------------------ the whole image

  /** The first record of the directory pass: the root inode, which has no name. */
  function RootRec(o: Options, root: Ent): Rec { Rec(root.(name := []), SUPER_HEAD, DirStart(o)) }

  /** The part of the superblock before the root inode, and the root inode as a record. */
  lemma SuperSplit(en: Endian, o: Options, root: Ent, t: Tree, crc: nat)
    requires o.en == en
    ensures var b := EncodeSuper(en, SuperOf(o, root, t, crc));
            && b[SUPER_HEAD..] == RootRec(o, root).ent.Record(en, RootRec(o, root).at)
            && b[..32] == EncodeSuper(en, SuperOf(o, root, t, 0))[..32]
            && b[32..36] == Put32(en, crc)
            && b[36..SUPER_HEAD] == EncodeSuper(en, SuperOf(o, root, t, 0))[36..SUPER_HEAD]
            && b[0..4] == Put32(en, MAGIC) && b[8..12] == Put32(en, Flags(o)) && b[44..48] == Put32(en, 1 + Count(t))
  {
    hide EncodeInode, Put32, Flags, ImageSize, BlocksWritten, Count, FsName, DirStart;
    var s := SuperOf(o, root, t, crc);
    var r := RootRec(o, root);
    assert r.ent.PaddedName() == [];
    assert RoundUp4(0) / 4 == 0;
    assert s.root == r.ent.InodeAt(r.at);
    assert r.ent.Record(en, r.at) == EncodeInode(en, s.root);
  }

  /** What the two passes have to read: the root inode and the records, the chunks, the padding. */
  lemma PassInput(o: Options, root: Ent, t: Tree, crc: nat)
    requires o.insert == [] && !o.holes && !o.pad
    ensures var img := EncodeSuper(o.en, SuperOf(o, root, t, crc)) + Body(o, t);
            && |img| >= SUPER_HEAD
            && img[SUPER_HEAD..] == PassBytes(o.en, o, root, t)
            && img[..SUPER_HEAD] == EncodeSuper(o.en, SuperOf(o, root, t, crc))[..SUPER_HEAD]
  {
    hide EncodeSuper, SuperOf, Flat, Laid, RecBytes, DirBytes, DataBytes, PieceBytes, Ent.Record, DirStart, ImageSize, Used, Pieces;
    BodyParts(o, t);
    var super := EncodeSuper(o.en, SuperOf(o, root, t, crc));
    var r := RootRec(o, root);
    var dirs, data, fill := DirBytes(o.en, Laid(o, t)), DataBytes(o.en, o.z, false, t, DataStart(o, t)),
                            Zeros(ImageSize(o, t) - Used(o, t));
    SuperSplit(o.en, o, root, t, crc);
    FlatBytes(o.en, Laid(o, t));
    RecBytesCons(o.en, r, Flat(Laid(o, t)));
    DataIsPieces(o.en, o.z, t, DataStart(o, t));
    InputShape(super, r.ent.Record(o.en, r.at), dirs, data, fill);
  }

  lemma BodyParts(o: Options, t: Tree)
    requires o.insert == [] && !o.holes
    ensures Used(o, t) <= ImageSize(o, t)
    ensures Body(o, t) == DirBytes(o.en, Laid(o, t)) + DataBytes(o.en, o.z, false, t, DataStart(o, t))
                          + Zeros(ImageSize(o, t) - Used(o, t))
  {
    hide DirBytes, DataBytes, Used, Laid, DataStart;
    assert RoundUp4(0) == 0;
    assert o.insert + Zeros(0) == [];
    assert [] + DirBytes(o.en, Laid(o, t)) == DirBytes(o.en, Laid(o, t));
  }

  lemma InputShape(super: seq<byte>, rec: seq<byte>, dirs: seq<byte>, data: seq<byte>, fill: seq<byte>)
    requires |super| >= SUPER_HEAD && super[SUPER_HEAD..] == rec
    ensures (super + (dirs + data + fill))[SUPER_HEAD..] == rec + dirs + (data + fill)
    ensures (super + (dirs + data + fill))[..SUPER_HEAD] == super[..SUPER_HEAD]
  {
  }

  /** The steering words of the superblock, and its bytes after the swap. */
  lemma SuperSwaps(o: Options, root: Ent, t: Tree, crc: nat)
    ensures var b := EncodeSuper(o.en, SuperOf(o, root, t, crc))[..SUPER_HEAD];
            var o' := o.(en := Other(o.en));
            SwapSuper(b) == EncodeSuper(o'.en, SuperOf(o', root, t, crc))[..SUPER_HEAD]
  {
    hide EncodeInode, Put32, Bswap, SuperOf;
    var s := SuperOf(o, root, t, crc);
    var en := o.en;
    SameSuper(o, root, t, crc);
    var b := EncodeSuper(en, s)[..SUPER_HEAD];
    SuperWords(en, s);
    PutBswap(en, s.magic); PutBswap(en, s.size); PutBswap(en, s.flags); PutBswap(en, s.future);
    PutBswap(en, s.crc); PutBswap(en, s.edition); PutBswap(en, s.blocks); PutBswap(en, s.files);
    SuperWords(Other(en), s);
  }

  lemma PutBswap(en: Endian, n: nat)
    ensures Bswap(Put32(en, n)) == Put32(Other(en), n)
  {
  }

  lemma SuperWords(en: Endian, s: Super)
    requires |s.signature| == 16 && |s.name| == 16
    ensures var b := EncodeSuper(en, s)[..SUPER_HEAD];
            && b[..32] == Put32(en, s.magic) + Put32(en, s.size) + Put32(en, s.flags) + Put32(en, s.future) + s.signature
            && b[32..36] == Put32(en, s.crc)
            && b[36..] == Put32(en, s.edition) + Put32(en, s.blocks) + Put32(en, s.files) + s.name
            && SwapHead(b[..32]) == Bswap(Put32(en, s.magic)) + Bswap(Put32(en, s.size)) + Bswap(Put32(en, s.flags))
                                    + Bswap(Put32(en, s.future)) + s.signature
            && SwapTail(b[36..]) == Bswap(Put32(en, s.edition)) + Bswap(Put32(en, s.blocks)) + Bswap(Put32(en, s.files)) + s.name
            && b == b[..32] + b[32..36] + b[36..]
  {
    hide EncodeInode, Put32, Bswap;
    var b := EncodeSuper(en, s)[..SUPER_HEAD];
    HeadWords(Put32(en, s.magic), Put32(en, s.size), Put32(en, s.flags), Put32(en, s.future), s.signature);
    TailWords(Put32(en, s.edition), Put32(en, s.blocks), Put32(en, s.files), s.name);
  }

  lemma HeadWords(a: seq<byte>, b: seq<byte>, c: seq<byte>, d: seq<byte>, e: seq<byte>)
    requires |a| == |b| == |c| == |d| == 4 && |e| == 16
    ensures SwapHead(a + b + c + d + e) == Bswap(a) + Bswap(b) + Bswap(c) + Bswap(d) + e
  {
    hide Bswap;
    var s := a + b + c + d + e;
    assert s[0..4] == a && s[4..8] == b && s[8..12] == c && s[12..16] == d && s[16..32] == e;
  }

  lemma TailWords(a: seq<byte>, b: seq<byte>, c: seq<byte>, d: seq<byte>)
    requires |a| == |b| == |c| == 4 && |d| == 16
    ensures SwapTail(a + b + c + d) == Bswap(a) + Bswap(b) + Bswap(c) + d
  {
    hide Bswap;
    var s := a + b + c + d;
    assert s[0..4] == a && s[4..8] == b && s[8..12] == c && s[12..28] == d;
  }

  /** Nothing in the superblock but its byte order depends on the byte order. */
  lemma SameSuper(o: Options, root: Ent, t: Tree, crc: nat)
    ensures SuperOf(o.(en := Other(o.en)), root, t, crc) == SuperOf(o, root, t, crc)
    ensures DataStart(o.(en := Other(o.en)), t) == DataStart(o, t)
    ensures Laid(o.(en := Other(o.en)), t) == Laid(o, t)
    ensures Used(o.(en := Other(o.en)), t) == Used(o, t)
  {
  }

  /** The state at the end of the directory pass. */
  lemma PassReady(o: Options, root: Ent, t: Tree)
    requires Makes(o, root, t) && !o.holes
    ensures var rs, ps := Flat(Laid(o, t)), Pieces(o.z, t, DataStart(o, t));
            && Ready(o.z, rs, ps, ps, DataStart(o, t).end, DataStart(o, t).end, Used(o, t))
            && (forall r | r in [RootRec(o, root)] + rs :: RecInRange(r))
            && Counted([RootRec(o, root)] + rs) == Later(rs, DataStart(o, t).end)
  {
    hide Lay, Flat, Pieces, Chain, Agrees, RecInRange, ForestAgrees, OffsetsFit, InRecs, Lawful, ValidTree, Later, Counted,
         HasChunk, Total, Width, Below, StoreTree, Knows, Ready;
    var rs, s := Flat(Laid(o, t)), DataStart(o, t);
    var ps := Pieces(o.z, t, s);
    var p, q := DirStart(o), DirStart(o) + Width(t);
    TotalSplits(t);
    DataStartEven(o, t);
    DirStartWord(o);
    UsedFits(o, root, t);
    PiecesChain(o.z, t, s);
    StartKnows(s, ps);
    Aligned(p, Width(t));
    LayAgrees(o.z, t, p, q, s, ps, s.end);
    FlatAgrees(Laid(o, t), ps, s.end);
    FlatInRecs(Laid(o, t), rs);
    Covered(o.z, t, p, q, s, rs);
    ChainSpread(o.z, ps, s.end, Used(o, t));
    RecordsFit(o, root, t);
    ReadyIs(o.z, rs, ps, s.end, Used(o, t));
    CountedLater(rs, ps, s.end);
    RootFacts(o, root, t);
    CountedCons(RootRec(o, root), rs);
    forall r | r in [RootRec(o, root)] + rs ensures RecInRange(r) {
      if r in rs { AgreesInRange(r, ps, s.end); }
    }
  }

  lemma ReadyIs(z: Zlib, rs: seq<Rec>, ps: seq<Piece>, base: nat, end: nat)
    requires Chain(z, ps, base, end) && base % 4 == 0 && end < LIMIT && |rs| < LIMIT
    requires forall r | r in rs :: Agrees(r, ps, base)
    requires forall x | x in ps :: exists r :: r in rs && r.ent.data == x.data && r.at == x.at
    ensures Ready(z, rs, ps, ps, base, base, end)
  {
    hide Chain, Agrees;
  }

  lemma AgreesInRange(r: Rec, ps: seq<Piece>, base: nat)
    requires Agrees(r, ps, base)
    ensures RecInRange(r)
  {
  }

  lemma StartKnows(s: Store, ps: seq<Piece>)
    requires s.where == map[] && s.end % 4 == 0
    ensures Knows(s, ps)
  {
  }

  lemma DirStartWord(o: Options)
    ensures DirStart(o) % 4 == 0 && DirStart(o) > 0
  {
  }

  lemma CountedCons(r: Rec, rs: seq<Rec>)
    requires !HasChunk(r.ent.InodeAt(r.at))
    ensures Counted([r] + rs) == Counted(rs)
  {
    assert ([r] + rs)[1..] == rs;
  }

  lemma RootFacts(o: Options, root: Ent, t: Tree)
    requires ValidRoot(root, t) && DirStart(o) < 4 * OFFSET_LIMIT
    ensures RecInRange(RootRec(o, root)) && !HasChunk(RootRec(o, root).ent.InodeAt(RootRec(o, root).at))
  {
  }

  /** There are fewer records than bytes. */
  lemma RecordsFit(o: Options, root: Ent, t: Tree)
    requires Makes(o, root, t)
    ensures |Flat(Laid(o, t))| == Count(t) < LIMIT - 1
  {
    hide Lay, Flat, OffsetsFit, Lawful, ValidTree, StoreTree, Total;
    EraseLay(o.z, o.holes, t, DirStart(o), DirStart(o) + Width(t), DataStart(o, t));
    FlatCount(Laid(o, t));
    CountFits(t);
    UsedFits(o, root, t);
  }

  // ------------------------------------------------------------ the result

  /** cramfsswap turns every image it supports into the image that mkcramfs would have made of the same
      tree on a host of the other byte order, checksum included. */
  lemma SwapImage(o: Options, root: Ent, t: Tree)
    requires Makes(o, root, t)
    ensures !o.pad && !o.holes && o.insert == []
            ==> Swapped(o.z, Image(o, root, t)) == Some(Image(o.(en := Other(o.en)), root, t))
    ensures o.pad || o.holes || o.insert != [] ==> Swapped(o.z, Image(o, root, t)) == None
  {
    hide Makes, Image, Swapped;
    if !o.pad && !o.holes && o.insert == [] {
      SwapSupported(o, root, t);
    } else {
      SwapRefused(o, root, t);
    }
  }

  lemma SwapRefused(o: Options, root: Ent, t: Tree)
    requires Makes(o, root, t) && (o.pad || o.holes || o.insert != [])
    ensures Swapped(o.z, Image(o, root, t)) == None
  {
    hide Makes, Image, Body, SuperOf, Listed, DataPass, Summed, ImageSize, Supported, Flags, Get32, Put32, ByteOrder,
         EncodeSuper, Count, Ent.Record;
    var img, crc := Image(o, root, t), o.z.crc(Summed(o, root, t, 0));
    ImageSlices(o, root, t);
    if o.pad {
      NoMagic(img);
    } else {
      var b := EncodeSuper(o.en, SuperOf(o, root, t, crc));
      SuperSplit(o.en, o, root, t, crc);
      assert img[0..SUPER_SIZE] == b;
      assert img[..SUPER_HEAD] == b[..SUPER_HEAD];
      HeadSlices(img, b);
      MagicHere(o.en, img);
      FlagsSupported(o);
      GetPut32(o.en, Flags(o));
    }
  }

  lemma NoMagic(img: seq<byte>)
    requires |img| >= SUPER_SIZE && img[..SUPER_SIZE] == Zeros(SUPER_SIZE)
    ensures ByteOrder(img) == None
  {
    assert img[0..4] == img[..SUPER_SIZE][0..4] == [0, 0, 0, 0];
  }

  lemma MagicHere(en: Endian, img: seq<byte>)
    requires |img| >= SUPER_HEAD && img[0..4] == Put32(en, MAGIC)
    ensures ByteOrder(img) == Some(en)
  {
    hide GetLe32, GetBe32, Le32, Be32;
    MagicWords();
  }

  lemma MagicWords()
    ensures GetLe32(Le32(MAGIC)) == MAGIC && GetBe32(Be32(MAGIC)) == MAGIC && GetLe32(Be32(MAGIC)) != MAGIC
  {
    WordRoundTrip(MAGIC);
    assert Be32(MAGIC) == [0x28, 0xcd, 0x3d, 0x45];
  }

  lemma FlagsSupported(o: Options)
    ensures Flags(o) < LIMIT && (Supported(Flags(o)) <==> !o.holes && o.insert == [])
    ensures !o.holes && o.insert == [] ==> Flags(o) == 3
  {
  }

  lemma MakesLawful(o: Options, root: Ent, t: Tree)
    requires Makes(o, root, t)
    ensures Lawful(o.z)
  {
  }

  lemma SwapSupported(o: Options, root: Ent, t: Tree)
    requires Makes(o, root, t) && !o.pad && !o.holes && o.insert == []
    ensures Swapped(o.z, Image(o, root, t)) == Some(Image(o.(en := Other(o.en)), root, t))
  {
    hide Makes, Image, Body, SuperOf, EncodeSuper, Summed, SetCrc, SwappedRaw, ByteOrder, ImageSize;
    var crc, o' := o.z.crc(Summed(o, root, t, 0)), o.(en := Other(o.en));
    ImageIs(o, root, t);
    NoPad(EncodeSuper(o.en, SuperOf(o, root, t, crc)) + Body(o, t));
    RawImage(o, root, t, crc);
    ChecksumImage(o', root, t, crc);
  }

  lemma NoPad(s: seq<byte>)
    ensures Zeros(0) + s == s
  {
  }

  /** The input and the output of the two passes over an image. */
  function PassBytes(en: Endian, o: Options, root: Ent, t: Tree): seq<byte> {
    RecBytes(en, [RootRec(o, root)] + Flat(Laid(o, t))) + (PieceBytes(en, o.z, Pieces(o.z, t, DataStart(o, t)))
                                                          + Padding(o, t))
  }

  function Padding(o: Options, t: Tree): seq<byte> {
    if Used(o, t) <= ImageSize(o, t) then Zeros(ImageSize(o, t) - Used(o, t)) else []
  }

  /** Both passes over any input that has the image's records and chunks behind its superblock. */
  lemma RawPasses(o: Options, root: Ent, t: Tree, src: seq<byte>)
    requires Makes(o, root, t) && !o.pad && !o.holes && o.insert == []
    requires |src| >= SUPER_HEAD && ByteOrder(src) == Some(o.en) && Get32(o.en, src[8..12]) == 3
    requires Get32(o.en, src[44..48]) == 1 + Count(t) && src[SUPER_HEAD..] == PassBytes(o.en, o, root, t)
    ensures SwappedRaw(src) == Some(SwapSuper(src[..SUPER_HEAD]) + PassBytes(Other(o.en), o, root, t))
  {
    hide Makes, Flat, Laid, Listed, DataPass, Pieces, Later, RecBytes, PieceBytes, Padding,
         SwapSuper, Count, Ready, RecInRange, Get32, ByteOrder, Counted, DataStart, RootRec, FirstDataWord, SlotsOf;
    var en, en' := o.en, Other(o.en);
    var r, rs, s := RootRec(o, root), Flat(Laid(o, t)), DataStart(o, t);
    var ps := Pieces(o.z, t, s);
    MakesLawful(o, root, t);
    PassReady(o, root, t);
    RecordsFit(o, root, t);
    var chunks, chunks' := PieceBytes(en, o.z, ps) + Padding(o, t), PieceBytes(en', o.z, ps) + Padding(o, t);
    ListedRecs(en, [r] + rs, chunks);
    DataPassPieces(en, o.z, SlotOf(r), rs, ps, ps, s.end, s.end, Used(o, t), Padding(o, t));
    SlotsCons(r, rs);
    FirstWord(o, root, t);
    var l := Listing(RecBytes(en', [r] + rs), SlotsOf([r] + rs), Counted([r] + rs), chunks);
    WordAt(src, l, s.end);
    assert src[SUPER_HEAD..] == RecBytes(en, [r] + rs) + chunks;
    assert |[r] + rs| == Get32(en, src[44..48]);
    assert Listed(en, RecBytes(en, [r] + rs) + chunks, |[r] + rs|) == Some(l);
    assert Listed(en, src[SUPER_HEAD..], |[r] + rs|) == Some(l);
    RawIs(src, en, l, chunks');
    Assoc(SwapSuper(src[..SUPER_HEAD]), l.out, chunks');
  }

  lemma WordAt(src: seq<byte>, l: Listing, end: nat)
    requires |l.out| == end - SUPER_HEAD && end % 4 == 0
    ensures FirstDataWord(src, l) == end / 4
  {
  }

  lemma RawImage(o: Options, root: Ent, t: Tree, crc: nat)
    requires Makes(o, root, t) && !o.pad && !o.holes && o.insert == []
    ensures var src := EncodeSuper(o.en, SuperOf(o, root, t, crc)) + Body(o, t);
            var out := EncodeSuper(Other(o.en), SuperOf(o.(en := Other(o.en)), root, t, crc)) + Body(o.(en := Other(o.en)), t);
            ByteOrder(src) == Some(o.en) && SwappedRaw(src) == Some(out)
  {
    hide Makes, Body, SuperOf, EncodeSuper, PassBytes, SwapSuper, Count, Get32, ByteOrder, SwappedRaw;
    var o' := o.(en := Other(o.en));
    var src := EncodeSuper(o.en, SuperOf(o, root, t, crc)) + Body(o, t);
    PassInput(o, root, t, crc);
    RecordsFit(o, root, t);
    SteeringWords(o, root, t, crc, src);
    RawPasses(o, root, t, src);
    SuperSwaps(o, root, t, crc);
    PassInput(o', root, t, crc);
    SamePass(o, root, t);
    Rejoin(EncodeSuper(o'.en, SuperOf(o', root, t, crc)) + Body(o', t));
  }

  lemma SamePass(o: Options, root: Ent, t: Tree)
    ensures PassBytes(Other(o.en), o, root, t) == PassBytes(Other(o.en), o.(en := Other(o.en)), root, t)
  {
    hide RecBytes, PieceBytes, Pieces, Flat;
    SameSuper(o, root, t, 0);
  }

  lemma Rejoin(out: seq<byte>)
    requires |out| >= SUPER_HEAD
    ensures out[..SUPER_HEAD] + out[SUPER_HEAD..] == out
  {
  }

  lemma RawIs(src: seq<byte>, en: Endian, l: Listing, d: seq<byte>)
    requires |src| >= SUPER_HEAD && ByteOrder(src) == Some(en) && Supported(Get32(en, src[8..12]))
    requires Listed(en, src[SUPER_HEAD..], Get32(en, src[44..48])) == Some(l)
    requires DataPass(en, l.slots, l.rest, FirstDataWord(src, l), l.remaining) == Some(d)
    ensures SwappedRaw(src) == Some(SwapSuper(src[..SUPER_HEAD]) + l.out + d)
  {
    hide ByteOrder, Get32, Listed, DataPass, SwapSuper, FirstDataWord;
  }

  lemma SlotsCons(r: Rec, rs: seq<Rec>)
    ensures SlotsOf([r] + rs) == [SlotOf(r)] + SlotsOf(rs)
  {
    assert ([r] + rs)[1..] == rs;
  }

  /** The words of the superblock that steer the run. */
  lemma SteeringWords(o: Options, root: Ent, t: Tree, crc: nat, src: seq<byte>)
    requires Count(t) < LIMIT - 1 && !o.holes && o.insert == []
    requires |src| >= SUPER_HEAD && src[..SUPER_HEAD] == EncodeSuper(o.en, SuperOf(o, root, t, crc))[..SUPER_HEAD]
    ensures ByteOrder(src) == Some(o.en) && Get32(o.en, src[8..12]) == 3
    ensures Get32(o.en, src[44..48]) == 1 + Count(t)
  {
    hide SuperOf, EncodeSuper, Count, Get32, Put32, ByteOrder, Flags, Ent.Record;
    FlagsSupported(o);
    var b := EncodeSuper(o.en, SuperOf(o, root, t, crc));
    SuperSplit(o.en, o, root, t, crc);
    HeadSlices(src, b);
    MagicHere(o.en, src);
    GetPut32(o.en, 3);
    GetPut32(o.en, 1 + Count(t));
  }

  lemma HeadSlices(src: seq<byte>, b: seq<byte>)
    requires |src| >= SUPER_HEAD && |b| >= SUPER_HEAD && src[..SUPER_HEAD] == b[..SUPER_HEAD]
    ensures src[0..4] == b[0..4] && src[8..12] == b[8..12] && src[44..48] == b[44..48]
  {
    assert src[0..4] == src[..SUPER_HEAD][0..4] && src[8..12] == src[..SUPER_HEAD][8..12]
           && src[44..48] == src[..SUPER_HEAD][44..48];
    assert b[0..4] == b[..SUPER_HEAD][0..4] && b[8..12] == b[..SUPER_HEAD][8..12] && b[44..48] == b[..SUPER_HEAD][44..48];
  }

  /** `filepos` after the directory pass is the first word of the data region. */
  lemma FirstWord(o: Options, root: Ent, t: Tree)
    requires !o.pad && o.insert == []
    ensures |RecBytes(Other(o.en), [RootRec(o, root)] + Flat(Laid(o, t)))| == DataStart(o, t).end - SUPER_HEAD
    ensures DataStart(o, t).end % 4 == 0
  {
    hide Flat, RecBytes, Lay, DirBytes, EncodeInode, Siblings, Descend;
    var en, f := Other(o.en), Laid(o, t);
    RecBytesCons(en, RootRec(o, root), Flat(f));
    FlatBytes(en, f);
    DirLength(en, f);
    EraseLay(o.z, o.holes, t, DirStart(o), DirStart(o) + Width(t), DataStart(o, t));
    TotalSum(t);
    DirSum(en, f);
    DataStartEven(o, t);
    assert RoundUp4(0) == 0;
  }

  lemma DirSum(en: Endian, f: Forest)
    ensures |DirBytes(en, f)| == |Siblings(en, f)| + |Descend(en, f)|
  {
  }

  /** Clearing and setting the checksum word moves between the superblocks with and without checksum. */
  lemma ChecksumImage(o: Options, root: Ent, t: Tree, crc: nat)
    requires !o.pad
    ensures SetCrc(o.en, o.z, EncodeSuper(o.en, SuperOf(o, root, t, crc)) + Body(o, t)) == Image(o, root, t)
  {
    hide EncodeSuper, SuperOf, Body, Put32, Image, Zeros;
    var b, b0 := EncodeSuper(o.en, SuperOf(o, root, t, crc)), EncodeSuper(o.en, SuperOf(o, root, t, 0));
    var body := Body(o, t);
    var sum := o.z.crc(Summed(o, root, t, 0));
    var b1 := EncodeSuper(o.en, SuperOf(o, root, t, sum));
    SuperPatch(o, root, t, crc);
    SuperPatch(o, root, t, 0);
    SuperPatch(o, root, t, sum);
    Put32Zero(o.en);
    PatchFront(b, b0, body);
    ImageIs(o, root, t);
    NoPad(b1 + body);
    PatchJoin(b0, Put32(o.en, sum), body);
    PatchJoin(b0, Put32(o.en, 0), body);
  }

  lemma Put32Zero(en: Endian)
    ensures Put32(en, 0) == Zeros(4)
  {
  }

  lemma PatchFront(b: seq<byte>, b0: seq<byte>, body: seq<byte>)
    requires |b| == |b0| == SUPER_SIZE && b[..32] == b0[..32] && b[36..] == b0[36..]
    ensures (b + body)[..32] == b0[..32] && (b + body)[36..] == b0[36..] + body
  {
    assert (b + body)[..32] == b[..32] && (b + body)[36..] == b[36..] + body;
  }

  lemma PatchJoin(b0: seq<byte>, w: seq<byte>, body: seq<byte>)
    requires |b0| == SUPER_SIZE
    ensures b0[..32] + w + (b0[36..] + body) == b0[..32] + w + b0[36..] + body
  {
  }

  lemma SuperPatch(o: Options, root: Ent, t: Tree, crc: nat)
    ensures var b, b0 := EncodeSuper(o.en, SuperOf(o, root, t, crc)), EncodeSuper(o.en, SuperOf(o, root, t, 0));
            && b == b0[..32] + Put32(o.en, crc) + b0[36..]
            && b[..32] == b0[..32] && b[36..] == b0[36..]
  {
    hide EncodeSuper, SuperOf, Put32, Ent.Record;
    var b, b0 := EncodeSuper(o.en, SuperOf(o, root, t, crc)), EncodeSuper(o.en, SuperOf(o, root, t, 0));
    SuperSplit(o.en, o, root, t, crc);
    SuperSplit(o.en, o, root, t, 0);
    assert b[36..] == b[36..SUPER_HEAD] + b[SUPER_HEAD..] && b0[36..] == b0[36..SUPER_HEAD] + b0[SUPER_HEAD..];
    assert b == b[..32] + b[32..36] + b[36..];
  }
}
