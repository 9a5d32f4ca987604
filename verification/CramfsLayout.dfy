/** Where mkcramfs puts things: the directory structure, the shared data and the whole image. */
module CramfsLayout {
  import opened Bytes
  import opened CramfsFormat

  /** The entry tree in the first-child / next-sibling form that `struct entry` uses. */
  datatype Tree = Nil | Node(ent: Ent, child: Tree, next: Tree)

  /** The same tree with `dir_offset` and the inode's offset (in bytes) filled in. */
  datatype Forest = FNil | FNode(ent: Ent, pos: nat, at: nat, child: Forest, next: Forest)

  function Erase(f: Forest): Tree {
    match f
    case FNil => Nil
    case FNode(e, _, _, c, n) => Node(e, Erase(c), Erase(n))
  }

  /** Bytes taken by the records of one directory: its own siblings only. */
  function Width(t: Tree): nat {
    match t
    case Nil => 0
    case Node(e, _, n) => e.RecordSize() + Width(n)
  }

  /** Bytes taken by the records of a directory and everything below it. */
  function Total(t: Tree): nat {
    match t
    case Nil => 0
    case Node(e, c, n) => e.RecordSize() + Total(c) + Total(n)
  }

  /** Bytes taken by everything strictly below the siblings. */
  function Below(t: Tree): nat {
    match t
    case Nil => 0
    case Node(_, c, n) => Total(c) + Below(n)
  }

  lemma {:induction false} TotalSplits(t: Tree)
    ensures Total(t) == Width(t) + Below(t)
    ensures Width(t) % 4 == 0 && Below(t) % 4 == 0 && Total(t) % 4 == 0
  {
    match t
    case Nil =>
    case Node(e, c, n) =>
      TotalSplits(c);
      TotalSplits(n);
      Aligned(e.RecordSize(), Width(n));
      Aligned(Total(c), Below(n));
      Aligned(Width(t), Below(t));
  }

  lemma TotalSum(t: Tree)
    ensures Total(t) == Width(t) + Below(t)
  {
    TotalSplits(t);
  }

  lemma Aligned(a: nat, b: nat)
    requires a % 4 == 0 && b % 4 == 0
    ensures (a + b) % 4 == 0
  {
  }

  function Count(t: Tree): nat {
    match t
    case Nil => 0
    case Node(_, c, n) => 1 + Count(c) + Count(n)
  }

  function Depth(t: Tree): nat {
    match t
    case Nil => 0
    case Node(_, c, n) => if Depth(n) > Depth(c) + 1 then Depth(n) else Depth(c) + 1
  }

  // ------------------------------------------------------------ what mkcramfs is given

  predicate ValidName(s: seq<byte>) {
    0 < |s| <= MAX_NAME && 0 !in s
  }

  /** An entry whose fields fit the format and agree with its type. */
  predicate ValidEnt(e: Ent, child: Tree) {
    && ValidName(e.name)
    && e.mode < MODE_LIMIT && e.uid < MODE_LIMIT && e.gid < 256 && e.size < SIZE_LIMIT
    && (child.Node? ==> IsDir(e.mode))
    && (if IsDir(e.mode) then e.size == Width(child) && e.data == []
        else if IsReg(e.mode) then e.size == |e.data|
        else if IsLnk(e.mode) then e.size == |e.data| && 0 < |e.data| <= BLOCK && 0 !in e.data
        else if IsPipe(e.mode) then e.size == 0 && e.data == []
        else IsDevice(e.mode) && e.data == [])
  }

  predicate ValidTree(t: Tree) {
    match t
    case Nil => true
    case Node(e, c, n) => ValidEnt(e, c) && ValidTree(c) && ValidTree(n)
  }

  // ------------------------------------------------------------ shared data

  /** The store after `write_data`: where each distinct content went, and the next free offset. */
  datatype Store = Store(where: map<seq<byte>, nat>, end: nat)

  function StoreEnt(z: Zlib, holes: bool, e: Ent, s: Store): Store {
    if !e.HasData() || e.data in s.where then s
    else Store(s.where[e.data := s.end], s.end + ChunkSize(z, holes, e.data))
  }

  function StoreTree(z: Zlib, holes: bool, t: Tree, s: Store): Store
  {
    match t
    case Nil => s
    case Node(e, c, n) => StoreTree(z, holes, n, StoreTree(z, holes, c, StoreEnt(z, holes, e, s)))
  }

  /** Offset of an entry's data: the place where the first entry with this content went. */
  function DataAt(e: Ent, s: Store): nat {
    if e.data in s.where then s.where[e.data] else s.end
  }

  /** The data region: one chunk for each content not met before, in preorder. */
  function DataBytes(en: Endian, z: Zlib, holes: bool, t: Tree, s: Store): seq<byte> {
    match t
    case Nil => []
    case Node(e, c, n) =>
      var s1 := StoreEnt(z, holes, e, s);
      var s2 := StoreTree(z, holes, c, s1);
      (if e.HasData() && e.data !in s.where then Chunk(en, z, holes, e.data, s.end) else [])
      + DataBytes(en, z, holes, c, s1) + DataBytes(en, z, holes, n, s2)
  }

  lemma {:induction false} DataLength(en: Endian, z: Zlib, holes: bool, t: Tree, s: Store)
    ensures s.end + |DataBytes(en, z, holes, t, s)| == StoreTree(z, holes, t, s).end
  {
    match t
    case Nil =>
    case Node(e, c, n) =>
      ChunkLength(en, z, holes, e.data, s.end);
      var s1 := StoreEnt(z, holes, e, s);
      DataLength(en, z, holes, c, s1);
      DataLength(en, z, holes, n, StoreTree(z, holes, c, s1));
  }

  // ------------------------------------------------------------ the laid-out tree

  /** Siblings go at `p`; the first subdirectory of these siblings goes at `q`; data follows `s`. */
  function Lay(z: Zlib, holes: bool, t: Tree, p: nat, q: nat, s: Store): Forest {
    match t
    case Nil => FNil
    case Node(e, c, n) =>
      var at := if e.HasData() then DataAt(e, s) else if c.Node? then q else 0;
      var s1 := StoreEnt(z, holes, e, s);
      var s2 := StoreTree(z, holes, c, s1);
      FNode(e, p, at, Lay(z, holes, c, q, q + Width(c), s1),
            Lay(z, holes, n, p + e.RecordSize(), q + Total(c), s2))
  }

  lemma {:induction false} EraseLay(z: Zlib, holes: bool, t: Tree, p: nat, q: nat, s: Store)
    ensures Erase(Lay(z, holes, t, p, q, s)) == t
  {
    match t
    case Nil =>
    case Node(e, c, n) =>
      var s1 := StoreEnt(z, holes, e, s);
      EraseLay(z, holes, c, q, q + Width(c), s1);
      EraseLay(z, holes, n, p + e.RecordSize(), q + Total(c), StoreTree(z, holes, c, s1));
  }

  /** The records of one directory. */
  function Siblings(en: Endian, f: Forest): seq<byte> {
    match f
    case FNil => []
    case FNode(e, _, at, _, n) => e.Record(en, at) + Siblings(en, n)
  }

  /** The records below one directory: each subdirectory in turn, with all that is below it. */
  function Descend(en: Endian, f: Forest): seq<byte> {
    match f
    case FNil => []
    case FNode(_, _, _, c, n) => Siblings(en, c) + Descend(en, c) + Descend(en, n)
  }

  /** "Width-first": list all of a directory before going down into its subdirectories. */
  function DirBytes(en: Endian, f: Forest): seq<byte> {
    Siblings(en, f) + Descend(en, f)
  }

  lemma {:induction false} DirLength(en: Endian, f: Forest)
    ensures |Siblings(en, f)| == Width(Erase(f))
    ensures |Descend(en, f)| == Below(Erase(f))
  {
    match f
    case FNil =>
    case FNode(e, _, _, c, n) =>
      DirLength(en, c);
      DirLength(en, n);
      TotalSplits(Erase(c));
  }
}
