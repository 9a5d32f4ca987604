/** The linked `struct entry` records of mkcramfs: reading the tree in, the size estimate, and the
    elimination of duplicate files. */
module CramfsEntry {
  import opened Bytes
  import opened CramfsFormat
  import opened CramfsLayout
  import opened CramfsImage

  /** `struct entry`.  The links and the file's attributes are fixed once the tree has been read;
      the later passes fill in `same`, `offset` and `dirOffset`. */
  class Entry {
    const ent: Ent
    const child: Entry?
    const next: Entry?
    var same: Entry?
    var offset: nat
    var dirOffset: nat

    constructor (ent: Ent, child: Entry?, next: Entry?)
      ensures this.ent == ent && this.child == child && this.next == next
      ensures same == null && offset == 0 && dirOffset == 0
    {
      this.ent, this.child, this.next := ent, child, next;
      same, offset, dirOffset := null, 0, 0;
    }
  }

  /** The records reachable from `e` are the tree `t`. */
  ghost predicate Rep(e: Entry?, t: Tree) {
    match t
    case Nil => e == null
    case Node(x, c, n) => e != null && e.ent == x && Rep(e.child, c) && Rep(e.next, n)
  }

  /** The records in preorder. */
  ghost function Pre(e: Entry?, t: Tree): (r: seq<Entry>)
    requires Rep(e, t)
    ensures |r| == Count(t)
  {
    match t
    case Nil => []
    case Node(_, c, n) => [e] + Pre(e.child, c) + Pre(e.next, n)
  }

  ghost predicate Distinct(es: seq<Entry>) {
    forall i, j :: 0 <= i < j < |es| ==> es[i] != es[j]
  }

  lemma DistinctParts(e: Entry, pc: seq<Entry>, pn: seq<Entry>)
    ensures Distinct([e] + pc + pn) <==>
              && Distinct(pc) && Distinct(pn) && e !in pc && e !in pn
              && forall x | x in pc :: x !in pn
    ensures forall x :: x in [e] + pc + pn <==> x == e || x in pc || x in pn
  {
    var all := [e] + pc + pn;
    assert all[0] == e;
    assert forall i {:trigger pc[i]} :: 0 <= i < |pc| ==> all[1 + i] == pc[i];
    assert forall i {:trigger pn[i]} :: 0 <= i < |pn| ==> all[1 + |pc| + i] == pn[i];
    if Distinct(all) {
      forall i, j | 0 <= i < j < |pc| ensures pc[i] != pc[j] { assert all[1 + i] != all[1 + j]; }
      forall i, j | 0 <= i < j < |pn| ensures pn[i] != pn[j] { assert all[1 + |pc| + i] != all[1 + |pc| + j]; }
      forall i | 0 <= i < |pc| ensures pc[i] != e { assert all[0] != all[1 + i]; }
      forall i | 0 <= i < |pn| ensures pn[i] != e { assert all[0] != all[1 + |pc| + i]; }
      forall i, j | 0 <= i < |pc| && 0 <= j < |pn| ensures pc[i] != pn[j] {
        assert all[1 + i] != all[1 + |pc| + j];
      }
    }
    if Distinct(pc) && Distinct(pn) && e !in pc && e !in pn && forall x | x in pc :: x !in pn {
      forall i, j | 0 <= i < j < |all| ensures all[i] != all[j] {
        if j > |pc| && 0 < i <= |pc| { assert all[i] in pc && all[j] in pn; }
      }
    }
  }

  lemma DistinctEmpty()
    ensures Distinct([])
  {
  }

  // ------------------------------------------------------------ reading the tree

  /** What `parse_directory` records of a file whose children take `width` bytes: directories get that
      width as their size, over-long files are cut, pipes and sockets have no size. */
  function ParseEnt(e: Ent, width: nat): Ent {
    if IsDir(e.mode) then e.(size := width, data := [])
    else if IsReg(e.mode) then
      if |e.data| >= SIZE_LIMIT then e.(size := SIZE_LIMIT - 1, data := e.data[..SIZE_LIMIT - 1])
      else e.(size := |e.data|)
    else if IsLnk(e.mode) then e.(size := |e.data|)
    else if IsPipe(e.mode) then e.(size := 0, data := [])
    else e.(data := [])
  }

  function Parsed(t: Tree): Tree {
    match t
    case Nil => Nil
    case Node(e, c, n) => Node(ParseEnt(e, Width(Parsed(c))), Parsed(c), Parsed(n))
  }

  /** The share of one entry in the estimate `fslen_ub`. */
  function EntBound(e: Ent): nat {
    e.RecordSize() + (if (IsReg(e.mode) || IsLnk(e.mode)) && e.size > 0
                      then (4 + 26) * ((e.size - 1) / BLOCK + 1) + e.size + 3 else 0)
  }

  function TreeBound(t: Tree): nat {
    match t
    case Nil => 0
    case Node(e, c, n) => EntBound(e) + TreeBound(c) + TreeBound(n)
  }

  /** Reads a directory: the list of its records, the size of that list on disk, and the estimate. */
  method ParseDirectory(t: Tree, ub: nat)
    returns (first: Entry?, totalsize: nat, ub': nat, ghost all: seq<Entry>)
    ensures Rep(first, Parsed(t)) && all == Pre(first, Parsed(t)) && Distinct(all)
    ensures forall e | e in all :: fresh(e) && e.same == null
    ensures totalsize == Width(Parsed(t))
    ensures ub' == ub + TreeBound(Parsed(t))
    decreases t
  {
    hide Distinct, ParseEnt, Ent.RecordSize, IsReg, IsLnk;
    if t.Nil? {
      DistinctEmpty();
      return null, 0, ub, [];
    }
    var child, width, u1, pc := ParseDirectory(t.child, ub);
    var ent := ParseEnt(t.ent, width);
    var u2 := u1 + ent.RecordSize();
    if (IsReg(ent.mode) || IsLnk(ent.mode)) && ent.size > 0 {
      u2 := u2 + (4 + 26) * ((ent.size - 1) / BLOCK + 1) + ent.size + 3;
    }
    label Children:
    var next, restSize, u3, pn := ParseDirectory(t.next, u2);
    assert forall x | x in pc :: old@Children(allocated(x));
    first := new Entry(ent, child, next);
    all := [first] + pc + pn;
    DistinctParts(first, pc, pn);
    totalsize, ub' := ent.RecordSize() + restSize, u3;
  }

  // ------------------------------------------------------------ the estimate is enough

  /** `fslen_ub` after the scan, rounded up to whole blocks. */
  function UpperBound(o: Options, t: Tree): nat {
    SUPER_SIZE + (if o.insert == [] then 0 else |o.insert| + 3) + PadLength(o) + TreeBound(t)
  }

  lemma {:induction false} DataBound(z: Zlib, holes: bool, t: Tree, s: Store)
    requires Lawful(z) && ValidTree(t)
    ensures Total(t) + StoreTree(z, holes, t, s).end <= s.end + TreeBound(t)
  {
    match t
    case Nil =>
    case Node(e, c, n) =>
      var s1 := StoreEnt(z, holes, e, s);
      EntDataBound(z, holes, e, c, s);
      DataBound(z, holes, c, s1);
      DataBound(z, holes, n, StoreTree(z, holes, c, s1));
  }

  lemma EntDataBound(z: Zlib, holes: bool, e: Ent, c: Tree, s: Store)
    requires Lawful(z) && ValidEnt(e, c)
    ensures e.RecordSize() + StoreEnt(z, holes, e, s).end <= s.end + EntBound(e)
  {
    hide Lawful, ChunkSize, BlockCount;
    ChunkBound(z, holes, e.data);
    if e.HasData() { BlockCountAlt(e.size); }
  }

  /** The finished image fits in the buffer that was sized from the directory scan. */
  lemma ImageFitsBound(o: Options, t: Tree)
    requires Lawful(o.z) && ValidTree(t)
    ensures Used(o, t) <= UpperBound(o, t)
    ensures ImageSize(o, t) <= RoundUpBlock(UpperBound(o, t))
  {
    hide Lawful, StoreTree, TreeBound, Total;
    DataBound(o.z, o.holes, t, DataStart(o, t));
    RoundUpMonotone(Used(o, t), UpperBound(o, t));
  }

  lemma RoundUpMonotone(a: nat, b: nat)
    requires a <= b
    ensures RoundUpBlock(a) <= RoundUpBlock(b)
  {
    var x, y := (a + BLOCK - 1) / BLOCK, (b + BLOCK - 1) / BLOCK;
    assert x <= y;
  }

  // ------------------------------------------------------------ duplicate elimination

  /** `x` holds data, and `y` has the same bytes. */
  predicate SameContent(x: Entry, y: Entry) {
    x.ent.size == y.ent.size && x.ent.HasData() && x.ent.data == y.ent.data
  }

  /** How far `find_identical_file` looks for `y`: to the first entry that is `y` or equals it. */
  ghost function FirstMatch(es: seq<Entry>, y: Entry): (k: nat)
    ensures k <= |es|
    ensures k < |es| ==> es[k] == y || SameContent(es[k], y)
    ensures forall i :: 0 <= i < k ==> es[i] != y && !SameContent(es[i], y)
  {
    if es == [] then 0
    else if es[0] == y || SameContent(es[0], y) then 0
    else 1 + FirstMatch(es[1..], y)
  }

  lemma FirstMatchUnique(es: seq<Entry>, y: Entry, k: nat)
    requires k < |es| && (es[k] == y || SameContent(es[k], y))
    requires forall i :: 0 <= i < k ==> es[i] != y && !SameContent(es[i], y)
    ensures FirstMatch(es, y) == k
  {
  }

  lemma NoMatch(es: seq<Entry>, y: Entry)
    requires forall i :: 0 <= i < |es| ==> es[i] != y && !SameContent(es[i], y)
    ensures FirstMatch(es, y) == |es|
  {
  }

  lemma FirstMatchConcat(a: seq<Entry>, b: seq<Entry>, y: Entry)
    ensures FirstMatch(a + b, y) == if FirstMatch(a, y) < |a| then FirstMatch(a, y) else |a| + FirstMatch(b, y)
  {
    var k, m := FirstMatch(a, y), FirstMatch(b, y);
    if k < |a| {
      FirstMatchUnique(a + b, y, k);
    } else if m < |b| {
      assert (a + b)[|a| + m] == b[m];
      FirstMatchUnique(a + b, y, |a| + m);
    } else {
      forall j | 0 <= j < |a + b|
        ensures (a + b)[j] != y && !SameContent((a + b)[j], y)
      {
        assert (a + b)[j] == if j < |a| then a[j] else b[j - |a|];
      }
      NoMatch(a + b, y);
    }
  }

  lemma FirstMatchFront(e: Entry?, y: Entry)
    ensures FirstMatch([], y) == 0
    ensures e != null ==> FirstMatch([e], y) == if e == y || SameContent(e, y) then 0 else 1
  {
    if e != null && (e == y || SameContent(e, y)) { FirstMatchUnique([e], y, 0); }
  }

  /** What `same` must be for `y` after the elimination: the first equal entry, or nothing. */
  ghost function Representative(all: seq<Entry>, y: Entry): Entry? {
    var k := FirstMatch(all, y);
    if k < |all| && all[k] != y then all[k] else null
  }

  /** Searches the tree at `orig` in preorder, stopping at `newfile` itself. */
  method FindIdenticalFile(orig: Entry?, newfile: Entry, ghost t: Tree) returns (found: bool)
    requires Rep(orig, t)
    modifies newfile`same
    ensures found == (FirstMatch(Pre(orig, t), newfile) < |Pre(orig, t)|)
    ensures var r := Representative(Pre(orig, t), newfile);
            newfile.same == if r == null then old(newfile.same) else r
    decreases t
  {
    hide FirstMatch;
    FirstMatchFront(orig, newfile);
    if orig != null {
      ghost var pc, pn := Pre(orig.child, t.child), Pre(orig.next, t.next);
      FirstMatchConcat([orig] + pc, pn, newfile);
      FirstMatchConcat([orig], pc, newfile);
    }
    if orig == newfile {
      return true;
    }
    if orig == null {
      return false;
    }
    if orig.ent.size == newfile.ent.size && orig.ent.HasData() {
      if orig.ent.data == newfile.ent.data {
        newfile.same := orig;
        return true;
      }
    }
    found := FindIdenticalFile(orig.child, newfile, t.child);
    if !found {
      found := FindIdenticalFile(orig.next, newfile, t.next);
    }
  }

  ghost function Chosen(all: seq<Entry>, e: Entry): Entry? {
    if e.ent.size > 0 && e.ent.HasData() then Representative(all, e) else null
  }

  /** Calls `find_identical_file` on every entry of the tree at `orig` that holds data. */
  method EliminateDoubles(root: Entry?, orig: Entry?, ghost tr: Tree, ghost t: Tree, ghost all: seq<Entry>)
    requires Rep(root, tr) && Rep(orig, t) && all == Pre(orig, t)
    requires Distinct(all) && forall e | e in all :: e.same == null
    modifies set e | e in all :: e`same
    ensures forall e | e in all :: e.same == Chosen(Pre(root, tr), e)
    decreases t
  {
    hide FirstMatch, Representative, Distinct;
    if orig != null {
      ghost var pc, pn := all[1..1 + Count(t.child)], all[1 + Count(t.child)..];
      assert pc == Pre(orig.child, t.child) && pn == Pre(orig.next, t.next);
      assert all == [orig] + pc + pn;
      DistinctParts(orig, pc, pn);
      assert (forall e | e in pc :: e in all) && (forall e | e in pn :: e in all);
      hide Rep, Distinct, Pre;
      if orig.ent.size > 0 && orig.ent.HasData() {
        var _ := FindIdenticalFile(root, orig, tr);
      }
      hide Chosen;
      EliminateDoubles(root, orig.child, tr, t.child, pc);
      EliminateDoubles(root, orig.next, tr, t.next, pn);
      assert forall e | e in pc :: e.same == Chosen(Pre(root, tr), e);
    }
  }

  /** Each data entry's representative is the earliest entry with its content, has no representative of
      its own, and comes before it; entries with the same content share it. */
  lemma RepresentativeIsFirst(all: seq<Entry>, i: nat)
    requires Distinct(all) && i < |all| && all[i].ent.HasData()
    ensures var r := Representative(all, all[i]);
            if r == null then forall j :: 0 <= j < i ==> !SameContent(all[j], all[i])
            else exists k :: 0 <= k < i && all[k] == r && SameContent(r, all[i]) && Representative(all, r) == null
                             && forall j :: 0 <= j < k ==> !SameContent(all[j], all[i])
    ensures forall j :: 0 <= j < |all| && SameContent(all[j], all[i]) ==>
              (if Representative(all, all[j]) == null then all[j] else Representative(all, all[j]))
              == (if Representative(all, all[i]) == null then all[i] else Representative(all, all[i]))
  {
    var k := FirstMatch(all, all[i]);
    assert k <= i;
    FirstMatchUnique(all, all[k], k);
    forall j | 0 <= j < |all| && SameContent(all[j], all[i])
      ensures FirstMatch(all, all[j]) == k
    {
      FirstMatchUnique(all, all[j], k);
    }
  }
}
