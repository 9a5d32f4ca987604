/** mkcramfs writing into its ROM buffer: the directory pass with its explicit stack, the data pass,
    and the superblock.  Every method is tied to the layout functions of CramfsLayout. */
module MkCramfs {
  import opened Bytes
  import opened CramfsFormat
  import opened CramfsLayout
  import opened CramfsImage
  import opened CramfsRecords
  import opened CramfsEntry

  // ------------------------------------------------------------ ghost views of the entry tree

  /** The records at `e` are the laid-out tree `f`, and `m` gives the offset of each record. */
  ghost predicate Placed(e: Entry?, f: Forest, m: map<Entry, nat>) {
    match f
    case FNil => e == null
    case FNode(x, pos, _, c, n) =>
      && e != null && e.ent == x && e in m && m[e] == pos
      && Placed(e.child, c, m) && Placed(e.next, n, m)
  }

  ghost function Reach(e: Entry?, f: Forest): set<Entry> {
    match f
    case FNil => {}
    case FNode(_, _, _, c, n) => if e == null then {} else {e} + Reach(e.child, c) + Reach(e.next, n)
  }

  /** The non-empty subdirectories among the siblings `f`, in order. */
  ghost function Dirs(f: Forest): seq<Forest> {
    match f
    case FNil => []
    case FNode(_, _, _, c, n) => (if c.FNode? then [f] else []) + Dirs(n)
  }

  /** The records still to come below the directories `ds`, first directory first. */
  ghost function Coming(ds: seq<Forest>): seq<Rec> {
    if ds == [] then []
    else (if ds[0].FNode? then Flat(ds[0].child) else []) + Coming(ds[1..])
  }

  lemma {:induction false} DescIsComing(f: Forest)
    ensures Desc(f) == Coming(Dirs(f))
  {
    match f
    case FNil =>
    case FNode(_, _, _, c, n) =>
      DescIsComing(n);
      if c.FNode? { assert Dirs(f)[1..] == Dirs(n); } else { assert Dirs(f) == Dirs(n) && Flat(c) == []; }
  }

  lemma {:induction false} ComingConcat(a: seq<Forest>, b: seq<Forest>)
    ensures Coming(a + b) == Coming(a) + Coming(b)
  {
    if a == [] {
      assert a + b == b;
    } else {
      ComingConcat(a[1..], b);
      assert (a + b)[1..] == a[1..] + b;
    }
  }

  /** The records of the siblings `f`, and those of its non-empty subdirectories. */
  ghost function SibEntries(e: Entry?, f: Forest): seq<Entry> {
    if e == null || f.FNil? then [] else [e] + SibEntries(e.next, f.next)
  }

  ghost function DirEntries(e: Entry?, f: Forest): seq<Entry> {
    if e == null || f.FNil? then [] else (if f.child.FNode? then [e] else []) + DirEntries(e.next, f.next)
  }

  /** Offsets of the siblings whose inode offset is filled in later. */
  ghost function SibMask(f: Forest): set<nat> {
    match f
    case FNil => {}
    case FNode(e, pos, _, c, n) => (if e.HasData() || c.FNode? then {pos} else {}) + SibMask(n)
  }

  function Reversed<T>(s: seq<T>): (r: seq<T>)
    ensures |r| == |s|
    ensures forall i :: 0 <= i < |s| ==> r[i] == s[|s| - 1 - i]
  {
    if s == [] then [] else Reversed(s[1..]) + [s[0]]
  }

  lemma ReversedConcat<T>(a: seq<T>, b: seq<T>)
    ensures Reversed(a + b) == Reversed(b) + Reversed(a)
    ensures Reversed(Reversed(a)) == a
  {
    hide Reversed;
    forall i | 0 <= i < |a + b| ensures Reversed(a + b)[i] == (Reversed(b) + Reversed(a))[i] {
      assert Reversed(a + b)[i] == (a + b)[|a + b| - 1 - i];
    }
    assert Reversed(a + b) == Reversed(b) + Reversed(a);
    assert Reversed(Reversed(a)) == a;
  }

  // ------------------------------------------------------------ splices

  lemma SpliceExtend(s: seq<byte>, at: nat, b: seq<byte>, c: seq<byte>)
    requires at + |b| + |c| <= |s|
    ensures Splice(Splice(s, at, b), at + |b|, c) == Splice(s, at, b + c)
  {
  }

  /** `s` differs from `s0` at most between `lo` and `hi`. */
  ghost predicate Untouched(s: seq<byte>, s0: seq<byte>, lo: nat, hi: nat) {
    |s| == |s0| && lo <= hi <= |s| && s[..lo] == s0[..lo] && s[hi..] == s0[hi..]
  }

  lemma SpliceFrame(s: seq<byte>, at: nat, b: seq<byte>, lo: nat, hi: nat)
    requires lo <= at && at + |b| <= hi <= |s|
    ensures Untouched(Splice(s, at, b), s, lo, hi)
  {
  }

  lemma UntouchedRefl(s: seq<byte>, lo: nat, hi: nat)
    requires lo <= hi <= |s|
    ensures Untouched(s, s, lo, hi)
  {
  }

  lemma UntouchedTrans(s: seq<byte>, s1: seq<byte>, s0: seq<byte>, lo: nat, m: nat, hi: nat, lo1: nat)
    requires Untouched(s1, s0, lo, m) && Untouched(s, s1, lo1, hi) && lo <= lo1 && m <= hi
    ensures Untouched(s, s0, lo, hi)
  {
    assert s[..lo] == s[..lo1][..lo] && s1[..lo] == s1[..lo1][..lo];
    assert s1[hi..] == s1[m..][hi - m..] && s0[hi..] == s0[m..][hi - m..];
  }

  lemma SpliceSwap(s: seq<byte>, at: nat, b: seq<byte>, at': nat, b': seq<byte>)
    requires at + |b| <= at' && at' + |b'| <= |s|
    ensures Splice(Splice(s, at', b'), at, b) == Splice(Splice(s, at, b), at', b')
  {
  }

  /** `e` is the record of the non-empty directory `g`, and `all` has every record below it. */
  ghost predicate Pending(e: Entry, g: Forest, m: map<Entry, nat>, all: set<Entry>) {
    && g.FNode? && g.child.FNode? && g.at == g.child.pos && e.ent == g.ent
    && e in m && m[e] == g.pos && Placed(e.child, g.child, m) && Reach(e.child, g.child) <= all
    && Linked(g.child)
  }

  ghost predicate AllPending(es: seq<Entry>, gs: seq<Forest>, m: map<Entry, nat>, all: set<Entry>) {
    |es| == |gs| && forall k :: 0 <= k < |gs| ==> Pending(es[k], gs[k], m, all)
  }

  /** `x` is below one of the pending directories. */
  ghost predicate BelowPending(x: Entry, es: seq<Entry>, gs: seq<Forest>) {
    exists k :: 0 <= k < |gs| && k < |es| && gs[k].FNode? && x in Reach(es[k].child, gs[k].child)
  }

  lemma {:induction false} DirEntriesPending(e: Entry?, f: Forest, m: map<Entry, nat>, all: set<Entry>)
    requires Placed(e, f, m) && Reach(e, f) <= all && Linked(f)
    ensures AllPending(DirEntries(e, f), Dirs(f), m, all)
  {
    match f
    case FNil =>
    case FNode(_, _, _, c, n) =>
      DirEntriesPending(e.next, n, m, all);
      if c.FNode? {
        hide Placed, Linked, Reach;
        PendingHead(e, f, m, all);
        AllPendingConcat([e], [f], DirEntries(e.next, n), Dirs(n), m, all);
      } else {
        assert DirEntries(e, f) == DirEntries(e.next, n) && Dirs(f) == Dirs(n);
      }
  }

  lemma PendingHead(e: Entry?, f: Forest, m: map<Entry, nat>, all: set<Entry>)
    requires Placed(e, f, m) && Reach(e, f) <= all && Linked(f) && f.FNode? && f.child.FNode?
    ensures e != null && AllPending([e], [f], m, all)
  {
  }

  lemma AllPendingConcat(a: seq<Entry>, ga: seq<Forest>, b: seq<Entry>, gb: seq<Forest>, m: map<Entry, nat>, all: set<Entry>)
    requires AllPending(a, ga, m, all) && AllPending(b, gb, m, all)
    ensures AllPending(a + b, ga + gb, m, all)
  {
    hide Pending;
  }

  lemma AllPendingReversed(a: seq<Entry>, ga: seq<Forest>, m: map<Entry, nat>, all: set<Entry>)
    requires AllPending(a, ga, m, all)
    ensures AllPending(Reversed(a), Reversed(ga), m, all)
  {
    hide Pending;
  }

  lemma BelowConcat(x: Entry, a: seq<Entry>, ga: seq<Forest>, b: seq<Entry>, gb: seq<Forest>)
    requires |a| == |ga| && |b| == |gb|
    ensures BelowPending(x, a, ga) || BelowPending(x, b, gb) ==> BelowPending(x, a + b, ga + gb)
  {
    hide Reach;
    if BelowPending(x, a, ga) {
      var k :| 0 <= k < |ga| && k < |a| && ga[k].FNode? && x in Reach(a[k].child, ga[k].child);
      assert (a + b)[k] == a[k] && (ga + gb)[k] == ga[k];
    } else if BelowPending(x, b, gb) {
      var k :| 0 <= k < |gb| && k < |b| && gb[k].FNode? && x in Reach(b[k].child, gb[k].child);
      assert (a + b)[|a| + k] == b[k] && (ga + gb)[|a| + k] == gb[k];
    }
  }

  lemma BelowReversed(x: Entry, a: seq<Entry>, ga: seq<Forest>)
    requires |a| == |ga| && BelowPending(x, a, ga)
    ensures BelowPending(x, Reversed(a), Reversed(ga))
  {
    hide Reach;
    var k :| 0 <= k < |ga| && k < |a| && ga[k].FNode? && x in Reach(a[k].child, ga[k].child);
    assert Reversed(a)[|a| - 1 - k] == a[k] && Reversed(ga)[|ga| - 1 - k] == ga[k];
  }

  /** Popping the last directory leaves what is below it to the caller. */
  lemma BelowPop(x: Entry, a: seq<Entry>, ga: seq<Forest>)
    requires |a| == |ga| > 0 && BelowPending(x, a, ga) && ga[|ga| - 1].FNode?
    ensures x in Reach(a[|a| - 1].child, ga[|ga| - 1].child) || BelowPending(x, a[..|a| - 1], ga[..|ga| - 1])
  {
    hide Reach;
    var k :| 0 <= k < |ga| && k < |a| && ga[k].FNode? && x in Reach(a[k].child, ga[k].child);
    if k < |a| - 1 { assert a[..|a| - 1][k] == a[k] && ga[..|ga| - 1][k] == ga[k]; }
  }

  lemma {:induction false} DirEntriesCover(e: Entry?, f: Forest, m: map<Entry, nat>, all: set<Entry>, x: Entry)
    requires Placed(e, f, m) && Reach(e, f) <= all && x in Reach(e, f)
    ensures x in SibEntries(e, f) || BelowPending(x, DirEntries(e, f), Dirs(f))
  {
    var n := f.next;
    if x == e {
    } else if x in Reach(e.child, f.child) {
      assert DirEntries(e, f)[0] == e && Dirs(f)[0] == f;
    } else {
      DirEntriesCover(e.next, n, m, all, x);
      DirCounts(e.next, n, m);
      if f.child.FNode? {
        BelowConcat(x, [e], [f], DirEntries(e.next, n), Dirs(n));
      } else {
        assert DirEntries(e, f) == DirEntries(e.next, n) && Dirs(f) == Dirs(n);
      }
    }
  }

  lemma {:induction false} DirCounts(e: Entry?, f: Forest, m: map<Entry, nat>)
    requires Placed(e, f, m)
    ensures |DirEntries(e, f)| == |Dirs(f)|
    ensures forall x | x in DirEntries(e, f) :: x in SibEntries(e, f)
  {
    match f
    case FNil =>
    case FNode(_, _, _, _, n) => DirCounts(e.next, n, m);
  }

  /** The records of the pending directories, as they will be once their offsets are set. */
  ghost predicate Recorded(gs: seq<Forest>, rs: seq<Rec>) {
    forall k :: 0 <= k < |gs| ==> gs[k].FNode? && Rec(gs[k].ent, gs[k].pos, gs[k].at) in rs
  }

  ghost function PosOf(gs: seq<Forest>): set<nat> {
    set k | 0 <= k < |gs| && gs[k].FNode? :: gs[k].pos
  }

  lemma {:induction false} SibMaskIs(f: Forest)
    ensures SibMask(f) <= DataRecs(Sib(f)) + PosOf(Dirs(f))
    ensures Recorded(Dirs(f), Sib(f))
  {
    match f
    case FNil =>
    case FNode(e, pos, at, c, n) =>
      SibMaskIs(n);
      assert Sib(f) == [Rec(e, pos, at)] + Sib(n);
      assert Rec(e, pos, at) in Sib(f);
      assert DataRecs(Sib(n)) <= DataRecs(Sib(f));
      PosOfConcat(if c.FNode? then [f] else [], Dirs(n));
      if c.FNode? { assert [f][0] == f; assert pos in PosOf([f]); }
  }

  lemma PosOfConcat(a: seq<Forest>, b: seq<Forest>)
    ensures PosOf(a + b) == PosOf(a) + PosOf(b)
  {
    forall x | x in PosOf(b) ensures x in PosOf(a + b) {
      var k :| 0 <= k < |b| && b[k].FNode? && b[k].pos == x;
      assert (a + b)[|a| + k] == b[k];
    }
    forall x | x in PosOf(a) ensures x in PosOf(a + b) {
      var k :| 0 <= k < |a| && a[k].FNode? && a[k].pos == x;
      assert (a + b)[k] == a[k];
    }
  }

  lemma PosOfReversed(a: seq<Forest>)
    ensures PosOf(Reversed(a)) == PosOf(a)
  {
    forall x | x in PosOf(a) ensures x in PosOf(Reversed(a)) {
      var k :| 0 <= k < |a| && a[k].FNode? && a[k].pos == x;
      assert Reversed(a)[|a| - 1 - k] == a[k];
    }
  }

  lemma RecordedConcat(a: seq<Forest>, b: seq<Forest>, rs: seq<Rec>, rs': seq<Rec>)
    requires Recorded(a, rs) && Recorded(b, rs')
    ensures Recorded(a + Reversed(b), rs + rs')
  {
  }

  /** What is still to be written, once the directory `cur` is listed and its subdirectories are on
      the stack: exactly what comes below the stack, top first. */
  lemma ComingAfterListing(cur: Forest, gs: seq<Forest>)
    ensures Flat(cur) + Coming(Reversed(gs)) == Sib(cur) + Coming(Reversed(gs + Reversed(Dirs(cur))))
  {
    hide Flat, Coming, Reversed;
    DescIsComing(cur);
    FlatParts(cur);
    ReversedConcat(gs, Reversed(Dirs(cur)));
    ReversedConcat(Dirs(cur), []);
    ComingConcat(Dirs(cur), Reversed(gs));
    assert (Sib(cur) + Desc(cur)) + Coming(Reversed(gs)) == Sib(cur) + (Desc(cur) + Coming(Reversed(gs)));
  }

  lemma FlatParts(f: Forest)
    ensures Flat(f) == Sib(f) + Desc(f)
  {
  }

  lemma ComingAfterPop(gs: seq<Forest>)
    requires gs != [] && gs[|gs| - 1].FNode?
    ensures Coming(Reversed(gs)) == Flat(gs[|gs| - 1].child) + Coming(Reversed(gs[..|gs| - 1]))
  {
    var g, rest := gs[|gs| - 1], gs[..|gs| - 1];
    assert gs == rest + [g];
    ReversedConcat(rest, [g]);
    assert Reversed([g]) == [g];
    assert ([g] + Reversed(rest))[1..] == Reversed(rest);
  }

  /** What the pending directories and the records already written have in common. */
  ghost predicate StackOk(es: seq<Entry>, gs: seq<Forest>, m: map<Entry, nat>, all: set<Entry>, done: seq<Rec>, masked: set<nat>) {
    AllPending(es, gs, m, all) && Recorded(gs, done) && masked <= DataRecs(done) + PosOf(gs)
  }

  lemma StackAfterListing(es: seq<Entry>, gs: seq<Forest>, first: Entry?, cur: Forest, m: map<Entry, nat>, all: set<Entry>,
                          done: seq<Rec>, masked: set<nat>)
    requires StackOk(es, gs, m, all, done, masked)
    requires Placed(first, cur, m) && Reach(first, cur) <= all && Linked(cur)
    ensures StackOk(es + Reversed(DirEntries(first, cur)), gs + Reversed(Dirs(cur)), m, all,
                    done + Sib(cur), masked + SibMask(cur))
  {
    hide Placed, Reach, Linked, Reversed, DirEntries, Dirs, Sib, SibMask, AllPending, Recorded, PosOf;
    DirEntriesPending(first, cur, m, all);
    AllPendingReversed(DirEntries(first, cur), Dirs(cur), m, all);
    AllPendingConcat(es, gs, Reversed(DirEntries(first, cur)), Reversed(Dirs(cur)), m, all);
    SibMaskIs(cur);
    RecordedConcat(gs, Dirs(cur), done, Sib(cur));
    PosOfReversed(Dirs(cur));
    PosOfConcat(gs, Reversed(Dirs(cur)));
    assert DataRecs(done) + DataRecs(Sib(cur)) <= DataRecs(done + Sib(cur));
  }

  lemma StackAfterPop(es: seq<Entry>, gs: seq<Forest>, m: map<Entry, nat>, all: set<Entry>, done: seq<Rec>, masked: set<nat>)
    requires StackOk(es, gs, m, all, done, masked) && es != []
    ensures |gs| == |es| && Pending(es[|es| - 1], gs[|gs| - 1], m, all)
    ensures var g := gs[|gs| - 1];
            && Rec(g.ent, g.pos, g.at) in done
            && StackOk(es[..|es| - 1], gs[..|gs| - 1], m, all, done, masked - {g.pos})
  {
    hide Pending;
    var g, rest := gs[|gs| - 1], gs[..|gs| - 1];
    assert Pending(es[|es| - 1], g, m, all);
    forall x | x in masked - {g.pos} ensures x in DataRecs(done) + PosOf(rest) {
      if x in PosOf(gs) {
        var k :| 0 <= k < |gs| && gs[k].FNode? && gs[k].pos == x;
        assert rest[k] == gs[k];
      }
    }
  }

  lemma CoverAfterListing(x: Entry, first: Entry?, cur: Forest, es: seq<Entry>, gs: seq<Forest>, m: map<Entry, nat>, all: set<Entry>)
    requires |es| == |gs| && Placed(first, cur, m) && Reach(first, cur) <= all && Linked(cur)
    requires x in Reach(first, cur) || BelowPending(x, es, gs)
    ensures x in SibEntries(first, cur)
            || BelowPending(x, es + Reversed(DirEntries(first, cur)), gs + Reversed(Dirs(cur)))
  {
    hide Placed, Reach, Linked, Reversed, BelowPending;
    DirCounts(first, cur, m);
    if x in Reach(first, cur) {
      DirEntriesCover(first, cur, m, all, x);
      if x !in SibEntries(first, cur) { BelowReversed(x, DirEntries(first, cur), Dirs(cur)); }
    }
    BelowConcat(x, es, gs, Reversed(DirEntries(first, cur)), Reversed(Dirs(cur)));
  }

  /** The next record to write is the first child of the popped directory, so its inode must point here. */
  lemma PopOffset(g: Forest, later: seq<Rec>, offset: nat, end: nat)
    requires g.FNode? && g.child.FNode? && g.at == g.child.pos
    requires Contiguous(Flat(g.child) + later, offset, end)
    ensures g.at == offset
  {
    assert (Flat(g.child) + later)[0] == Rec(g.child.ent, g.child.pos, g.child.at);
    ContiguousHead(Flat(g.child) + later, offset, end);
  }

  // ------------------------------------------------------------ data

  /** `is_zero`: the first four bytes, then a comparison of the block with itself four bytes on. */
  function IsZero(b: seq<byte>): bool {
    |b| == 0 || (b[0] == 0 &&
      (|b| == 1 || (b[1] == 0 &&
        (|b| == 2 || (b[2] == 0 &&
          (|b| == 3 || (b[3] == 0 && b[..|b| - 4] == b[4..])))))))
  }

  /** `is_zero` holds exactly of the blocks of NULs. */
  lemma IsZeroExact(b: seq<byte>)
    ensures IsZero(b) <==> AllZero(b)
  {
    if |b| > 3 && AllZero(b) {
      assert b[..|b| - 4] == b[4..];
    }
    if IsZero(b) {
      forall i | 0 <= i < |b| ensures b[i] == 0 { ZeroRun(b, i); }
    }
  }

  lemma {:induction false} ZeroRun(b: seq<byte>, i: nat)
    requires IsZero(b) && i < |b|
    ensures b[i] == 0
  {
    if i >= 4 {
      ZeroRun(b, i - 4);
      assert b[i - 4] == b[..|b| - 4][i - 4] == b[4..][i - 4] == b[i];
    }
  }

  /** One turn of the loop in `do_compress`, for the data still to come. */
  lemma ChunkStep(en: Endian, z: Zlib, holes: bool, rest: seq<byte>, curr: nat)
    requires rest != []
    ensures var input := if |rest| > BLOCK then BLOCK else |rest|;
            var next := curr + |Squeeze(z, holes, rest[..input])|;
            && Pointers(en, z, holes, rest, curr) == Put32(en, next) + Pointers(en, z, holes, rest[input..], next)
            && Blocks(z, holes, rest) == Squeeze(z, holes, rest[..input]) + Blocks(z, holes, rest[input..])
  {
    hide Squeeze;
    if |rest| <= BLOCK {
      assert rest[..|rest|] == rest && rest[|rest|..] == [];
      assert Pointers(en, z, holes, [], curr) == [] && Blocks(z, holes, []) == [];
    }
  }

  /** Everything from `k` on is still as `mmap` gave it. */
  ghost predicate ZeroFrom(s: seq<byte>, k: nat) {
    forall i :: k <= i < |s| ==> s[i] == 0
  }

  lemma SplicePad(s: seq<byte>, at: nat, b: seq<byte>, k: nat)
    requires at + |b| + k <= |s| && ZeroFrom(s, at)
    ensures Splice(s, at, b) == Splice(s, at, b + Zeros(k))
    ensures ZeroFrom(Splice(s, at, b), at + |b| + k)
  {
    var r, r' := Splice(s, at, b), Splice(s, at, b + Zeros(k));
    forall i | 0 <= i < |s| ensures r[i] == r'[i] { }
  }

  /** Pointers and blocks are written side by side. */
  lemma SpliceTwo(s: seq<byte>, at: nat, p: seq<byte>, w: seq<byte>, c: nat, b: seq<byte>, z: seq<byte>)
    requires at + |p| + |w| <= c && c + |b| + |z| <= |s|
    ensures Splice(Splice(Splice(Splice(s, at, p), c, b), c + |b|, z), at + |p|, w)
            == Splice(Splice(s, at, p + w), c, b + z)
  {
    hide Splice;
    var s1 := Splice(s, at, p);
    SpliceExtend(s1, c, b, z);
    SpliceSwap(s1, at + |p|, w, c, b + z);
    SpliceExtend(s, at, p, w);
  }

  /** What the data pass keeps: the directory records with the masked offsets still open, and nothing
      yet beyond the end of the data. */
  ghost predicate DataState(en: Endian, s: seq<byte>, rs: seq<Rec>, base: nat, dirEnd: nat, masked: set<nat>, end: nat) {
    && Contiguous(rs, base, dirEnd) && Written(en, s, rs, masked)
    && dirEnd <= end && end % 4 == 0 && ZeroFrom(s, end)
  }

  /** Apart from the records, nothing before `hi` has changed. */
  ghost predicate Kept(s: seq<byte>, s0: seq<byte>, base: nat, dirEnd: nat, hi: nat) {
    && |s| == |s0| && base <= dirEnd <= hi
    && (forall i :: 0 <= i < base && i < |s| ==> s[i] == s0[i])
    && (forall i :: dirEnd <= i < hi && i < |s| ==> s[i] == s0[i])
  }

  lemma KeptTrans(s: seq<byte>, s1: seq<byte>, s0: seq<byte>, base: nat, dirEnd: nat, hi: nat, hi1: nat)
    requires Kept(s1, s0, base, dirEnd, hi) && Kept(s, s1, base, dirEnd, hi1) && hi <= hi1
    ensures Kept(s, s0, base, dirEnd, hi)
  {
  }

  lemma KeptHolds(s: seq<byte>, s0: seq<byte>, base: nat, dirEnd: nat, hi: nat, at: nat, b: seq<byte>)
    requires Kept(s, s0, base, dirEnd, hi) && HoldsAt(s0, at, b) && dirEnd <= at && at + |b| <= hi
    ensures HoldsAt(s, at, b)
  {
    forall i | 0 <= i < |b| ensures s[at + i] == b[i] {
      assert s0[at..at + |b|][i] == b[i];
    }
    assert s[at..at + |b|] == b;
  }

  /** Filling in one offset. */
  lemma PatchKeeps(en: Endian, s: seq<byte>, rs: seq<Rec>, base: nat, dirEnd: nat, masked: set<nat>, end: nat, r: Rec)
    requires DataState(en, s, rs, base, dirEnd, masked, end) && r in rs
    ensures r.pos + INODE_SIZE <= |s|
    ensures r.at < 4 * OFFSET_LIMIT ==>
              var word := Get32(en, s[r.pos + 8..r.pos + 12]);
              var s' := Splice(s, r.pos + 8, Put32(en, PatchedWord(en, word, r.at / 4)));
              DataState(en, s', rs, base, dirEnd, masked - {r.pos}, end) && Kept(s', s, base, dirEnd, |s| + end)
  {
    hide Written, Contiguous, PatchedWord;
    var k :| 0 <= k < |rs| && rs[k] == r;
    RecordWithin(en, s, rs, masked, base, dirEnd, k);
    if r.at < 4 * OFFSET_LIMIT {
      WrittenPatch(en, s, rs, masked, base, dirEnd, k);
    }
  }

  /** Appending one chunk. */
  lemma ChunkKeeps(en: Endian, s: seq<byte>, rs: seq<Rec>, base: nat, dirEnd: nat, masked: set<nat>, end: nat, chunk: seq<byte>)
    requires DataState(en, s, rs, base, dirEnd, masked, end) && end + |chunk| <= |s| && |chunk| % 4 == 0
    requires ZeroFrom(Splice(s, end, chunk), end + |chunk|)
    ensures DataState(en, Splice(s, end, chunk), rs, base, dirEnd, masked, end + |chunk|)
    ensures Kept(Splice(s, end, chunk), s, base, dirEnd, end) && HoldsAt(Splice(s, end, chunk), end, chunk)
  {
    hide Written, Contiguous;
    WrittenFrame(en, s, rs, masked, base, dirEnd, end, chunk);
    SpreadEnds(rs, base, dirEnd);
    SpliceHolds(s, end, chunk, 0, []);
    Aligned(end, |chunk|);
  }

  /** The store agrees with the offsets given to the first `k` entries. */
  ghost predicate Stored(all: seq<Entry>, k: nat, s: Store)
    reads (set i | 0 <= i < k && i < |all| :: all[i])`offset
  {
    && k <= |all|
    && (forall i :: 0 <= i < k && all[i].ent.HasData() ==>
          all[i].ent.data in s.where && all[i].offset == s.where[all[i].ent.data])
    && (forall d | d in s.where :: exists i :: 0 <= i < k && all[i].ent.HasData() && all[i].ent.data == d)
  }

  /** Entries come with the sizes of their data, and `same` as `eliminate_doubles` left it. */
  ghost predicate Deduplicated(all: seq<Entry>)
    reads all`same
  {
    && Distinct(all)
    && (forall i :: 0 <= i < |all| && all[i].ent.HasData() ==> all[i].ent.size == |all[i].ent.data|)
    && (forall i :: 0 <= i < |all| ==> all[i].same == Chosen(all, all[i]))
  }

  /** The store after one more entry. */
  lemma StoredStep(z: Zlib, holes: bool, all: seq<Entry>, k: nat, s: Store)
    requires Stored(all, k, s) && k < |all|
    requires all[k].ent.HasData() ==> all[k].offset == DataAt(all[k].ent, s)
    ensures Stored(all, k + 1, StoreEnt(z, holes, all[k].ent, s))
  {
    var s1 := StoreEnt(z, holes, all[k].ent, s);
    forall d | d in s1.where
      ensures exists i :: 0 <= i < k + 1 && all[i].ent.HasData() && all[i].ent.data == d
    {
      if d in s.where {
        var i :| 0 <= i < k && all[i].ent.HasData() && all[i].ent.data == d;
      } else {
        assert all[k].ent.data == d;
      }
    }
  }

  /** `same` is set exactly when the content is stored already, and then points at an entry with the
      stored offset. */
  lemma SharedOffset(all: seq<Entry>, k: nat, s: Store)
    requires Stored(all, k, s) && Deduplicated(all) && k < |all| && all[k].ent.HasData()
    ensures all[k].same != null ==> all[k].ent.data in s.where && all[k].same.offset == s.where[all[k].ent.data]
    ensures all[k].same == null ==> all[k].ent.data !in s.where
  {
    RepresentativeIsFirst(all, k);
    assert forall i :: 0 <= i < k && all[i].ent.HasData() && all[i].ent.data == all[k].ent.data ==>
             SameContent(all[i], all[k]);
    if all[k].same != null {
      var j :| 0 <= j < k && all[j] == all[k].same;
    }
  }

  /** Positions of the nodes of `f` that carry data. */
  ghost function DataNodes(f: Forest): set<nat> {
    match f
    case FNil => {}
    case FNode(e, pos, _, c, n) => (if e.HasData() then {pos} else {}) + DataNodes(c) + DataNodes(n)
  }

  lemma {:induction false} DataNodesAre(f: Forest)
    ensures DataRecs(Flat(f)) == DataNodes(f)
    ensures DataRecs(Sib(f)) + DataRecs(Desc(f)) == DataNodes(f)
  {
    match f
    case FNil =>
    case FNode(e, pos, at, c, n) =>
      DataNodesAre(c);
      DataNodesAre(n);
      DataRecsConcat([Rec(e, pos, at)], Sib(n));
      DataRecsConcat(Flat(c), Desc(n));
      DataRecsConcat(Sib(f), Desc(f));
      DataRecsOne(Rec(e, pos, at));
  }

  lemma DataRecsOne(r: Rec)
    ensures DataRecs([r]) == if r.ent.HasData() then {r.pos} else {}
  {
    assert r in [r];
  }

  lemma DataRecsConcat(a: seq<Rec>, b: seq<Rec>)
    ensures DataRecs(a + b) == DataRecs(a) + DataRecs(b)
  {
    assert forall r | r in a :: r in a + b;
    assert forall r | r in b :: r in a + b;
  }

  function OwnData(o: Options, e: Ent, s: Store): seq<byte> {
    if e.HasData() && e.data !in s.where then Chunk(o.en, o.z, o.holes, e.data, s.end) else []
  }

  function OwnBlocks(e: Ent, s: Store): nat {
    if e.HasData() && e.data !in s.where then BlockCount(|e.data|) else 0
  }

  /** All offsets are on word boundaries. */
  predicate OffsetsEven(f: Forest) {
    match f
    case FNil => true
    case FNode(_, _, at, c, n) => at % 4 == 0 && OffsetsEven(c) && OffsetsEven(n)
  }

  class Maker {
    const o: Options
    const rom: array<byte>
    var totalNodes: nat
    var totalBlocks: nat

    constructor (o: Options, length: nat)
      ensures this.o == o && fresh(rom) && rom.Length == length && rom[..] == Zeros(length)
      ensures totalNodes == 1 && totalBlocks == 0
    {
      this.o := o;
      this.rom := new byte[length](_ => 0);
      totalNodes, totalBlocks := 1, 0;
    }

    /** `memcpy` into the buffer. */
    method Copy(at: nat, b: seq<byte>)
      requires at + |b| <= rom.Length
      modifies rom
      ensures rom[..] == Splice(old(rom[..]), at, b)
    {
      var i := 0;
      while i < |b|
        invariant 0 <= i <= |b|
        invariant rom[..] == Splice(old(rom[..]), at, b[..i])
      {
        rom[at + i] := b[i];
        i := i + 1;
      }
      assert b[..i] == b;
    }

    /** Writes a name and pads it with NULs to a word boundary. */
    method WriteName(e: Ent, at: nat) returns (len: nat)
      requires at + RoundUp4(|e.name|) <= rom.Length
      modifies rom
      ensures len == RoundUp4(|e.name|)
      ensures rom[..] == Splice(old(rom[..]), at, e.PaddedName())
    {
      hide Splice;
      ghost var s := rom[..];
      len := |e.name|;
      Copy(at, e.name);
      assert e.name + Zeros(0) == e.name;
      while len % 4 != 0
        invariant |e.name| <= len <= RoundUp4(|e.name|)
        invariant rom[..] == Splice(s, at, e.name + Zeros(len - |e.name|))
        decreases RoundUp4(|e.name|) - len
      {
        Copy(at + len, [0]);
        SpliceExtend(s, at, e.name + Zeros(len - |e.name|), [0]);
        assert e.name + Zeros(len - |e.name|) + [0] == e.name + Zeros(len + 1 - |e.name|);
        len := len + 1;
      }
    }

    /** Writes the record of `entry` at `offset`, with the inode's offset still zero. */
    method WriteRecord(entry: Entry, offset: nat) returns (next: nat)
      requires offset + entry.ent.RecordSize() <= rom.Length
      modifies rom, entry`dirOffset
      ensures entry.dirOffset == offset && next == offset + entry.ent.RecordSize()
      ensures rom[..] == Splice(old(rom[..]), offset, entry.ent.Record(o.en, 0))
      ensures Untouched(rom[..], old(rom[..]), offset, next)
    {
      hide Splice;
      SpliceFrame(rom[..], offset, entry.ent.Record(o.en, 0), offset, offset + entry.ent.RecordSize());
      entry.dirOffset := offset;
      var len := WriteName(entry.ent, offset + INODE_SIZE);
      var inode := EncodeInode(o.en, entry.ent.InodeAt(0));
      Copy(offset, inode);
      SpliceSwap(old(rom[..]), offset, inode, offset + INODE_SIZE, entry.ent.PaddedName());
      SpliceExtend(old(rom[..]), offset, inode, entry.ent.PaddedName());
      next := offset + INODE_SIZE + len;
    }

    /** Dies on an unaligned offset or one of 2^28 or more; otherwise stores it in the entry's inode. */
    method SetDataOffset(entry: Entry, offset: nat) returns (ok: bool)
      requires entry.dirOffset + INODE_SIZE <= rom.Length
      modifies rom
      ensures ok == (offset % 4 == 0 && offset < 4 * OFFSET_LIMIT)
      ensures !ok ==> rom[..] == old(rom[..])
      ensures ok ==> var d, s := entry.dirOffset, old(rom[..]);
                     rom[..] == Splice(s, d + 8, Put32(o.en, PatchedWord(o.en, Get32(o.en, s[d + 8..d + 12]), offset / 4)))
    {
      if offset % 4 != 0 {
        return false;
      }
      if offset >= 4 * OFFSET_LIMIT {
        return false;
      }
      var d := entry.dirOffset;
      var word := Get32(o.en, rom[d + 8..d + 12]);
      assert rom[d + 8..d + 12] == rom[..][d + 8..d + 12];
      Copy(d + 8, Put32(o.en, PatchedWord(o.en, word, offset / 4)));
      ok := true;
    }

    /** The inner loop of `write_directory_structure`: lists one directory and pushes its non-empty
        subdirectories on the stack, in order. */
    method ListSiblings(first: Entry?, start: nat, stack0: seq<Entry>,
                        ghost cur: Forest, ghost end: nat, ghost m: map<Entry, nat>, ghost all: set<Entry>,
                        ghost rs: seq<Rec>, ghost base: nat, ghost masked: set<nat>)
      returns (offset: nat, stack: seq<Entry>)
      requires Placed(first, cur, m) && Reach(first, cur) <= all && Linked(cur)
      requires Contiguous(rs, base, start) && Contiguous(Sib(cur), start, end) && end <= rom.Length
      requires Written(o.en, rom[..], rs, masked)
      modifies rom, this`totalNodes, all`dirOffset
      ensures offset == end && stack == stack0 + DirEntries(first, cur)
      ensures Written(o.en, rom[..], rs + Sib(cur), masked + SibMask(cur))
      ensures Contiguous(rs + Sib(cur), base, end)
      ensures forall x | x in SibEntries(first, cur) :: x in m && x.dirOffset == m[x]
      ensures forall x | x in all :: x.dirOffset == old(x.dirOffset) || (x in m && x.dirOffset == m[x])
      ensures Untouched(rom[..], old(rom[..]), start, end)
      ensures totalNodes == old(totalNodes) + |Sib(cur)|
    {
      hide Written, Contiguous, HoldsAt, Splice, Placed, Reach, Linked, Sib, SibEntries, DirEntries, SibMask, Untouched,
           Ent.Record, Ent.RecordSize;
      var entry := first;
      offset, stack := start, stack0;
      ghost var rest, done, mask := cur, rs, masked;
      ghost var seen: seq<Entry> := [];
      SpreadEnds(Sib(cur), start, end);
      UntouchedRefl(rom[..], start, start);
      while entry != null
        invariant Placed(entry, rest, m) && Reach(entry, rest) <= all && Linked(rest)
        invariant Contiguous(done, base, offset) && Contiguous(Sib(rest), offset, end)
        invariant done + Sib(rest) == rs + Sib(cur) && mask + SibMask(rest) == masked + SibMask(cur)
        invariant Written(o.en, rom[..], done, mask)
        invariant stack + DirEntries(entry, rest) == stack0 + DirEntries(first, cur)
        invariant seen + SibEntries(entry, rest) == SibEntries(first, cur)
        invariant forall x | x in seen :: x in m && x.dirOffset == m[x]
        invariant forall x | x in all :: x.dirOffset == old(x.dirOffset) || (x in m && x.dirOffset == m[x])
        invariant start <= offset <= end
        invariant Untouched(rom[..], old(rom[..]), start, offset)
        invariant totalNodes + |Sib(rest)| == old(totalNodes) + |Sib(cur)|
        decreases rest
      {
        var e: Entry := entry;
        ListUnfold(e, rest, m, all);
        ListStep(o.en, rom[..], rest, offset, end, done, base, mask);
        ghost var at := offset;
        label Turn:
        seen, done := seen + [e], done + [Rec(rest.ent, rest.pos, rest.at)];
        mask := mask + if rest.ent.HasData() || rest.child.FNode? then {rest.pos} else {};
        offset := WriteRecord(e, offset);
        UntouchedTrans(rom[..], old@Turn(rom[..]), old(rom[..]), start, at, offset, at);
        totalNodes := totalNodes + 1;
        if e.child != null {
          stack := stack + [e];
        }
        entry := e.next;
        rest := rest.next;
      }
      ListEmpty(rest, m);
      ContiguousHead([], offset, end);
      assert done + [] == done && mask + {} == mask && stack + [] == stack && seen + [] == seen;
    }

    /** One block: its bytes, unless it is a hole, and the pointer to its end. */
    method StoreBlock(curr: nat, at: nat, block: seq<byte>) returns (next: nat)
      requires at + 4 <= curr && curr + |Squeeze(o.z, o.holes, block)| <= rom.Length
      modifies rom
      ensures next == curr + |Squeeze(o.z, o.holes, block)|
      ensures rom[..] == Splice(Splice(old(rom[..]), curr, Squeeze(o.z, o.holes, block)), at, Put32(o.en, next))
    {
      hide Splice, IsZero, Squeeze;
      IsZeroExact(block);
      SqueezeIs(o.z, o.holes, block);
      SpliceNothing(rom[..], curr);
      next := curr;
      if !(o.holes && IsZero(block)) {
        var out := o.z.compress(block);
        Copy(next, out);
        next := next + |out|;
      }
      Copy(at, Put32(o.en, next));
    }

    /** Writes the pointer table and the blocks of `data` at `offset`; returns the next free word. */
    method DoCompress(offset: nat, data: seq<byte>) returns (end: nat)
      requires data != [] && offset % 4 == 0
      requires offset + |Chunk(o.en, o.z, o.holes, data, offset)| <= rom.Length && ZeroFrom(rom[..], offset)
      modifies rom, this`totalBlocks
      ensures end == offset + |Chunk(o.en, o.z, o.holes, data, offset)|
      ensures rom[..] == Splice(old(rom[..]), offset, Chunk(o.en, o.z, o.holes, data, offset))
      ensures ZeroFrom(rom[..], end)
      ensures totalBlocks == old(totalBlocks) + BlockCount(|data|)
    {
      hide Splice, ZeroFrom, Pointers, Blocks, Squeeze, IsZero, Chunk, BlockCount, RoundUp4, AllZero, Put32, Lawful;
      var size := |data|;
      var blocks := (size - 1) / BLOCK + 1;
      BlockCountAlt(size);
      ghost var s := rom[..];
      ghost var c0 := offset + 4 * blocks;
      var curr := offset + 4 * blocks;
      var at, p := offset, 0;
      totalBlocks := totalBlocks + blocks;
      ghost var pointers, body := Pointers(o.en, o.z, o.holes, data, c0), Blocks(o.z, o.holes, data);
      ghost var pDone: seq<byte>, bDone: seq<byte> := [], [];
      PointersSize(o.en, o.z, o.holes, data, c0);
      ChunkRoom(o.en, o.z, o.holes, data, offset);
      SpliceNothing(s, offset); SpliceNothing(s, c0);
      assert data[0..] == data;
      while size > 0
        invariant size == |data| - p && p <= |data| && totalBlocks == old(totalBlocks) + blocks
        invariant at == offset + |pDone| && curr == c0 + |bDone|
        invariant pointers == pDone + Pointers(o.en, o.z, o.holes, data[p..], curr)
        invariant body == bDone + Blocks(o.z, o.holes, data[p..])
        invariant rom[..] == Splice(Splice(s, offset, pDone), c0, bDone)
      {
        var input := if size > BLOCK then BLOCK else size;
        size := size - input;
        var block := data[p..p + input];
        ChunkStep(o.en, o.z, o.holes, data[p..], curr);
        assert data[p..][..input] == block && data[p..][input..] == data[p + input..];
        ghost var stored := Squeeze(o.z, o.holes, block);
        curr := StoreBlock(curr, at, block);
        p := p + input;
        SpliceTwo(s, offset, pDone, Put32(o.en, curr), c0, bDone, stored);
        Assoc(pDone, Put32(o.en, curr), Pointers(o.en, o.z, o.holes, data[p..], curr));
        Assoc(bDone, stored, Blocks(o.z, o.holes, data[p..]));
        pDone, bDone := pDone + Put32(o.en, curr), bDone + stored;
        at := at + 4;
      }
      Exhausted(o.en, o.z, o.holes, data[p..], curr);
      assert pDone + [] == pDone && bDone + [] == bDone;
      end := RoundUp4(curr);
      ChunkDone(o.en, o.z, o.holes, s, offset, data, end);
    }

    /** Gives one file or link its offset: that of its representative, or the next free one, in which
        case its data is compressed there. */
    method PlaceData(entry: Entry, offset: nat, ghost r: Rec, ghost s: Store, ghost all: seq<Entry>, ghost k: nat,
                     ghost rs: seq<Rec>, ghost base: nat, ghost dirEnd: nat, ghost masked: set<nat>)
      returns (ok: bool, end: nat)
      requires k < |all| && all[k] == entry && entry.ent.HasData()
      requires Deduplicated(all) && Stored(all, k, s)
      requires r in rs && r.ent == entry.ent && r.at == DataAt(entry.ent, s) && entry.dirOffset == r.pos
      requires DataState(o.en, rom[..], rs, base, dirEnd, masked, offset) && s.end == offset
      requires r.at % 4 == 0 && StoreEnt(o.z, o.holes, entry.ent, s).end <= rom.Length
      modifies rom, this`totalBlocks, entry`offset
      ensures ok == (r.at < 4 * OFFSET_LIMIT)
      ensures ok ==> var s1 := StoreEnt(o.z, o.holes, entry.ent, s);
                     && end == s1.end && Stored(all, k + 1, s1)
                     && DataState(o.en, rom[..], rs, base, dirEnd, masked - {r.pos}, end)
                     && Kept(rom[..], old(rom[..]), base, dirEnd, offset)
                     && (entry.ent.data !in s.where
                         ==> HoldsAt(rom[..], offset, Chunk(o.en, o.z, o.holes, entry.ent.data, offset)))
      ensures ok ==> totalBlocks == old(totalBlocks)
                     + if entry.ent.data in s.where then 0 else BlockCount(|entry.ent.data|)
    {
      hide DataState, Kept, HoldsAt, Splice, Chunk, ChunkSize, PatchedWord, Representative, FirstMatch, BlockCount, ZeroFrom,
           Stored, Chosen;
      SharedOffset(all, k, s);
      PatchKeeps(o.en, rom[..], rs, base, dirEnd, masked, offset, r);
      end := offset;
      if entry.same != null {
        ok := SetDataOffset(entry, entry.same.offset);
        if !ok {
          return;
        }
        StateFacts(o.en, rom[..], rs, base, dirEnd, masked - {r.pos}, offset);
        KeptLess(rom[..], old(rom[..]), base, dirEnd, |rom[..]| + offset, offset);
        entry.offset := entry.same.offset;
      } else {
        ok := SetDataOffset(entry, offset);
        if !ok {
          return;
        }
        entry.offset := offset;
        ghost var chunk := Chunk(o.en, o.z, o.holes, entry.ent.data, offset);
        ChunkLength(o.en, o.z, o.holes, entry.ent.data, offset);
        StateFacts(o.en, rom[..], rs, base, dirEnd, masked - {r.pos}, offset);
        label Patched:
        end := DoCompress(offset, entry.ent.data);
        ChunkKeeps(o.en, old@Patched(rom[..]), rs, base, dirEnd, masked - {r.pos}, offset, chunk);
        KeptLess(old@Patched(rom[..]), old(rom[..]), base, dirEnd, |rom[..]| + offset, offset);
        KeptTrans(rom[..], old@Patched(rom[..]), old(rom[..]), base, dirEnd, offset, offset);
      }
      assert forall i :: 0 <= i < k ==> all[i] != entry;
      assert Stored(all, k, s);
      StoredStep(o.z, o.holes, all, k, s);
    }

    /** The body of the loop in `write_data`: one entry and everything below it.  `t` is the entry's
        subtree without its siblings. */
    method WriteEntry(entry: Entry, offset: nat, ghost t: Tree, ghost p: nat, ghost q: nat, ghost s: Store, ghost f: Forest,
                      ghost m: map<Entry, nat>, ghost all: seq<Entry>, ghost k: nat,
                      ghost rs: seq<Rec>, ghost base: nat, ghost dirEnd: nat, ghost masked: set<nat>)
      returns (ok: bool, end: nat)
      requires t.Node? && ValidTree(t) && f == Lay(o.z, o.holes, t, p, q, s) && OffsetsEven(f) && InRecs(f, rs)
      requires Placed(entry, f, m) && forall x | x in Reach(entry, f) :: x in m && x.dirOffset == m[x]
      requires k + 1 + Count(t.child) <= |all| && all[k] == entry
      requires Rep(entry.child, t.child) && all[k + 1..k + 1 + Count(t.child)] == Pre(entry.child, t.child)
      requires Deduplicated(all) && Stored(all, k, s)
      requires DataState(o.en, rom[..], rs, base, dirEnd, masked, offset) && s.end == offset
      requires offset <= StoreTree(o.z, o.holes, t.child, StoreEnt(o.z, o.holes, t.ent, s)).end <= rom.Length
      modifies rom, this`totalBlocks, all`offset
      ensures !ok ==> !OffsetsFit(f)
      ensures ok ==> var s1 := StoreEnt(o.z, o.holes, t.ent, s);
                     var s2 := StoreTree(o.z, o.holes, t.child, s1);
                     && end == s2.end && Stored(all, k + 1 + Count(t.child), s2)
                     && DataState(o.en, rom[..], rs, base, dirEnd,
                                  masked - (if t.ent.HasData() then {f.pos} else {}) - DataNodes(f.child), end)
                     && Kept(rom[..], old(rom[..]), base, dirEnd, offset)
                     && HoldsAt(rom[..], offset, OwnData(o, t.ent, s) + DataBytes(o.en, o.z, o.holes, t.child, s1))
                     && totalBlocks == old(totalBlocks) + OwnBlocks(t.ent, s) + BlocksWritten(o.z, o.holes, t.child, s1)
      decreases t, 0
    {
      hide DataState, Kept, HoldsAt, Chunk, Placed, Reach, Stored, Deduplicated, InRecs, OffsetsEven, OffsetsFit, Lay,
           DataNodes, StoreTree, StoreEnt, BlocksWritten, ValidTree, OwnData, OwnBlocks, DataBytes, ZeroFrom, Splice;
      NodeFacts(o, entry, t, p, q, s, f, m, rs);
      StateBounds(o.en, rom[..], rs, base, dirEnd, masked, offset);
      if t.child.Nil? { NoChild(o, t, s, f, masked); }
      ok, end := true, offset;
      if entry.ent.HasData() {
        PlacedHere(entry, f, m);
        NoChild(o, t, s, f, masked - {f.pos});
        ok, end := PlaceData(entry, offset, Rec(t.ent, f.pos, f.at), s, all, k, rs, base, dirEnd, masked);
        if ok { OwnHeld(o, t.ent, s, rom[..]); }
      } else {
        Stored1(o, all, k, s);
        NoData(o, t, s, masked);
        if entry.child != null {
          ok, end := WriteData(entry.child, offset, t.child, q, q + Width(t.child), s, f.child, m, all, k + 1,
                               rs, base, dirEnd, masked);
        } else {
          OwnHeld(o, t.ent, s, rom[..]);
          KeptRefl(rom[..], base, dirEnd, offset);
        }
      }
    }

    /** The data pass over a list of siblings and all below them: every distinct content is stored once, in
        preorder, and every inode gets the offset of its content.  It fails only on an offset of 2^28 or more. */
    method WriteData(first: Entry, start: nat, ghost t: Tree, ghost p: nat, ghost q: nat, ghost s: Store, ghost f: Forest,
                     ghost m: map<Entry, nat>, ghost all: seq<Entry>, ghost k: nat,
                     ghost rs: seq<Rec>, ghost base: nat, ghost dirEnd: nat, ghost masked: set<nat>)
      returns (ok: bool, offset: nat)
      requires ValidTree(t) && f == Lay(o.z, o.holes, t, p, q, s) && OffsetsEven(f) && InRecs(f, rs)
      requires Placed(first, f, m) && forall x | x in Reach(first, f) :: x in m && x.dirOffset == m[x]
      requires k + Count(t) <= |all| && Rep(first, t) && all[k..k + Count(t)] == Pre(first, t)
      requires Deduplicated(all) && Stored(all, k, s)
      requires DataState(o.en, rom[..], rs, base, dirEnd, masked, start) && s.end == start
      requires StoreTree(o.z, o.holes, t, s).end <= rom.Length
      modifies rom, this`totalBlocks, all`offset
      ensures !ok ==> !OffsetsFit(f)
      ensures ok ==> var s' := StoreTree(o.z, o.holes, t, s);
                     && offset == s'.end && Stored(all, k + Count(t), s')
                     && DataState(o.en, rom[..], rs, base, dirEnd, masked - DataNodes(f), offset)
                     && Kept(rom[..], old(rom[..]), base, dirEnd, start)
                     && HoldsAt(rom[..], start, DataBytes(o.en, o.z, o.holes, t, s))
                     && totalBlocks == old(totalBlocks) + BlocksWritten(o.z, o.holes, t, s)
      decreases t, 1
    {
      hide DataState, Kept, HoldsAt, Chunk, Placed, Reach, Stored, Deduplicated, InRecs, OffsetsEven, OffsetsFit, Lay,
           DataNodes, StoreTree, StoreEnt, BlocksWritten, ValidTree, OwnData, OwnBlocks, DataBytes, ZeroFrom, Splice,
           Rep, Pre, Count;
      var entry: Entry? := first;
      ok, offset := true, start;
      ghost var rest, cur, st, open := t, f, s, masked;
      ghost var at: nat, below: nat, i: nat := p, q, k;
      ghost var written: seq<byte> := [];
      StateBounds(o.en, rom[..], rs, base, dirEnd, masked, start);
      StoreGrows(o.z, o.holes, t, s);
      KeptRefl(rom[..], base, dirEnd, start);
      HoldsNothing(rom[..], start);
      while entry != null
        invariant ValidTree(rest) && cur == Lay(o.z, o.holes, rest, at, below, st) && OffsetsEven(cur) && InRecs(cur, rs)
        invariant Placed(entry, cur, m) && forall x | x in Reach(entry, cur) :: x in m && x.dirOffset == m[x]
        invariant i + Count(rest) == k + Count(t) && Rep(entry, rest) && all[i..k + Count(t)] == Pre(entry, rest)
        invariant Deduplicated(all) && Stored(all, i, st)
        invariant DataState(o.en, rom[..], rs, base, dirEnd, open, offset) && st.end == offset
        invariant StoreTree(o.z, o.holes, rest, st) == StoreTree(o.z, o.holes, t, s)
        invariant open - DataNodes(cur) == masked - DataNodes(f)
        invariant DataBytes(o.en, o.z, o.holes, t, s) == written + DataBytes(o.en, o.z, o.holes, rest, st)
        invariant offset == start + |written| && HoldsAt(rom[..], start, written)
        invariant Kept(rom[..], old(rom[..]), base, dirEnd, start)
        invariant totalBlocks + BlocksWritten(o.z, o.holes, rest, st) == old(totalBlocks) + BlocksWritten(o.z, o.holes, t, s)
        invariant OffsetsFit(f) ==> OffsetsFit(cur)
        decreases rest, 1
      {
        RepNode(entry, rest);
        ghost var s1 := StoreEnt(o.z, o.holes, rest.ent, st);
        ghost var s2 := StoreTree(o.z, o.holes, rest.child, s1);
        ghost var own := OwnData(o, rest.ent, st) + DataBytes(o.en, o.z, o.holes, rest.child, s1);
        ghost var e: Entry := entry;
        DataUnfold(o, e, rest, at, below, st, cur, m, all, i, k + Count(t), open);
        label Turn:
        ok, offset := WriteEntry(entry, offset, rest, at, below, st, cur, m, all, i, rs, base, dirEnd, open);
        if !ok {
          return;
        }
        KeptHolds(rom[..], old@Turn(rom[..]), base, dirEnd, start + |written|, start, written);
        KeptLess(rom[..], old@Turn(rom[..]), base, dirEnd, start + |written|, start);
        KeptTrans(rom[..], old@Turn(rom[..]), old(rom[..]), base, dirEnd, start, start);
        HoldsAtSplit(rom[..], start, written, own);
        Assoc(written, own, DataBytes(o.en, o.z, o.holes, rest.next, s2));
        i, open := i + 1 + Count(rest.child),
                   open - (if rest.ent.HasData() then {cur.pos} else {}) - DataNodes(cur.child);
        written := written + own;
        at, below, st := at + rest.ent.RecordSize(), below + Total(rest.child), s2;
        rest, cur := rest.next, cur.next;
        entry := entry.next;
      }
      DataEmpty(o, rest, cur, st, m, open);
      assert written + [] == written;
    }

    /** One turn of the outer loop up to the stack reversal. */
    method ListDirectory(first: Entry?, start: nat, stack0: seq<Entry>,
                         ghost cur: Forest, ghost gs: seq<Forest>, ghost end: nat, ghost m: map<Entry, nat>,
                         ghost all: set<Entry>, ghost done: seq<Rec>, ghost base: nat, ghost masked: set<nat>)
      returns (offset: nat, stack: seq<Entry>)
      requires Placed(first, cur, m) && Reach(first, cur) <= all && Linked(cur)
      requires StackOk(stack0, gs, m, all, done, masked) && Written(o.en, rom[..], done, masked)
      requires Contiguous(done, base, start) && Contiguous(Flat(cur) + Coming(Reversed(gs)), start, end)
      requires end <= rom.Length && base <= start
      modifies rom, this`totalNodes, all`dirOffset
      ensures stack == stack0 + Reversed(DirEntries(first, cur)) && start <= offset <= end
      ensures StackOk(stack, gs + Reversed(Dirs(cur)), m, all, done + Sib(cur), masked + SibMask(cur))
      ensures Written(o.en, rom[..], done + Sib(cur), masked + SibMask(cur))
      ensures Contiguous(done + Sib(cur), base, offset)
      ensures Contiguous(Coming(Reversed(gs + Reversed(Dirs(cur)))), offset, end)
      ensures Flat(cur) + Coming(Reversed(gs)) == Sib(cur) + Coming(Reversed(gs + Reversed(Dirs(cur))))
      ensures forall x | x in SibEntries(first, cur) :: x in m && x.dirOffset == m[x]
      ensures forall x | x in DirEntries(first, cur) :: x in SibEntries(first, cur)
      ensures forall x | x in all :: x.dirOffset == old(x.dirOffset) || (x in m && x.dirOffset == m[x])
      ensures Untouched(rom[..], old(rom[..]), start, offset)
      ensures totalNodes == old(totalNodes) + |Sib(cur)|
    {
      hide Written, Contiguous, HoldsAt, Splice, Placed, Reach, Linked, Flat, Sib, Coming, Reversed, StackOk,
           SibEntries, DirEntries, Dirs, SibMask;
      ghost var later := Coming(Reversed(gs + Reversed(Dirs(cur))));
      ComingAfterListing(cur, gs);
      ghost var e1 := ContiguousSplit(Sib(cur), later, start, end);
      SpreadEnds(later, e1, end);
      StackAfterListing(stack0, gs, first, cur, m, all, done, masked);
      DirCounts(first, cur, m);
      var dirStart := |stack0|;
      offset, stack := ListSiblings(first, start, stack0, cur, e1, m, all, done, base, masked);
      assert stack[..dirStart] == stack0 && stack[dirStart..] == DirEntries(first, cur);
      stack := ReverseFrom(stack, dirStart);
    }

    /** Pops a directory and points its inode at the current offset. */
    method PopDirectory(stack: seq<Entry>, offset: nat, ghost gs: seq<Forest>, ghost f: Forest, ghost end: nat,
                        ghost m: map<Entry, nat>, ghost all: set<Entry>, ghost done: seq<Rec>, ghost base: nat,
                        ghost masked: set<nat>)
      returns (ok: bool, entry: Entry)
      requires stack != [] && StackOk(stack, gs, m, all, done, masked) && Written(o.en, rom[..], done, masked)
      requires Contiguous(done, base, offset) && Contiguous(Coming(Reversed(gs)), offset, end)
      requires done + Coming(Reversed(gs)) == Flat(f)
      requires base % 4 == 0 && base <= offset <= end <= rom.Length
      requires forall x | x in stack :: x in m && x.dirOffset == m[x]
      modifies rom
      ensures entry == stack[|stack| - 1] && |gs| == |stack|
      ensures !ok ==> !OffsetsFit(f)
      ensures var g, gs' := gs[|gs| - 1], gs[..|gs| - 1];
              && Pending(entry, g, m, all)
              && Coming(Reversed(gs)) == Flat(g.child) + Coming(Reversed(gs'))
              && StackOk(stack[..|stack| - 1], gs', m, all, done, masked - {g.pos})
              && (ok ==> Written(o.en, rom[..], done, masked - {g.pos}))
      ensures Untouched(rom[..], old(rom[..]), base, offset)
    {
      hide Written, Contiguous, HoldsAt, Splice, Flat, Coming, Reversed, StackOk, Pending, OffsetsFit, PatchedWord;
      StackAfterPop(stack, gs, m, all, done, masked);
      ghost var g, gs' := gs[|gs| - 1], gs[..|gs| - 1];
      entry := stack[|stack| - 1];
      PendingFacts(entry, g, m, all);
      ComingAfterPop(gs);
      PopOffset(g, Coming(Reversed(gs')), offset, end);
      ContiguousAligned(done, base, offset);
      ghost var k :| 0 <= k < |done| && done[k] == Rec(g.ent, g.pos, g.at);
      RecordWithin(o.en, rom[..], done, masked, base, offset, k);
      if g.at < 4 * OFFSET_LIMIT {
        WrittenPatch(o.en, rom[..], done, masked, base, offset, k);
        ghost var word := Get32(o.en, rom[..][g.pos + 8..g.pos + 12]);
        SpliceFrame(rom[..], g.pos + 8, Put32(o.en, PatchedWord(o.en, word, g.at / 4)), base, offset);
      } else {
        TooFar(f, done, Coming(Reversed(gs)), k);
      }
      ok := SetDataOffset(entry, offset);
    }

    /** The directory pass.  On success the buffer holds every record of `f` in order, with only the
        data offsets still to be set; it fails only when some directory starts at 2^28 or beyond. */
    method WriteDirectoryStructure(first: Entry?, start: nat, ghost f: Forest, ghost end: nat,
                                   ghost m: map<Entry, nat>, ghost all: set<Entry>)
      returns (ok: bool, offset: nat, ghost masked: set<nat>)
      requires Placed(first, f, m) && Reach(first, f) <= all && Linked(f)
      requires Contiguous(Flat(f), start, end) && end <= rom.Length && start % 4 == 0
      modifies rom, this`totalNodes, all`dirOffset
      ensures !ok ==> !OffsetsFit(f)
      ensures ok ==> offset == end && Written(o.en, rom[..], Flat(f), masked) && masked <= DataRecs(Flat(f))
      ensures ok ==> forall x | x in Reach(first, f) :: x in m && x.dirOffset == m[x]
      ensures ok ==> start <= end && Untouched(rom[..], old(rom[..]), start, end)
      ensures ok ==> totalNodes == old(totalNodes) + |Flat(f)|
    {
      hide Written, Contiguous, HoldsAt, Splice, Placed, Reach, Linked, Flat, Sib, Coming, Reversed, StackOk, Pending,
           BelowPending, SibEntries, DirEntries, Dirs, SibMask, DataRecs, OffsetsFit, PatchedWord, Untouched;
      var entry := first;
      var stack: seq<Entry> := [];
      ok, offset, masked := true, start, {};
      ghost var cur, gs: seq<Forest>, done: seq<Rec> := f, [], [];
      Begin(o.en, rom[..], first, f, start, end, m, all);
      UntouchedRefl(rom[..], start, start);
      while true
        invariant Placed(entry, cur, m) && Reach(entry, cur) <= all && Linked(cur)
        invariant StackOk(stack, gs, m, all, done, masked)
        invariant Contiguous(done, start, offset) && Contiguous(Flat(cur) + Coming(Reversed(gs)), offset, end)
        invariant done + (Flat(cur) + Coming(Reversed(gs))) == Flat(f)
        invariant Written(o.en, rom[..], done, masked)
        invariant forall x | x in stack :: x in m && x.dirOffset == m[x]
        invariant forall x | x in Reach(first, f) ::
                    (x in m && x.dirOffset == m[x]) || x in Reach(entry, cur) || BelowPending(x, stack, gs)
        invariant start <= offset <= end
        invariant Untouched(rom[..], old(rom[..]), start, offset)
        invariant totalNodes == old(totalNodes) + |done|
        invariant cur.FNil? ==> stack == []
        decreases |Flat(f)| - |done|
      {
        StackLength(stack, gs, m, all, done, masked);
        ghost var es, gs1 := stack + Reversed(DirEntries(entry, cur)), gs + Reversed(Dirs(cur));
        forall x | x in Reach(first, f) && !(x in m && x.dirOffset == m[x])
          ensures x in SibEntries(entry, cur) || BelowPending(x, es, gs1)
        {
          CoverAfterListing(x, entry, cur, stack, gs, m, all);
        }
        ReversedIn(DirEntries(entry, cur));
        CurSize(entry, cur);
        ghost var at := offset;
        label Turn:
        offset, stack := ListDirectory(entry, offset, stack, cur, gs, end, m, all, done, start, masked);
        assert (done + Sib(cur)) + Coming(Reversed(gs1)) == Flat(f);
        gs, done, masked := gs1, done + Sib(cur), masked + SibMask(cur);
        UntouchedTrans(rom[..], old@Turn(rom[..]), old(rom[..]), start, at, offset, at);
        if |stack| == 0 {
          Finish(first, f, gs, m, all, done, masked, stack, offset, end);
          break;
        }
        StackLength(stack, gs, m, all, done, masked);
        label Pop:
        var dir: Entry;
        ok, dir := PopDirectory(stack, offset, gs, f, end, m, all, done, start, masked);
        if !ok {
          return;
        }
        ghost var g := gs[|gs| - 1];
        UntouchedTrans(rom[..], old@Pop(rom[..]), old(rom[..]), start, offset, offset, start);
        PendingFacts(dir, g, m, all);
        forall x | x in Reach(first, f) && !(x in m && x.dirOffset == m[x])
          ensures x in Reach(dir.child, g.child) || BelowPending(x, stack[..|stack| - 1], gs[..|gs| - 1])
        {
          BelowPop(x, stack, gs);
        }
        assert forall x | x in stack[..|stack| - 1] :: x in stack;
        stack, gs, masked := stack[..|stack| - 1], gs[..|gs| - 1], masked - {g.pos};
        entry := dir.child;
        cur := g.child;
      }
    }
  }

  lemma StackLength(es: seq<Entry>, gs: seq<Forest>, m: map<Entry, nat>, all: set<Entry>, done: seq<Rec>, masked: set<nat>)
    requires StackOk(es, gs, m, all, done, masked)
    ensures |es| == |gs|
    ensures forall x | x in es :: x in m
  {
    forall x | x in es ensures x in m {
      var k :| 0 <= k < |es| && es[k] == x;
      assert Pending(es[k], gs[k], m, all);
    }
  }

  lemma ReversedIn<T>(s: seq<T>)
    ensures forall x | x in Reversed(s) :: x in s
  {
  }

  lemma PendingFacts(e: Entry, g: Forest, m: map<Entry, nat>, all: set<Entry>)
    requires Pending(e, g, m, all)
    ensures g.FNode? && g.child.FNode? && g.at == g.child.pos && e in m && m[e] == g.pos
    ensures Placed(e.child, g.child, m) && Reach(e.child, g.child) <= all && Linked(g.child)
  {
  }

  lemma RecordWithin(en: Endian, s: seq<byte>, rs: seq<Rec>, masked: set<nat>, p: nat, end: nat, k: nat)
    requires Written(en, s, rs, masked) && Contiguous(rs, p, end) && k < |rs|
    ensures p <= rs[k].pos && rs[k].pos + INODE_SIZE <= end && rs[k].pos + INODE_SIZE <= |s|
  {
    ContiguousSpread(rs, p, end);
    assert HoldsAt(s, rs[k].pos, rs[k].ent.Record(en, Shown(rs[k], masked)));
  }

  lemma TooFar(f: Forest, done: seq<Rec>, later: seq<Rec>, k: nat)
    requires done + later == Flat(f) && k < |done| && done[k].at >= 4 * OFFSET_LIMIT
    ensures !OffsetsFit(f)
  {
    assert Flat(f)[k] == done[k] && Flat(f)[k] in Flat(f);
    if OffsetsFit(f) {
      OffsetsFitFlat(f);
      assert false;
    }
  }

  lemma Finish(first: Entry?, f: Forest, gs: seq<Forest>, m: map<Entry, nat>, all: set<Entry>, done: seq<Rec>,
               masked: set<nat>, stack: seq<Entry>, offset: nat, end: nat)
    requires StackOk(stack, gs, m, all, done, masked) && stack == []
    requires Contiguous(Coming(Reversed(gs)), offset, end)
    requires done + Coming(Reversed(gs)) == Flat(f)
    ensures done == Flat(f) && offset == end && masked <= DataRecs(done)
    ensures forall x: Entry :: !BelowPending(x, stack, gs)
  {
    assert gs == [];
    assert done + [] == done;
  }

  lemma CurSize(e: Entry?, f: Forest)
    ensures f.FNode? ==> |Sib(f)| > 0
    ensures f.FNil? ==> DirEntries(e, f) == []
  {
  }

  lemma Begin(en: Endian, s: seq<byte>, first: Entry?, f: Forest, start: nat, end: nat, m: map<Entry, nat>, all: set<Entry>)
    requires Contiguous(Flat(f), start, end)
    ensures start <= end && StackOk([], [], m, all, [], {}) && Written(en, s, [], {}) && Contiguous([], start, start)
    ensures Flat(f) + Coming(Reversed([])) == Flat(f) && [] + Flat(f) == Flat(f)
  {
    ContiguousSpread(Flat(f), start, end);
  }

  lemma SpliceNothing(s: seq<byte>, at: nat)
    requires at <= |s|
    ensures Splice(s, at, []) == s
  {
  }

  lemma ChunkRoom(en: Endian, z: Zlib, holes: bool, data: seq<byte>, offset: nat)
    ensures 4 * BlockCount(|data|) + |Blocks(z, holes, data)| <= |Chunk(en, z, holes, data, offset)|
  {
    PointersSize(en, z, holes, data, offset + 4 * BlockCount(|data|));
  }

  /** Pointers and blocks together, rounded up, are the chunk. */
  lemma ChunkDone(en: Endian, z: Zlib, holes: bool, s: seq<byte>, offset: nat, data: seq<byte>, end: nat)
    requires offset % 4 == 0 && ZeroFrom(s, offset) && offset + |Chunk(en, z, holes, data, offset)| <= |s|
    requires end == RoundUp4(offset + 4 * BlockCount(|data|) + |Blocks(z, holes, data)|)
    ensures end == offset + |Chunk(en, z, holes, data, offset)|
    ensures var c := offset + 4 * BlockCount(|data|);
            var p, b := Pointers(en, z, holes, data, c), Blocks(z, holes, data);
            && offset + |p| == c && c + |b| <= |s|
            && Splice(Splice(s, offset, p), c, b) == Splice(s, offset, Chunk(en, z, holes, data, offset))
            && ZeroFrom(Splice(Splice(s, offset, p), c, b), end)
  {
    hide Splice, ZeroFrom, Pointers, Blocks;
    var c := offset + 4 * BlockCount(|data|);
    var p, b := Pointers(en, z, holes, data, c), Blocks(z, holes, data);
    PointersSize(en, z, holes, data, c);
    SpliceExtend(s, offset, p, b);
    SplicePad(s, offset, p + b, RoundUp4(|p + b|) - |p + b|);
  }

  lemma SqueezeIs(z: Zlib, holes: bool, b: seq<byte>)
    ensures Squeeze(z, holes, b) == if holes && AllZero(b) then [] else z.compress(b)
  {
  }

  lemma Exhausted(en: Endian, z: Zlib, holes: bool, rest: seq<byte>, curr: nat)
    requires rest == []
    ensures Pointers(en, z, holes, rest, curr) == [] && Blocks(z, holes, rest) == []
  {
  }

  lemma KeptLess(s: seq<byte>, s0: seq<byte>, base: nat, dirEnd: nat, hi: nat, hi': nat)
    requires Kept(s, s0, base, dirEnd, hi) && dirEnd <= hi' <= hi
    ensures Kept(s, s0, base, dirEnd, hi')
  {
  }

  lemma StateFacts(en: Endian, s: seq<byte>, rs: seq<Rec>, base: nat, dirEnd: nat, masked: set<nat>, end: nat)
    requires DataState(en, s, rs, base, dirEnd, masked, end)
    ensures dirEnd <= end && end % 4 == 0 && ZeroFrom(s, end)
  {
  }

  /** What the data pass needs to know about one node. */
  lemma NodeFacts(o: Options, e: Entry, t: Tree, p: nat, q: nat, s: Store, f: Forest, m: map<Entry, nat>, rs: seq<Rec>)
    requires t.Node? && ValidTree(t) && f == Lay(o.z, o.holes, t, p, q, s) && OffsetsEven(f) && InRecs(f, rs)
    requires Placed(e, f, m)
    ensures f.FNode? && f.ent == t.ent == e.ent && Rec(t.ent, f.pos, f.at) in rs && f.at % 4 == 0
    ensures f.at >= 4 * OFFSET_LIMIT ==> !OffsetsFit(f)
    ensures !OffsetsFit(f.child) ==> !OffsetsFit(f)
    ensures t.ent.HasData() ==> f.at == DataAt(t.ent, s) && t.child.Nil?
    ensures (e.child != null) == t.child.Node? == f.child.FNode?
    ensures !t.ent.HasData() ==> StoreEnt(o.z, o.holes, t.ent, s) == s
    ensures ValidTree(t.child) && f.child == Lay(o.z, o.holes, t.child, q, q + Width(t.child), StoreEnt(o.z, o.holes, t.ent, s))
    ensures OffsetsEven(f.child) && InRecs(f.child, rs) && Placed(e.child, f.child, m)
    ensures e in Reach(e, f) && forall x | x in Reach(e.child, f.child) :: x in Reach(e, f)
  {
    hide StoreTree, Width, Total, Ent.RecordSize;
    match t.child
    case Nil =>
    case Node(_, _, _) =>
  }

  lemma {:induction false} StoreGrows(z: Zlib, holes: bool, t: Tree, s: Store)
    ensures s.end <= StoreTree(z, holes, t, s).end
  {
    match t
    case Nil =>
    case Node(e, c, n) =>
      StoreGrows(z, holes, c, StoreEnt(z, holes, e, s));
      StoreGrows(z, holes, n, StoreTree(z, holes, c, StoreEnt(z, holes, e, s)));
  }

  /** One step of the data pass, in every view of it. */
  lemma DataUnfold(o: Options, e: Entry, t: Tree, p: nat, q: nat, s: Store, f: Forest, m: map<Entry, nat>,
                   all: seq<Entry>, i: nat, j: nat, masked: set<nat>)
    requires ValidTree(t) && f == Lay(o.z, o.holes, t, p, q, s) && Placed(e, f, m) && Rep(e, t)
    requires i + Count(t) == j <= |all| && all[i..j] == Pre(e, t)
    ensures t.Node? && f.FNode? && t.ent == e.ent
    ensures var s1 := StoreEnt(o.z, o.holes, t.ent, s);
            var s2 := StoreTree(o.z, o.holes, t.child, s1);
            && f.next == Lay(o.z, o.holes, t.next, p + t.ent.RecordSize(), q + Total(t.child), s2)
            && StoreTree(o.z, o.holes, t, s) == StoreTree(o.z, o.holes, t.next, s2)
            && s.end <= s2.end <= StoreTree(o.z, o.holes, t, s).end
            && DataBytes(o.en, o.z, o.holes, t, s)
               == OwnData(o, t.ent, s) + DataBytes(o.en, o.z, o.holes, t.child, s1) + DataBytes(o.en, o.z, o.holes, t.next, s2)
            && |OwnData(o, t.ent, s) + DataBytes(o.en, o.z, o.holes, t.child, s1)| == s2.end - s.end
            && BlocksWritten(o.z, o.holes, t, s)
               == OwnBlocks(t.ent, s) + BlocksWritten(o.z, o.holes, t.child, s1) + BlocksWritten(o.z, o.holes, t.next, s2)
    ensures ValidTree(t.next) && Placed(e.next, f.next, m) && Rep(e.next, t.next) && Rep(e.child, t.child)
    ensures Count(t) == 1 + Count(t.child) + Count(t.next)
    ensures all[i] == e && all[i + 1..i + 1 + Count(t.child)] == Pre(e.child, t.child)
    ensures all[i + 1 + Count(t.child)..j] == Pre(e.next, t.next)
    ensures masked - (if t.ent.HasData() then {f.pos} else {}) - DataNodes(f.child) - DataNodes(f.next) == masked - DataNodes(f)
    ensures OffsetsFit(f) ==> OffsetsFit(f.next)
    ensures forall x | x in Reach(e.next, f.next) :: x in Reach(e, f)
    ensures OffsetsEven(f) ==> OffsetsEven(f.next)
    ensures forall rs :: InRecs(f, rs) ==> InRecs(f.next, rs)
  {
    hide Chunk, ChunkSize, DataAt, Width, Total, Ent.RecordSize, StoreEnt, Distinct;
    var s1 := StoreEnt(o.z, o.holes, t.ent, s);
    StoreGrowsEnt(o, t.ent, s);
    StoreGrows(o.z, o.holes, t.child, s1);
    StoreGrows(o.z, o.holes, t.next, StoreTree(o.z, o.holes, t.child, s1));
    DataLength(o.en, o.z, o.holes, t.child, s1);
    PreSlices(e, t, all, i, j);
  }

  lemma StoreGrowsEnt(o: Options, e: Ent, s: Store)
    ensures StoreEnt(o.z, o.holes, e, s).end == s.end + |OwnData(o, e, s)|
  {
    ChunkLength(o.en, o.z, o.holes, e.data, s.end);
  }

  lemma PreSlices(e: Entry, t: Tree, all: seq<Entry>, i: nat, j: nat)
    requires Rep(e, t) && i + Count(t) == j <= |all| && all[i..j] == Pre(e, t)
    ensures t.Node? && Rep(e.child, t.child) && Rep(e.next, t.next) && Count(t) == 1 + Count(t.child) + Count(t.next)
    ensures all[i] == e && all[i + 1..i + 1 + Count(t.child)] == Pre(e.child, t.child)
    ensures all[i + 1 + Count(t.child)..j] == Pre(e.next, t.next)
  {
    PreNode(e, t);
    hide Rep, Pre;
    ThreeSlices(all, i, e, Pre(e.child, t.child), Pre(e.next, t.next));
  }

  lemma PreNode(e: Entry, t: Tree)
    requires Rep(e, t)
    ensures t.Node? && Rep(e.child, t.child) && Rep(e.next, t.next) && Count(t) == 1 + Count(t.child) + Count(t.next)
    ensures Pre(e, t) == [e] + Pre(e.child, t.child) + Pre(e.next, t.next)
    ensures |Pre(e.child, t.child)| == Count(t.child) && |Pre(e.next, t.next)| == Count(t.next)
  {
  }

  lemma ThreeSlices(all: seq<Entry>, i: nat, e: Entry, a: seq<Entry>, b: seq<Entry>)
    requires i + 1 + |a| + |b| <= |all| && all[i..i + 1 + |a| + |b|] == [e] + a + b
    ensures all[i] == e && all[i + 1..i + 1 + |a|] == a && all[i + 1 + |a|..i + 1 + |a| + |b|] == b
  {
    var part := all[i..i + 1 + |a| + |b|];
    assert all[i] == part[0];
    forall x | 0 <= x < |a| ensures all[i + 1 + x] == a[x] {
      assert all[i + 1 + x] == part[1 + x];
    }
    forall x | 0 <= x < |b| ensures all[i + 1 + |a| + x] == b[x] {
      assert all[i + 1 + |a| + x] == part[1 + |a| + x];
    }
  }

  lemma RepNode(e: Entry, t: Tree)
    requires Rep(e, t)
    ensures t.Node?
  {
  }

  lemma DataEmpty(o: Options, t: Tree, f: Forest, s: Store, m: map<Entry, nat>, masked: set<nat>)
    requires Placed(null, f, m) && Rep(null, t)
    ensures t.Nil? && f.FNil? && Count(t) == 0 && StoreTree(o.z, o.holes, t, s) == s
    ensures DataNodes(f) == {} && masked - {} == masked && BlocksWritten(o.z, o.holes, t, s) == 0
    ensures DataBytes(o.en, o.z, o.holes, t, s) == []
  {
  }

  lemma PlacedHere(e: Entry, f: Forest, m: map<Entry, nat>)
    requires f.FNode? && Placed(e, f, m)
    ensures e in m && m[e] == f.pos
  {
  }

  lemma StateBounds(en: Endian, s: seq<byte>, rs: seq<Rec>, base: nat, dirEnd: nat, masked: set<nat>, end: nat)
    requires DataState(en, s, rs, base, dirEnd, masked, end)
    ensures base <= dirEnd <= end && end % 4 == 0
  {
    hide Written, ZeroFrom;
    SpreadEnds(rs, base, dirEnd);
  }

  lemma KeptRefl(s: seq<byte>, base: nat, dirEnd: nat, hi: nat)
    requires base <= dirEnd <= hi
    ensures Kept(s, s, base, dirEnd, hi)
  {
  }

  lemma Stored1(o: Options, all: seq<Entry>, k: nat, s: Store)
    requires Stored(all, k, s) && k < |all| && !all[k].ent.HasData()
    ensures Stored(all, k + 1, s)
  {
    StoredStep(o.z, o.holes, all, k, s);
  }

  /** Below an entry without children there is nothing to store. */
  lemma NoChild(o: Options, t: Tree, s: Store, f: Forest, masked: set<nat>)
    requires t.Node? && t.child.Nil? && f.FNode? && f.child.FNil?
    ensures var s1 := StoreEnt(o.z, o.holes, t.ent, s);
            && StoreTree(o.z, o.holes, t.child, s1) == s1 && Count(t.child) == 0
            && BlocksWritten(o.z, o.holes, t.child, s1) == 0 && DataNodes(f.child) == {}
            && OwnData(o, t.ent, s) + DataBytes(o.en, o.z, o.holes, t.child, s1) == OwnData(o, t.ent, s)
    ensures masked - {} == masked
    ensures OwnBlocks(t.ent, s) == if t.ent.HasData() && t.ent.data !in s.where then BlockCount(|t.ent.data|) else 0
  {
  }

  lemma OwnHeld(o: Options, e: Ent, s: Store, rom: seq<byte>)
    requires s.end <= |rom|
    requires e.HasData() && e.data !in s.where ==> HoldsAt(rom, s.end, Chunk(o.en, o.z, o.holes, e.data, s.end))
    ensures HoldsAt(rom, s.end, OwnData(o, e, s))
  {
    hide Chunk;
    HoldsNothing(rom, s.end);
  }

  lemma NoData(o: Options, t: Tree, s: Store, masked: set<nat>)
    requires t.Node? && !t.ent.HasData()
    ensures OwnData(o, t.ent, s) == [] && OwnBlocks(t.ent, s) == 0 && StoreEnt(o.z, o.holes, t.ent, s) == s
    ensures masked - {} == masked
    ensures forall b: seq<byte> :: OwnData(o, t.ent, s) + b == b
  {
  }

  /** Reverses the part of the stack pushed for one directory, swapping from both ends. */
  method ReverseFrom(stack0: seq<Entry>, dirStart: nat) returns (stack: seq<Entry>)
    requires dirStart <= |stack0|
    ensures stack == stack0[..dirStart] + Reversed(stack0[dirStart..])
  {
    stack := stack0;
    var lo, hi := dirStart, |stack| - 1;
    while lo < hi
      invariant |stack| == |stack0| && dirStart <= lo && lo + hi == dirStart + |stack| - 1 && lo <= hi + 1
      invariant forall i :: 0 <= i < dirStart ==> stack[i] == stack0[i]
      invariant forall i :: dirStart <= i < lo || hi < i < |stack| ==> stack[i] == stack0[dirStart + |stack0| - 1 - i]
      invariant forall i :: lo <= i <= hi ==> stack[i] == stack0[i]
    {
      stack := stack[lo := stack[hi]][hi := stack[lo]];
      lo, hi := lo + 1, hi - 1;
    }
    var part := stack0[dirStart..];
    forall i | 0 <= i < |stack| ensures stack[i] == (stack0[..dirStart] + Reversed(part))[i] {
      if i >= dirStart {
        assert Reversed(part)[i - dirStart] == part[|part| - 1 - (i - dirStart)];
      }
    }
  }

  /** One step down the list of siblings, in every view of it. */
  lemma ListUnfold(e: Entry, f: Forest, m: map<Entry, nat>, all: set<Entry>)
    requires Placed(e, f, m) && Reach(e, f) <= all && Linked(f)
    ensures f.FNode? && e.ent == f.ent && e in m && m[e] == f.pos && e in all
    ensures (e.child != null) == f.child.FNode?
    ensures Placed(e.next, f.next, m) && Reach(e.next, f.next) <= all && Linked(f.next)
    ensures Sib(f) == [Rec(f.ent, f.pos, f.at)] + Sib(f.next)
    ensures SibEntries(e, f) == [e] + SibEntries(e.next, f.next)
    ensures SibMask(f) == (if f.ent.HasData() || f.child.FNode? then {f.pos} else {}) + SibMask(f.next)
    ensures DirEntries(e, f) == (if e.child != null then [e] else []) + DirEntries(e.next, f.next)
  {
    match f.child
    case FNil =>
    case FNode(_, _, _, _, _) =>
  }

  lemma ListEmpty(f: Forest, m: map<Entry, nat>)
    requires Placed(null, f, m)
    ensures f.FNil? && Sib(f) == [] && SibMask(f) == {} && SibEntries(null, f) == [] && DirEntries(null, f) == []
  {
  }

  lemma SpreadEnds(rs: seq<Rec>, p: nat, end: nat)
    requires Contiguous(rs, p, end)
    ensures p <= end
  {
    ContiguousSpread(rs, p, end);
  }

  /** The records after one turn of the inner loop. */
  lemma ListStep(en: Endian, s: seq<byte>, f: Forest, offset: nat, end: nat, done: seq<Rec>, base: nat, mask: set<nat>)
    requires f.FNode? && Linked(f)
    requires Contiguous(Sib(f), offset, end) && end <= |s|
    requires Contiguous(done, base, offset) && Written(en, s, done, mask)
    ensures f.pos == offset && offset + f.ent.RecordSize() <= end
    ensures Contiguous(Sib(f.next), offset + f.ent.RecordSize(), end)
    ensures var done' := done + [Rec(f.ent, f.pos, f.at)];
            var mask' := mask + if f.ent.HasData() || f.child.FNode? then {f.pos} else {};
            && Contiguous(done', base, offset + f.ent.RecordSize())
            && Written(en, Splice(s, offset, f.ent.Record(en, 0)), done', mask')
            && done' + Sib(f.next) == done + Sib(f)
  {
    hide Written, HoldsAt, Splice, Contiguous, Ent.Record;
    var r := Rec(f.ent, f.pos, f.at);
    assert Sib(f) == [r] + Sib(f.next) && Sib(f)[1..] == Sib(f.next);
    assert (done + [r]) + Sib(f.next) == done + Sib(f);
    ContiguousHead(Sib(f), offset, end);
    SpreadEnds(Sib(f.next), offset + f.ent.RecordSize(), end);
    if f.ent.HasData() || f.child.FNode? {
      WrittenMask(en, s, done, mask, base, offset, offset);
      WrittenAppend(en, s, done, mask + {offset}, base, offset, Rec(f.ent, f.pos, f.at));
    } else {
      WrittenAppend(en, s, done, mask, base, offset, Rec(f.ent, f.pos, f.at));
      assert mask + {} == mask;
    }
  }
}
