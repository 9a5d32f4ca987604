/** The directory structure as a flat list of records, and how single writes change an image. */
module CramfsRecords {
  import opened Bytes
  import opened CramfsFormat
  import opened CramfsLayout
  import opened CramfsImage

  /** One record: its entry, its own offset, and the byte offset its inode carries. */
  datatype Rec = Rec(ent: Ent, pos: nat, at: nat)

  /** The records of one directory, in order. */
  function Sib(f: Forest): seq<Rec> {
    match f
    case FNil => []
    case FNode(e, pos, at, _, n) => [Rec(e, pos, at)] + Sib(n)
  }

  function Desc(f: Forest): seq<Rec>
    decreases f, 0
  {
    match f
    case FNil => []
    case FNode(_, _, _, c, n) => Flat(c) + Desc(n)
  }

  /** All records below `f`, in the order they appear in the image. */
  function Flat(f: Forest): seq<Rec>
    decreases f, 1
  {
    Sib(f) + Desc(f)
  }

  function RecBytes(en: Endian, rs: seq<Rec>): seq<byte> {
    if rs == [] then [] else rs[0].ent.Record(en, rs[0].at) + RecBytes(en, rs[1..])
  }

  lemma RecBytesCons(en: Endian, r: Rec, rs: seq<Rec>)
    ensures RecBytes(en, []) == []
    ensures RecBytes(en, [r] + rs) == r.ent.Record(en, r.at) + RecBytes(en, rs)
  {
    assert ([r] + rs)[1..] == rs;
  }

  lemma {:induction false} RecBytesConcat(en: Endian, a: seq<Rec>, b: seq<Rec>)
    ensures RecBytes(en, a + b) == RecBytes(en, a) + RecBytes(en, b)
  {
    hide RecBytes;
    if a == [] {
      RecBytesCons(en, Rec(Ent([], 0, 0, 0, 0, []), 0, 0), []);
      assert a + b == b;
    } else {
      RecBytesConcat(en, a[1..], b);
      RecBytesCons(en, a[0], a[1..] + b);
      RecBytesCons(en, a[0], a[1..]);
      assert a + b == [a[0]] + (a[1..] + b) && a == [a[0]] + a[1..];
    }
  }

  lemma {:induction false} FlatBytes(en: Endian, f: Forest)
    ensures RecBytes(en, Sib(f)) == Siblings(en, f)
    ensures RecBytes(en, Desc(f)) == Descend(en, f)
    ensures RecBytes(en, Flat(f)) == DirBytes(en, f)
  {
    match f
    case FNil =>
    case FNode(e, pos, at, c, n) =>
      FlatBytes(en, c);
      FlatBytes(en, n);
      RecBytesConcat(en, [Rec(e, pos, at)], Sib(n));
      RecBytesConcat(en, Flat(c), Desc(n));
      RecBytesConcat(en, Sib(f), Desc(f));
  }

  /** The records follow each other without gaps from `p` to `end`. */
  predicate Contiguous(rs: seq<Rec>, p: nat, end: nat) {
    if rs == [] then p == end
    else rs[0].pos == p && Contiguous(rs[1..], p + rs[0].ent.RecordSize(), end)
  }

  lemma ContiguousHead(rs: seq<Rec>, p: nat, end: nat)
    requires Contiguous(rs, p, end)
    ensures rs == [] ==> p == end
    ensures rs != [] ==> rs[0].pos == p && Contiguous(rs[1..], p + rs[0].ent.RecordSize(), end)
  {
  }

  lemma {:induction false} ContiguousConcat(a: seq<Rec>, b: seq<Rec>, p: nat, m: nat, end: nat)
    requires Contiguous(a, p, m) && Contiguous(b, m, end)
    ensures Contiguous(a + b, p, end)
  {
    if a == [] {
      assert a + b == b;
    } else {
      ContiguousConcat(a[1..], b, p + a[0].ent.RecordSize(), m, end);
      assert (a + b)[1..] == a[1..] + b;
    }
  }

  lemma ContiguousNode(f: Forest, p: nat, e1: nat, q: nat, m: nat, end: nat)
    requires f.FNode? && f.pos == p
    requires Contiguous(Sib(f.next), p + f.ent.RecordSize(), e1)
    requires Contiguous(Flat(f.child), q, m) && Contiguous(Desc(f.next), m, end)
    ensures Contiguous(Sib(f), p, e1) && Contiguous(Desc(f), q, end)
  {
    assert Sib(f)[1..] == Sib(f.next);
    ContiguousConcat(Flat(f.child), Desc(f.next), q, m, end);
  }

  lemma {:induction false} FlatCount(f: Forest)
    ensures |Flat(f)| == Count(Erase(f)) && |Sib(f)| + |Desc(f)| == Count(Erase(f))
  {
    match f
    case FNil =>
    case FNode(_, _, _, c, n) => FlatCount(c); FlatCount(n);
  }

  lemma {:induction false} LayContiguous(z: Zlib, holes: bool, t: Tree, p: nat, q: nat, s: Store)
    ensures Contiguous(Sib(Lay(z, holes, t, p, q, s)), p, p + Width(t))
    ensures Contiguous(Desc(Lay(z, holes, t, p, q, s)), q, q + Below(t))
    ensures q == p + Width(t) ==> Contiguous(Flat(Lay(z, holes, t, p, q, s)), p, p + Total(t))
  {
    hide StoreEnt, StoreTree, DataAt, Ent.RecordSize, Contiguous, Sib, Desc;
    var f := Lay(z, holes, t, p, q, s);
    TotalSplits(t);
    match t
    case Nil => ContiguousNil(p); ContiguousNil(q);
    case Node(e, c, n) =>
      var s1 := StoreEnt(z, holes, e, s);
      LayContiguous(z, holes, c, q, q + Width(c), s1);
      LayContiguous(z, holes, n, p + e.RecordSize(), q + Total(c), StoreTree(z, holes, c, s1));
      ContiguousNode(f, p, p + Width(t), q, q + Total(c), q + Below(t));
      if q == p + Width(t) {
        ContiguousConcat(Sib(f), Desc(f), p, q, q + Below(t));
      }
  }

  lemma ContiguousNil(p: nat)
    ensures Contiguous(Sib(FNil), p, p) && Contiguous(Desc(FNil), p, p) && Contiguous(Flat(FNil), p, p)
  {
  }

  /** Records of a contiguous list do not overlap and stay within its bounds. */
  lemma {:induction false} ContiguousSpread(rs: seq<Rec>, p: nat, end: nat)
    requires Contiguous(rs, p, end)
    ensures p <= end
    ensures forall i :: 0 <= i < |rs| ==> p <= rs[i].pos && rs[i].pos + rs[i].ent.RecordSize() <= end
    ensures forall i, j :: 0 <= i < j < |rs| ==> rs[i].pos + rs[i].ent.RecordSize() <= rs[j].pos
  {
    if rs != [] {
      var rest, p1 := rs[1..], p + rs[0].ent.RecordSize();
      ContiguousSpread(rest, p1, end);
      assert forall i {:trigger rs[i]} :: 0 < i < |rs| ==> rs[i] == rest[i - 1];
    }
  }

  lemma {:induction false} ContiguousSplit(a: seq<Rec>, b: seq<Rec>, p: nat, end: nat) returns (m: nat)
    requires Contiguous(a + b, p, end)
    ensures Contiguous(a, p, m) && Contiguous(b, m, end)
  {
    if a == [] {
      assert a + b == b;
      m := p;
    } else {
      assert (a + b)[1..] == a[1..] + b;
      m := ContiguousSplit(a[1..], b, p + a[0].ent.RecordSize(), end);
    }
  }

  lemma {:induction false} ContiguousAligned(rs: seq<Rec>, p: nat, end: nat)
    requires Contiguous(rs, p, end) && p % 4 == 0
    ensures end % 4 == 0
  {
    if rs != [] {
      Aligned(p, rs[0].ent.RecordSize());
      ContiguousAligned(rs[1..], p + rs[0].ent.RecordSize(), end);
    }
  }

  /** Offsets of the records that carry data. */
  ghost function DataRecs(rs: seq<Rec>): set<nat> {
    set r | r in rs && r.ent.HasData() :: r.pos
  }

  /** A non-empty directory's inode points at its first child. */
  predicate Linked(f: Forest) {
    match f
    case FNil => true
    case FNode(e, _, at, c, n) =>
      && (c.FNode? ==> at == c.pos && !e.HasData())
      && (c.FNil? && !e.HasData() ==> at == 0)
      && Linked(c) && Linked(n)
  }

  lemma {:induction false} LayLinked(z: Zlib, holes: bool, t: Tree, p: nat, q: nat, s: Store)
    requires ValidTree(t)
    ensures Linked(Lay(z, holes, t, p, q, s))
  {
    hide StoreEnt, DataAt, StoreTree;
    match t
    case Nil =>
    case Node(e, c, n) =>
      var s1 := StoreEnt(z, holes, e, s);
      LayLinked(z, holes, c, q, q + Width(c), s1);
      LayLinked(z, holes, n, p + e.RecordSize(), q + Total(c), StoreTree(z, holes, c, s1));
  }

  /** Every node of `f` is one of the records `rs`. */
  ghost predicate InRecs(f: Forest, rs: seq<Rec>) {
    match f
    case FNil => true
    case FNode(e, pos, at, c, n) => Rec(e, pos, at) in rs && InRecs(c, rs) && InRecs(n, rs)
  }

  lemma {:induction false} FlatInRecs(f: Forest, rs: seq<Rec>)
    requires forall r | r in Flat(f) :: r in rs
    ensures InRecs(f, rs)
  {
    match f
    case FNil =>
    case FNode(e, pos, at, c, n) =>
      assert forall r | r in Sib(n) :: r in Sib(f) && r in Flat(f);
      assert forall r | r in Desc(n) :: r in Desc(f) && r in Flat(f);
      assert forall r | r in Flat(c) :: r in Desc(f) && r in Flat(f);
      assert Rec(e, pos, at) == Sib(f)[0] && Sib(f)[0] in Flat(f);
      FlatInRecs(c, rs);
      FlatInRecs(n, rs);
  }

  lemma {:induction false} OffsetsFitRecs(f: Forest, rs: seq<Rec>)
    requires InRecs(f, rs) && forall r | r in rs :: r.at < 4 * OFFSET_LIMIT
    ensures OffsetsFit(f)
  {
    match f
    case FNil =>
    case FNode(e, pos, at, c, n) => OffsetsFitRecs(c, rs); OffsetsFitRecs(n, rs);
  }

  lemma {:induction false} OffsetsFitFlat(f: Forest)
    requires OffsetsFit(f)
    ensures forall r | r in Flat(f) :: r.at < 4 * OFFSET_LIMIT
    ensures forall r | r in Sib(f) :: r.at < 4 * OFFSET_LIMIT
    ensures forall r | r in Desc(f) :: r.at < 4 * OFFSET_LIMIT
  {
    match f
    case FNil =>
    case FNode(e, pos, at, c, n) => OffsetsFitFlat(c); OffsetsFitFlat(n);
  }

  // ------------------------------------------------------------ writes

  /** `s` with the bytes `b` stored at `at`. */
  function Splice(s: seq<byte>, at: nat, b: seq<byte>): (r: seq<byte>)
    requires at + |b| <= |s|
    ensures |r| == |s|
  {
    s[..at] + b + s[at + |b|..]
  }

  lemma SpliceHolds(s: seq<byte>, at: nat, b: seq<byte>, pos: nat, t: seq<byte>)
    requires at + |b| <= |s|
    ensures HoldsAt(Splice(s, at, b), at, b)
    ensures HoldsAt(s, pos, t) && (pos + |t| <= at || at + |b| <= pos) ==> HoldsAt(Splice(s, at, b), pos, t)
  {
    var r := Splice(s, at, b);
    assert r[at..at + |b|] == b;
    if HoldsAt(s, pos, t) && (pos + |t| <= at || at + |b| <= pos) {
      forall i | 0 <= i < |t| ensures r[pos + i] == t[i] {
        assert s[pos..pos + |t|][i] == t[i];
      }
      assert r[pos..pos + |t|] == t;
    }
  }

  /** The record's inode offset as it stands while the positions in `masked` are still to be filled in. */
  function Shown(r: Rec, masked: set<nat>): nat {
    if r.pos in masked then 0 else r.at
  }

  /** The records `rs` are in the image, with the offsets at the masked positions not yet set;
      every offset that is set was accepted by `set_data_offset`. */
  ghost predicate Written(en: Endian, s: seq<byte>, rs: seq<Rec>, masked: set<nat>) {
    && (forall i :: 0 <= i < |rs| ==>
          HoldsAt(s, rs[i].pos, rs[i].ent.Record(en, Shown(rs[i], masked))))
    && (forall i :: 0 <= i < |rs| ==> rs[i].pos in masked || rs[i].at < 4 * OFFSET_LIMIT)
  }

  /** A write outside the records leaves them as they were. */
  lemma WrittenFrame(en: Endian, s: seq<byte>, rs: seq<Rec>, masked: set<nat>, p: nat, end: nat,
                     at: nat, b: seq<byte>)
    requires Written(en, s, rs, masked) && Contiguous(rs, p, end)
    requires at + |b| <= |s| && (at + |b| <= p || end <= at)
    ensures Written(en, Splice(s, at, b), rs, masked)
  {
    hide HoldsAt, Splice;
    ContiguousSpread(rs, p, end);
    forall i | 0 <= i < |rs|
      ensures HoldsAt(Splice(s, at, b), rs[i].pos, rs[i].ent.Record(en, Shown(rs[i], masked)))
    {
      SpliceHolds(s, at, b, rs[i].pos, rs[i].ent.Record(en, Shown(rs[i], masked)));
    }
  }

  /** Appending one record whose offset is still to be set, or is zero for good. */
  lemma WrittenAppend(en: Endian, s: seq<byte>, rs: seq<Rec>, masked: set<nat>, p: nat, end: nat, r: Rec)
    requires Written(en, s, rs, masked) && Contiguous(rs, p, end) && r.pos == end
    requires r.pos in masked || r.at == 0
    requires end + r.ent.RecordSize() <= |s|
    ensures Written(en, Splice(s, end, r.ent.Record(en, 0)), rs + [r], masked)
    ensures Contiguous(rs + [r], p, end + r.ent.RecordSize())
  {
    hide HoldsAt, Splice;
    WrittenFrame(en, s, rs, masked, p, end, end, r.ent.Record(en, 0));
    SpliceHolds(s, end, r.ent.Record(en, 0), 0, []);
    ContiguousConcat(rs, [r], p, end, end + r.ent.RecordSize());
  }

  /** Masking a position that is not among the records changes nothing. */
  lemma WrittenMask(en: Endian, s: seq<byte>, rs: seq<Rec>, masked: set<nat>, p: nat, end: nat, d: nat)
    requires Written(en, s, rs, masked) && Contiguous(rs, p, end) && d >= end
    requires forall i :: 0 <= i < |rs| ==> rs[i].ent.RecordSize() > 0
    ensures Written(en, s, rs, masked + {d})
  {
    hide HoldsAt, Contiguous, Ent.Record, Ent.RecordSize;
    ContiguousSpread(rs, p, end);
    forall i | 0 <= i < |rs| ensures rs[i].pos != d && Shown(rs[i], masked + {d}) == Shown(rs[i], masked) {
    }
  }

  /** Setting `inode->offset` in place turns the record into the one with the new offset. */
  lemma PatchRecord(en: Endian, s: seq<byte>, e: Ent, pos: nat, at0: nat, at: nat)
    requires at < 4 * OFFSET_LIMIT
    requires HoldsAt(s, pos, e.Record(en, at0))
    ensures pos + 12 <= |s|
    ensures var word := Get32(en, s[pos + 8..pos + 12]);
            HoldsAt(Splice(s, pos + 8, Put32(en, PatchedWord(en, word, at / 4))), pos, e.Record(en, at))
  {
    hide HoldsAt, Packed, NameWord, PatchedWord, Get32, Put32;
    var i := e.InodeAt(at0);
    var head := Put32(en, Packed(en, i.mode, 0x1_0000, i.uid, 0x1_0000))
                + Put32(en, Packed(en, i.size, 0x100_0000, i.gid, 0x100));
    var w0, w1 := NameWord(en, i.namelen, at0 / 4), NameWord(en, i.namelen, at / 4);
    PatchNameWord(en, i.namelen, at0 / 4, at / 4);
    assert e.Record(en, at0) == head + Put32(en, w0) + e.PaddedName();
    assert e.Record(en, at) == head + Put32(en, w1) + e.PaddedName();
    HoldsAtSplit3(s, pos, head, Put32(en, w0), e.PaddedName());
    HoldsSlice(s, pos + 8, Put32(en, w0));
    GetPut32(en, w0);
    SpliceHolds(s, pos + 8, Put32(en, w1), pos, head);
    SpliceHolds(s, pos + 8, Put32(en, w1), pos + 12, e.PaddedName());
    HoldsAtSplit3(Splice(s, pos + 8, Put32(en, w1)), pos, head, Put32(en, w1), e.PaddedName());
  }

  lemma HoldsSlice(s: seq<byte>, pos: nat, t: seq<byte>)
    requires HoldsAt(s, pos, t)
    ensures pos + |t| <= |s| && s[pos..pos + |t|] == t
  {
  }

  /** One call of `set_data_offset` on the record at `d`. */
  lemma WrittenPatch(en: Endian, s: seq<byte>, rs: seq<Rec>, masked: set<nat>, p: nat, end: nat, k: nat)
    requires Written(en, s, rs, masked) && Contiguous(rs, p, end) && k < |rs|
    requires rs[k].at < 4 * OFFSET_LIMIT
    ensures rs[k].pos + 12 <= |s| && p <= rs[k].pos && rs[k].pos + 12 <= end
    ensures var d := rs[k].pos;
            var word := Get32(en, s[d + 8..d + 12]);
            Written(en, Splice(s, d + 8, Put32(en, PatchedWord(en, word, rs[k].at / 4))), rs, masked - {d})
  {
    hide HoldsAt, Splice, PatchedWord, Contiguous, Get32, Put32, Ent.Record;
    ContiguousSpread(rs, p, end);
    var d := rs[k].pos;
    PatchRecord(en, s, rs[k].ent, d, Shown(rs[k], masked), rs[k].at);
    var word := Get32(en, s[d + 8..d + 12]);
    var b := Put32(en, PatchedWord(en, word, rs[k].at / 4));
    forall i | 0 <= i < |rs|
      ensures HoldsAt(Splice(s, d + 8, b), rs[i].pos, rs[i].ent.Record(en, Shown(rs[i], masked - {d})))
    {
      if i != k {
        assert rs[i].pos + rs[i].ent.RecordSize() <= d || d + 12 <= rs[i].pos;
        SpliceHolds(s, d + 8, b, rs[i].pos, rs[i].ent.Record(en, Shown(rs[i], masked)));
      }
    }
  }

  /** When no position is masked any more, the image holds the finished directory structure. */
  lemma {:induction false} WrittenDone(en: Endian, s: seq<byte>, rs: seq<Rec>, p: nat, end: nat)
    requires Written(en, s, rs, {}) && Contiguous(rs, p, end) && p <= |s|
    ensures HoldsAt(s, p, RecBytes(en, rs))
  {
    hide HoldsAt;
    if rs == [] {
      HoldsNothing(s, p);
    } else {
      assert Written(en, s, rs[1..], {}) by {
        assert forall i {:trigger rs[1..][i]} :: 0 <= i < |rs| - 1 ==> rs[1..][i] == rs[i + 1];
      }
      HoldsWithin(s, p, rs[0].ent.Record(en, rs[0].at));
      WrittenDone(en, s, rs[1..], p + rs[0].ent.RecordSize(), end);
      HoldsAtSplit(s, p, rs[0].ent.Record(en, rs[0].at), RecBytes(en, rs[1..]));
    }
  }

  lemma HoldsNothing(s: seq<byte>, p: nat)
    requires p <= |s|
    ensures HoldsAt(s, p, [])
  {
  }

  lemma HoldsWithin(s: seq<byte>, p: nat, t: seq<byte>)
    requires HoldsAt(s, p, t)
    ensures p + |t| <= |s|
  {
  }
}
