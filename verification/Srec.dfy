/** S-record text and the binary records that srec2bin makes of it. */
module Srec {
  import opened Bytes

  const WORD_LIMIT := 0x1_0000_0000

  /** What the lines ask for: a byte at an address, or a program start. */
  datatype Op = Out(address: nat, data: byte) | Start(address: nat)

  datatype Record = Record(address: nat, data: seq<byte>)

  /** Everything written so far: bytes before the first record, then the records; the last one is still open. */
  datatype Machine = Machine(stray: seq<byte>, recs: seq<Record>, current: nat)

  function Initial(): Machine { Machine([], [], WORD_LIMIT - 1) }

  /** The address after `a`, which wraps around. */
  function After(a: nat): nat { (a + 1) % WORD_LIMIT }

  /** One more byte in the last record, or in front of them all. */
  function Append(m: Machine, d: byte): Machine {
    if m.recs == [] then m.(stray := m.stray + [d])
    else
      var k := |m.recs| - 1;
      m.(recs := m.recs[..k] + [m.recs[k].(data := m.recs[k].data + [d])])
  }

  function Step(m: Machine, op: Op): Machine {
    var ready := if op.address != After(m.current) then m.(recs := m.recs + [Record(op.address, [])]) else m;
    var placed := ready.(current := op.address);
    if op.Out? then Append(placed, op.data) else placed
  }

  function Run(ops: seq<Op>): Machine {
    if ops == [] then Initial() else Step(Run(ops[..|ops| - 1]), ops[|ops| - 1])
  }

  // ------------------------------------------------------------ the file

  function Sum(data: seq<byte>): nat {
    if data == [] then 0 else Sum(data[..|data| - 1]) + data[|data| - 1] as nat
  }

  function CheckWord(r: Record): (w: nat)
    ensures w < WORD_LIMIT
  {
    (-(|r.data| + r.address + Sum(r.data))) % WORD_LIMIT
  }

  function RecordBytes(r: Record): (b: seq<byte>)
    ensures |b| == 12 + |r.data|
  {
    Le32(|r.data|) + Le32(r.address) + r.data + Le32(CheckWord(r))
  }

  function RecordsBytes(rs: seq<Record>): seq<byte> {
    if rs == [] then [] else RecordsBytes(rs[..|rs| - 1]) + RecordBytes(rs[|rs| - 1])
  }

  function FileBytes(tag: nat, m: Machine): seq<byte> {
    Le32(tag) + m.stray + RecordsBytes(m.recs)
  }

  /** A loader's view: records one after the other, each with length, address, data and checksum adding up to
      zero. */
  function ReadRecords(b: seq<byte>): Option<seq<Record>>
    decreases |b|
  {
    if b == [] then Some([])
    else if |b| < 12 || |b| < 12 + GetLe32(b[0..4]) then None
    else
      var n := GetLe32(b[0..4]);
      var r := Record(GetLe32(b[4..8]), b[8..8 + n]);
      if (n + r.address + Sum(r.data) + GetLe32(b[8 + n..12 + n])) % WORD_LIMIT != 0 then None
      else
        match ReadRecords(b[12 + n..])
        case None => None
        case Some(rs) => Some([r] + rs)
  }

  /** What a record asks for; a record without data is the program start. */
  function Expand(r: Record): (ops: seq<Op>)
    ensures |ops| > 0
  {
    if r.data == [] then [Start(r.address)]
    else seq(|r.data|, i requires 0 <= i < |r.data| => Out((r.address + i) % WORD_LIMIT, r.data[i]))
  }

  function ExpandAll(rs: seq<Record>): seq<Op> {
    if rs == [] then [] else ExpandAll(rs[..|rs| - 1]) + Expand(rs[|rs| - 1])
  }

  predicate Addresses(ops: seq<Op>) { forall i :: 0 <= i < |ops| ==> ops[i].address < WORD_LIMIT }

  predicate Fits(rs: seq<Record>) {
    forall i :: 0 <= i < |rs| ==> rs[i].address < WORD_LIMIT && |rs[i].data| < WORD_LIMIT
  }

  // ------------------------------------------------------------ reading back

  /** The checksum makes the whole record add up to zero. */
  lemma ChecksumCancels(r: Record)
    ensures (|r.data| + r.address + Sum(r.data) + CheckWord(r)) % WORD_LIMIT == 0
  {
    var x := |r.data| + r.address + Sum(r.data);
    assert -x == WORD_LIMIT * ((-x) / WORD_LIMIT) + (-x) % WORD_LIMIT;
  }

  lemma RecordParts(r: Record, rest: seq<byte>)
    ensures var b := RecordBytes(r) + rest;
            var n := |r.data|;
            && b[0..4] == Le32(n) && b[4..8] == Le32(r.address) && b[8..8 + n] == r.data
            && b[8 + n..12 + n] == Le32(CheckWord(r)) && b[12 + n..] == rest
  {
    hide Le32, CheckWord;
  }

  /** ReadRecords on bytes whose first fields are known. */
  lemma ReadFields(b: seq<byte>, r: Record, c: nat)
    requires |b| >= 12 + |r.data|
    requires GetLe32(b[0..4]) == |r.data| && GetLe32(b[4..8]) == r.address && b[8..8 + |r.data|] == r.data
    requires GetLe32(b[8 + |r.data|..12 + |r.data|]) == c && (|r.data| + r.address + Sum(r.data) + c) % WORD_LIMIT == 0
    ensures ReadRecords(b)
         == match ReadRecords(b[12 + |r.data|..]) case None => None case Some(rs) => Some([r] + rs)
  {
    hide GetLe32, Sum;
  }

  lemma ReadRecord(r: Record, rest: seq<byte>)
    requires r.address < WORD_LIMIT && |r.data| < WORD_LIMIT
    ensures ReadRecords(RecordBytes(r) + rest)
         == match ReadRecords(rest) case None => None case Some(rs) => Some([r] + rs)
  {
    hide GetLe32, Le32, CheckWord, RecordBytes, Sum, ReadRecords;
    RecordParts(r, rest);
    SmallWord(|r.data|);
    SmallWord(r.address);
    SmallWord(CheckWord(r));
    ChecksumCancels(r);
    ReadFields(RecordBytes(r) + rest, r, CheckWord(r));
  }

  lemma RecordsStep(rs: seq<Record>)
    ensures RecordsBytes(rs) == if rs == [] then [] else RecordsBytes(rs[..|rs| - 1]) + RecordBytes(rs[|rs| - 1])
  {
  }

  lemma {:induction false} ReadRecordsBefore(rs: seq<Record>, rest: seq<byte>)
    requires Fits(rs)
    ensures ReadRecords(RecordsBytes(rs) + rest)
         == match ReadRecords(rest) case None => None case Some(more) => Some(rs + more)
    decreases |rs|
  {
    hide ReadRecords, RecordBytes, GetLe32, Le32, CheckWord, Sum, RecordsBytes;
    RecordsStep(rs);
    if rs == [] {
      assert RecordsBytes(rs) + rest == rest;
      assert forall more: seq<Record> :: rs + more == more;
    } else {
      var k := |rs| - 1;
      assert RecordsBytes(rs) + rest == RecordsBytes(rs[..k]) + (RecordBytes(rs[k]) + rest);
      ReadRecordsBefore(rs[..k], RecordBytes(rs[k]) + rest);
      ReadRecord(rs[k], rest);
      assert forall more: seq<Record> :: rs[..k] + ([rs[k]] + more) == rs + more;
    }
  }

  lemma RecordsReadBack(rs: seq<Record>)
    requires Fits(rs)
    ensures ReadRecords(RecordsBytes(rs)) == Some(rs)
  {
    hide Fits;
    ReadRecordsBefore(rs, []);
    assert RecordsBytes(rs) + [] == RecordsBytes(rs);
    assert ReadRecords([]) == Some([]) && rs + [] == rs;
  }

  // ------------------------------------------------------------ what the records say

  /** Address `a` runs on from operation `i - 1`, or from the initial address. */
  predicate RunsOn(ops: seq<Op>, i: nat)
    requires i < |ops|
  {
    ops[i].address == After(if i == 0 then WORD_LIMIT - 1 else ops[i - 1].address)
  }

  /** Only a byte that follows a byte may run on: not the first operation, not a program start, and not
      what comes after one. */
  predicate Clean(ops: seq<Op>) {
    forall i :: 0 <= i < |ops| && RunsOn(ops, i) ==> i > 0 && ops[i].Out? && ops[i - 1].Out?
  }

  /** The address of the last operation of a record. */
  function LastAddress(r: Record): nat {
    if r.data == [] then r.address else (r.address + |r.data| - 1) % WORD_LIMIT
  }

  /** No record runs on from the one before it. */
  predicate Merged(rs: seq<Record>) {
    forall i :: 0 < i < |rs| ==> rs[i].address != After(LastAddress(rs[i - 1]))
  }

  /** The state after operations that were all clean. */
  ghost predicate Faithful(ops: seq<Op>, m: Machine) {
    && m.stray == [] && ExpandAll(m.recs) == ops && Merged(m.recs)
    && (if ops == [] then m == Initial()
        else
          && m.recs != [] && m.current == ops[|ops| - 1].address == LastAddress(m.recs[|m.recs| - 1])
          && (m.recs[|m.recs| - 1].data == [] <==> ops[|ops| - 1].Start?))
  }

  lemma CleanPrefix(ops: seq<Op>, op: Op)
    ensures Clean(ops + [op]) <==> Clean(ops) && (op.address == After(Run(ops).current) ==> op.Out? && ops != [] && ops[|ops| - 1].Out?)
  {
    hide Run;
    var all, n := ops + [op], |ops|;
    CurrentIs(ops);
    assert all[n] == op && (n > 0 ==> all[n - 1] == ops[n - 1]);
    assert RunsOn(all, n) <==> op.address == After(Run(ops).current);
    assert forall i :: 0 <= i < n ==> all[i] == ops[i];
    assert forall i :: 0 <= i < n ==> (RunsOn(all, i) <==> RunsOn(ops, i));
  }

  lemma CurrentIs(ops: seq<Op>)
    ensures Run(ops).current == if ops == [] then WORD_LIMIT - 1 else ops[|ops| - 1].address
  {
  }

  lemma RunSnoc(ops: seq<Op>, op: Op)
    ensures Run(ops + [op]) == Step(Run(ops), op)
  {
    assert (ops + [op])[..|ops|] == ops;
  }

  lemma ExpandSnoc(rs: seq<Record>, r: Record)
    ensures ExpandAll(rs + [r]) == ExpandAll(rs) + Expand(r)
  {
    assert (rs + [r])[..|rs|] == rs;
  }

  /** A byte added to a record: one operation more, unless the record was a program start. */
  lemma ExpandMore(r: Record, d: byte)
    ensures |Expand(r.(data := r.data + [d]))| == |Expand(r)| + if r.data == [] then 0 else 1
    ensures r.data != [] ==>
      Expand(r.(data := r.data + [d])) == Expand(r) + [Out((r.address + |r.data|) % WORD_LIMIT, d)]
  {
  }

  function NewRecord(op: Op): Record { Record(op.address, if op.Out? then [op.data] else []) }

  lemma StepOpens(m: Machine, op: Op)
    requires op.address != After(m.current)
    ensures Step(m, op) == Machine(m.stray, m.recs + [NewRecord(op)], op.address)
  {
    var rs := m.recs + [Record(op.address, [])];
    assert rs[..|m.recs|] == m.recs;
    assert [] + (if op.Out? then [op.data] else []) == NewRecord(op).data;
  }

  lemma OpensRecord(ops: seq<Op>, m: Machine, op: Op)
    requires Faithful(ops, m) && op.address < WORD_LIMIT && op.address != After(m.current)
    ensures Faithful(ops + [op], Step(m, op))
  {
    hide Step, ExpandAll;
    var r := NewRecord(op);
    StepOpens(m, op);
    ExpandSnoc(m.recs, r);
    assert Expand(r) == [op];
    assert LastAddress(r) == op.address;
    MergedSnoc(m.recs, r);
  }

  lemma MergedSnoc(rs: seq<Record>, r: Record)
    requires Merged(rs) && (rs != [] ==> r.address != After(LastAddress(rs[|rs| - 1])))
    ensures Merged(rs + [r])
  {
  }

  lemma AddsByte(ops: seq<Op>, m: Machine, op: Op)
    requires Faithful(ops, m) && op.address < WORD_LIMIT && op.address == After(m.current)
    requires op.Out? && ops != [] && ops[|ops| - 1].Out?
    ensures Faithful(ops + [op], Step(m, op))
  {
    hide Expand;
    var k := |m.recs| - 1;
    var r := m.recs[k];
    var r' := r.(data := r.data + [op.data]);
    assert m.recs[..k] + [r] == m.recs;
    assert Step(m, op) == Machine([], m.recs[..k] + [r'], op.address);
    ExpandMore(r, op.data);
    WrapNext(r.address, |r.data|);
    assert LastAddress(r') == op.address;
    ExpandSnoc(m.recs[..k], r);
    ExpandSnoc(m.recs[..k], r');
    assert ops + [op] == ExpandAll(m.recs[..k]) + (Expand(r) + [op]);
  }

  lemma WrapNext(a: nat, n: nat)
    requires n > 0
    ensures After((a + n - 1) % WORD_LIMIT) == (a + n) % WORD_LIMIT
  {
  }

  /** Clean operations are what the records expand to. */
  lemma {:induction false} CleanIsFaithful(ops: seq<Op>)
    requires Addresses(ops) && Clean(ops)
    ensures Faithful(ops, Run(ops))
    decreases |ops|
  {
    if ops != [] {
      hide Faithful, Clean, Run, Step;
      var before, op := ops[..|ops| - 1], ops[|ops| - 1];
      assert ops == before + [op];
      RunSnoc(before, op);
      CleanPrefix(before, op);
      CleanIsFaithful(before);
      if op.address == After(Run(before).current) {
        AddsByte(before, Run(before), op);
      } else {
        OpensRecord(before, Run(before), op);
      }
    }
  }

  /** Bytes in front of the records and operations in them. */
  function Written(m: Machine): nat { |m.stray| + |ExpandAll(m.recs)| }

  /** A step adds at most one operation to the file, and never takes a stray byte back. */
  lemma StepWritten(m: Machine, op: Op)
    ensures |Step(m, op).stray| >= |m.stray|
    ensures Written(Step(m, op)) <= Written(m) + 1
    ensures op.address == After(m.current) && m.recs != [] && (op.Start? || m.recs[|m.recs| - 1].data == [])
            ==> Written(Step(m, op)) == Written(m)
    ensures op.address == After(m.current) && m.recs == [] ==> Step(m, op).stray != [] || Written(Step(m, op)) == Written(m)
  {
    hide Expand;
    if op.address != After(m.current) {
      StepOpens(m, op);
      ExpandSnoc(m.recs, NewRecord(op));
      ExpandOne(NewRecord(op));
    } else if op.Out? && m.recs != [] {
      var k := |m.recs| - 1;
      var r := m.recs[k];
      assert m.recs[..k] + [r] == m.recs;
      ExpandMore(r, op.data);
      ExpandSnoc(m.recs[..k], r);
      ExpandSnoc(m.recs[..k], r.(data := r.data + [op.data]));
    }
  }

  lemma ExpandOne(r: Record)
    requires |r.data| <= 1
    ensures |Expand(r)| == 1
  {
  }

  /** Operations that are not clean leave a stray byte or lose an operation. */
  lemma {:induction false} NotCleanLoses(ops: seq<Op>)
    requires Addresses(ops)
    ensures Written(Run(ops)) <= |ops|
    ensures !Clean(ops) ==> Run(ops).stray != [] || Written(Run(ops)) < |ops|
    decreases |ops|
  {
    if ops != [] {
      hide Clean, Run, Step, Written, Faithful;
      var before, op := ops[..|ops| - 1], ops[|ops| - 1];
      assert ops == before + [op];
      RunSnoc(before, op);
      CleanPrefix(before, op);
      NotCleanLoses(before);
      StepWritten(Run(before), op);
      if Clean(before) {
        CleanIsFaithful(before);
        FaithfulState(before, Run(before));
      }
    } else {
      assert Run(ops) == Initial();
    }
  }

  lemma FaithfulState(ops: seq<Op>, m: Machine)
    requires Faithful(ops, m)
    ensures m.recs == [] <==> ops == []
    ensures ops != [] ==> (m.recs[|m.recs| - 1].data == [] <==> ops[|ops| - 1].Start?)
  {
  }

  /** The records expand to exactly the operations, with nothing in front of them, if and only if the
      operations are clean; they are then merged as far as they go. */
  lemma FaithfulIffClean(ops: seq<Op>)
    requires Addresses(ops)
    ensures Clean(ops) <==> Run(ops).stray == [] && ExpandAll(Run(ops).recs) == ops
    ensures Clean(ops) ==> Merged(Run(ops).recs)
  {
    hide Clean, Run;
    NotCleanLoses(ops);
    if Clean(ops) { CleanIsFaithful(ops); }
  }

  lemma {:induction false} RunFits(ops: seq<Op>)
    requires Addresses(ops)
    ensures forall i :: 0 <= i < |Run(ops).recs| ==> Run(ops).recs[i].address < WORD_LIMIT && |Run(ops).recs[i].data| <= |ops|
    decreases |ops|
  {
    if ops != [] {
      var k := |ops| - 1;
      RunFits(ops[..k]);
      StepFits(Run(ops[..k]), ops[k], k);
    }
  }

  lemma StepFits(m: Machine, op: Op, n: nat)
    requires forall i :: 0 <= i < |m.recs| ==> m.recs[i].address < WORD_LIMIT && |m.recs[i].data| <= n
    requires op.address < WORD_LIMIT
    ensures forall r :: r in Step(m, op).recs ==> r.address < WORD_LIMIT && |r.data| <= n + 1
  {
    if op.address != After(m.current) { StepOpens(m, op); }
  }

  /** Clean operations, written and read back. */
  lemma FileReadsBack(tag: nat, ops: seq<Op>)
    requires Addresses(ops) && |ops| < WORD_LIMIT && Clean(ops)
    ensures var b := FileBytes(tag, Run(ops));
            && b[..4] == Le32(tag) && ReadRecords(b[4..]) == Some(Run(ops).recs)
            && ExpandAll(Run(ops).recs) == ops && Merged(Run(ops).recs)
  {
    hide Clean, Run, Le32, ReadRecords, ExpandAll, Merged;
    FaithfulIffClean(ops);
    RunFits(ops);
    RecordsReadBack(Run(ops).recs);
    assert FileBytes(tag, Run(ops)) == Le32(tag) + RecordsBytes(Run(ops).recs);
  }

  lemma RunOne(a: Op)
    ensures Run([a]) == Step(Initial(), a)
  {
    RunSnoc([], a);
    assert [] + [a] == [a];
  }

  lemma RunTwo(a: Op, b: Op)
    ensures Run([a, b]) == Step(Step(Initial(), a), b)
  {
    RunOne(a);
    RunSnoc([a], b);
    assert [a] + [b] == [a, b];
  }

  /** A first byte at zero has no record. */
  lemma FirstByteAtZero(d: byte)
    ensures Run([Out(0, d)]) == Machine([d], [], 0)
  {
    hide Run;
    RunOne(Out(0, d));
    assert [] + [d] == [d];
  }

  /** A program start that runs on is lost. */
  lemma StartRunsOn(d: byte)
    ensures Run([Out(4, d), Start(5)]) == Machine([], [Record(4, [d])], 5)
  {
    hide Run;
    RunTwo(Out(4, d), Start(5));
    StepOpens(Initial(), Out(4, d));
  }

  /** A byte that runs on from a program start lands at the address of the start. */
  lemma ByteAfterStart(d: byte)
    ensures Run([Start(4), Out(5, d)]) == Machine([], [Record(4, [d])], 5)
  {
    hide Run;
    RunTwo(Start(4), Out(5, d));
    StepOpens(Initial(), Start(4));
    assert [Record(4, [])][..0] == [] && [] + [d] == [d];
  }

  /** Bytes alone, with a first address other than zero and no program start, are always clean. */
  lemma BytesAreClean(ops: seq<Op>)
    requires Addresses(ops) && forall i :: 0 <= i < |ops| ==> ops[i].Out?
    ensures Clean(ops) <==> ops == [] || ops[0].address != 0
  {
    if ops != [] {
      assert RunsOn(ops, 0) <==> ops[0].address == 0;
    }
  }

  // ------------------------------------------------------------ one list of records only

  /** The operation before the last `n` of a list whose last record has `n` of them. */
  lemma BeforeLast(rs: seq<Record>)
    requires |rs| >= 2
    ensures var n := |Expand(rs[|rs| - 1])|;
            var all := ExpandAll(rs);
            |all| > n && all[|all| - n - 1].address == LastAddressOf(rs[|rs| - 2]) && all[|all| - n..] == Expand(rs[|rs| - 1])
  {
    var k := |rs| - 1;
    assert rs[..k][..k - 1] == rs[..k - 1];
    assert ExpandAll(rs[..k]) == ExpandAll(rs[..k - 1]) + Expand(rs[k - 1]);
  }

  function LastAddressOf(r: Record): nat { Expand(r)[|Expand(r)| - 1].address }

  lemma LastAddressIs(r: Record)
    requires r.address < WORD_LIMIT
    ensures LastAddressOf(r) == LastAddress(r)
  {
  }

  /** The last record of a merged list cannot be shorter than that of another list that says the same. */
  lemma NotShorter(rs: seq<Record>, qs: seq<Record>)
    requires Fits(rs) && Fits(qs) && Merged(rs) && rs != [] && qs != [] && ExpandAll(rs) == ExpandAll(qs)
    ensures |Expand(rs[|rs| - 1])| >= |Expand(qs[|qs| - 1])|
  {
    hide ExpandAll, Expand, Fits, Merged, LastAddressOf, LastAddress, After;
    var r, q, all := rs[|rs| - 1], qs[|qs| - 1], ExpandAll(rs);
    if |Expand(r)| < |Expand(q)| {
      LastOps(rs);
      LastOps(qs);
      AtLeastTwo(rs, |all|);
      BeforeLast(rs);
      Consecutive(q, |Expand(q)| - |Expand(r)| - 1);
      FitsParts(rs);
      FirstAddress(r);
      RunsOnWithin(all, Expand(r), Expand(q));
      LastTwo(rs);
    }
  }

  /** Within the longer of two ends of a list, the shorter one runs on. */
  lemma RunsOnWithin(all: seq<Op>, short: seq<Op>, long: seq<Op>)
    requires 0 < |short| < |long| <= |all| && all[|all| - |short|..] == short && all[|all| - |long|..] == long
    requires long[|long| - |short|].address == After(long[|long| - |short| - 1].address)
    ensures short[0].address == After(all[|all| - |short| - 1].address)
  {
    hide After;
    assert long[|long| - |short|] == all[|all| - |short|] == short[0];
    assert long[|long| - |short| - 1] == all[|all| - |short| - 1];
  }

  lemma LastTwo(rs: seq<Record>)
    requires Fits(rs) && Merged(rs) && |rs| >= 2
    ensures rs[|rs| - 1].address != After(LastAddressOf(rs[|rs| - 2]))
  {
    hide LastAddressOf, LastAddress, After;
    LastAddressIs(rs[|rs| - 2]);
  }

  lemma Ends(all: seq<Op>, n: nat, m: nat)
    requires 0 < n < m <= |all|
    ensures all[|all| - m..][m - n] == all[|all| - n..][0] && all[|all| - m..][m - n - 1] == all[|all| - n - 1]
  {
  }

  lemma LastOps(rs: seq<Record>)
    requires rs != []
    ensures var n := |Expand(rs[|rs| - 1])|;
            var all := ExpandAll(rs);
            |all| >= n && all[|all| - n..] == Expand(rs[|rs| - 1]) && all[..|all| - n] == ExpandAll(rs[..|rs| - 1])
  {
    hide Expand;
  }

  lemma AtLeastTwo(rs: seq<Record>, n: nat)
    requires rs != [] && |ExpandAll(rs)| > |Expand(rs[|rs| - 1])|
    ensures |rs| >= 2
  {
    assert ExpandAll(rs) == ExpandAll(rs[..|rs| - 1]) + Expand(rs[|rs| - 1]);
    assert rs[..|rs| - 1] != [];
  }

  lemma Consecutive(r: Record, i: nat)
    requires i + 1 < |Expand(r)|
    ensures Expand(r)[i + 1].address == After(Expand(r)[i].address)
  {
    WrapNext(r.address, i + 1);
  }

  lemma FirstAddress(r: Record)
    requires r.address < WORD_LIMIT
    ensures Expand(r)[0].address == r.address
  {
  }

  /** A record is known from what it asks for. */
  lemma ExpandUnique(r: Record, q: Record)
    requires r.address < WORD_LIMIT && q.address < WORD_LIMIT && Expand(r) == Expand(q)
    ensures r == q
  {
    FirstAddress(r);
    FirstAddress(q);
    assert r.data == [] <==> Expand(r)[0].Start?;
    assert q.data == [] <==> Expand(q)[0].Start?;
    if r.data != [] {
      forall i | 0 <= i < |r.data| ensures r.data[i] == q.data[i] {
        assert Expand(r)[i].data == r.data[i];
        assert Expand(q)[i].data == q.data[i];
      }
    }
  }

  lemma SameLast(rs: seq<Record>, qs: seq<Record>)
    requires rs != [] && qs != [] && ExpandAll(rs) == ExpandAll(qs)
    requires |Expand(rs[|rs| - 1])| == |Expand(qs[|qs| - 1])|
    ensures Expand(rs[|rs| - 1]) == Expand(qs[|qs| - 1]) && ExpandAll(rs[..|rs| - 1]) == ExpandAll(qs[..|qs| - 1])
  {
    hide ExpandAll, Expand;
    LastOps(rs);
    LastOps(qs);
  }

  lemma MergedStep(rs: seq<Record>, qs: seq<Record>)
    requires Fits(rs) && Fits(qs) && Merged(rs) && Merged(qs) && ExpandAll(rs) == ExpandAll(qs) && rs != [] && qs != []
    ensures rs[|rs| - 1] == qs[|qs| - 1] && ExpandAll(rs[..|rs| - 1]) == ExpandAll(qs[..|qs| - 1])
  {
    hide ExpandAll, Expand, Fits, Merged;
    FitsParts(rs);
    FitsParts(qs);
    NotShorter(rs, qs);
    NotShorter(qs, rs);
    SameLast(rs, qs);
    ExpandUnique(rs[|rs| - 1], qs[|qs| - 1]);
  }

  /** Only one list of merged records says a given thing. */
  lemma {:induction false} MergedUnique(rs: seq<Record>, qs: seq<Record>)
    requires Fits(rs) && Fits(qs) && Merged(rs) && Merged(qs) && ExpandAll(rs) == ExpandAll(qs)
    ensures rs == qs
    decreases |rs|
  {
    hide ExpandAll, Fits, Merged;
    NothingSaid(rs);
    NothingSaid(qs);
    if rs != [] {
      FitsParts(rs);
      FitsParts(qs);
      MergedStep(rs, qs);
      MergedUnique(rs[..|rs| - 1], qs[..|qs| - 1]);
      assert rs == rs[..|rs| - 1] + [rs[|rs| - 1]];
      assert qs == qs[..|qs| - 1] + [qs[|qs| - 1]];
    }
  }

  lemma FitsParts(rs: seq<Record>)
    requires Fits(rs) && Merged(rs) && rs != []
    ensures Fits(rs[..|rs| - 1]) && Merged(rs[..|rs| - 1]) && rs[|rs| - 1].address < WORD_LIMIT
  {
  }

  lemma NothingSaid(rs: seq<Record>)
    ensures ExpandAll(rs) == [] <==> rs == []
    ensures ExpandAll([]) == []
  {
    if rs != [] { LastOps(rs); }
  }
}
