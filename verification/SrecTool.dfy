/** srec2bin: lines in, binary records out; length and checksum are filled in when a record ends. */
module SrecTool {
  import opened Bytes
  import opened Srec
  import opened SrecText

  const TAG_BIG := 0xDEADBE42
  const TAG_LITTLE := 0xFEEDFA42

  /** gh: the value of `nibs` digits. */
  method ReadHex(s: seq<char>, nibs: nat) returns (j: nat)
    requires nibs <= |s|
    ensures j == Hex(s[..nibs])
  {
    j := 0;
    for i := 0 to nibs
      invariant j == Hex(s[..i])
    {
      assert s[..i + 1][..i] == s[..i];
      j := 16 * j;
      if '0' <= s[i] <= '9' {
        j := j + (s[i] as int - '0' as int);
      } else if 'A' <= s[i] <= 'F' {
        j := j + (s[i] as int - 'A' as int + 10);
      } else if 'a' <= s[i] <= 'f' {
        j := j + (s[i] as int - 'a' as int + 10);
      }
    }
  }

  lemma NextByte(s: seq<char>, i: nat)
    requires 2 * i + 2 <= |s|
    ensures Hex(s[2 * i..][..2]) == HexByte(s, i) && Sum(HexBytes(s, i + 1)) == Sum(HexBytes(s, i)) + HexByte(s, i)
  {
    hide Hex, Sum;
    assert s[2 * i..][..2] == s[2 * i..2 * i + 2];
    SumConcat(HexBytes(s, i), HexByte(s, i));
    assert HexBytes(s, i + 1) == HexBytes(s, i) + [HexByte(s, i)];
  }

  lemma NoBytes(s: seq<char>)
    ensures Sum(HexBytes(s, 0)) == 0
  {
  }

  /** checksum of the pairs of a line. */
  method CheckLine(s: seq<char>, count: nat) returns (ok: bool)
    requires 2 * count <= |s|
    ensures ok == ChecksumOk(s, count)
  {
    hide Hex, Sum;
    NoBytes(s);
    for i := 0 to |s|
      invariant forall k :: 0 <= k < i ==> IsHex(s[k])
    {
      if !IsHex(s[i]) {
        return false;
      }
    }
    var cksum: nat := count;
    for i := 0 to count
      invariant cksum == count + Sum(HexBytes(s, i))
    {
      var b := ReadHex(s[2 * i..], 2);
      NextByte(s, i);
      cksum := cksum + b;
    }
    ok := cksum % 256 == 255;
  }

  /** The file up to the data of the open record, whose length is still zero. */
  ghost function OpenBytes(tag: nat, m: Machine): seq<byte>
    requires m.recs != []
  {
    var k := |m.recs| - 1;
    Le32(tag) + m.stray + RecordsBytes(m.recs[..k]) + (Le32(0) + Le32(m.recs[k].address)) + m.recs[k].data
  }

  /** A record is open. */
  ghost predicate InRecord(m: Machine, recLength: nat, checkSum: nat) {
    && m.recs != [] && recLength == |m.recs[|m.recs| - 1].data|
    && checkSum == (m.recs[|m.recs| - 1].address + Sum(m.recs[|m.recs| - 1].data)) % WORD_LIMIT
  }

  /** Filling in the length in front of an address and data. */
  lemma Patched(head: seq<byte>, old4: seq<byte>, new4: seq<byte>, address: seq<byte>, data: seq<byte>)
    requires |old4| == |new4| == |address| == 4
    ensures var file := head + (old4 + address) + data;
            && |head| == |file| - |data| - 8 && |head| + 4 <= |file|
            && file[..|head|] + new4 + file[|head| + 4..] == head + (new4 + address) + data
  {
    var file := head + (old4 + address) + data;
    assert file[..|head|] == head && file[|head| + 4..] == address + data;
  }

  /** The complement of the running sum completes the record. */
  lemma Complement(r: Record)
    ensures (WORD_LIMIT - ((r.address + Sum(r.data)) % WORD_LIMIT + |r.data|) % WORD_LIMIT) % WORD_LIMIT == CheckWord(r)
  {
    hide Sum;
    var a, n := r.address + Sum(r.data), |r.data|;
    assert a == WORD_LIMIT * (a / WORD_LIMIT) + a % WORD_LIMIT;
    var c := (a % WORD_LIMIT + n) % WORD_LIMIT;
    assert c == (a + n) % WORD_LIMIT;
    assert a + n == WORD_LIMIT * ((a + n) / WORD_LIMIT) + c;
    assert (-(n + a)) % WORD_LIMIT == (-c) % WORD_LIMIT;
  }

  /** A record that ends is the bytes of one more record. */
  lemma Ended(tag: nat, m: Machine, length: nat, check: nat)
    requires m.recs != [] && length == |m.recs[|m.recs| - 1].data| && check == CheckWord(m.recs[|m.recs| - 1])
    ensures var k := |m.recs| - 1;
            Le32(tag) + m.stray + RecordsBytes(m.recs[..k]) + (Le32(length) + Le32(m.recs[k].address)) + m.recs[k].data
            + Le32(check) == FileBytes(tag, m)
  {
    hide Le32, CheckWord;
    var k := |m.recs| - 1;
    var r := m.recs[k];
    var head, length4, address4, check4 := Le32(tag) + m.stray, Le32(length), Le32(r.address), Le32(check);
    assert RecordBytes(r) == length4 + address4 + r.data + check4;
    Regroup(head, RecordsBytes(m.recs[..k]), length4, address4, r.data, check4);
  }

  lemma Regroup(a: seq<byte>, b: seq<byte>, c: seq<byte>, d: seq<byte>, e: seq<byte>, f: seq<byte>)
    ensures a + b + (c + d) + e + f == a + (b + (c + d + e + f))
  {
  }

  /** A record that begins. */
  lemma Opened(tag: nat, m: Machine, r: Record)
    requires r.data == [] && r.address < WORD_LIMIT
    ensures var m' := m.(recs := m.recs + [r]);
            InRecord(m', 0, r.address) && OpenBytes(tag, m') == FileBytes(tag, m) + (Le32(0) + Le32(r.address))
  {
    hide Le32;
    var m' := m.(recs := m.recs + [r]);
    var k := |m.recs|;
    assert m'.recs[..k] == m.recs && m'.recs[k] == r;
  }

  lemma StepOut(m: Machine, op: Op, ready: Machine)
    requires op.Out?
    requires ready == (if op.address != After(m.current) then m.(recs := m.recs + [Record(op.address, [])]) else m).(current := op.address)
    ensures Step(m, op) == Append(ready, op.data)
  {
  }

  lemma StepStart(m: Machine, op: Op)
    requires op.Start?
    ensures op.address == After(m.current) ==> Step(m, op) == m.(current := op.address)
    ensures op.address != After(m.current) ==> Step(m, op) == m.(recs := m.recs + [Record(op.address, [])], current := op.address)
  {
  }

  /** The current address does not matter for the file. */
  lemma SameFile(tag: nat, m: Machine, a: nat, recLength: nat, checkSum: nat)
    ensures InRecord(m, recLength, checkSum) <==> InRecord(m.(current := a), recLength, checkSum)
    ensures m.recs != [] ==> OpenBytes(tag, m) == OpenBytes(tag, m.(current := a))
  {
  }

  lemma AppendShape(m: Machine, d: byte)
    ensures Append(m, d).current == m.current && (Append(m, d).recs == [] <==> m.recs == [])
    ensures m.recs == [] ==> Append(m, d).stray == m.stray + [d]
  {
  }

  /** A record that grows. */
  lemma Grown(tag: nat, m: Machine, d: byte, recLength: nat, checkSum: nat)
    requires m.recs != [] && InRecord(m, recLength, checkSum)
    ensures var m' := Append(m, d);
            && m'.recs != [] && InRecord(m', recLength + 1, (checkSum + d) % WORD_LIMIT)
            && OpenBytes(tag, m') == OpenBytes(tag, m) + [d]
  {
    hide Le32, Sum;
    var m' := Append(m, d);
    var k := |m.recs| - 1;
    var r := m.recs[k];
    SumConcat(r.data, d);
    SumMod(r.address + Sum(r.data), d);
    assert m'.recs[..k] == m.recs[..k] && m'.recs[k] == r.(data := r.data + [d]);
  }

  lemma SumMod(a: nat, d: nat)
    ensures (a % WORD_LIMIT + d) % WORD_LIMIT == (a + d) % WORD_LIMIT
  {
  }

  /** One byte of a data line. */
  lemma DataByte(s: seq<char>, n: nat, i: nat)
    requires i < n && 8 + 2 * n <= |s|
    ensures s[8 + 2 * i..][..2] == s[8..][2 * i..2 * i + 2] && HexBytes(s[8..], n)[i] == Hex(s[8 + 2 * i..][..2])
  {
    hide Hex;
  }

  lemma OutsStep(address: nat, data: seq<byte>, i: nat)
    requires i < |data|
    ensures Outs(address, data)[..i + 1] == Outs(address, data)[..i] + [Out((address + i) % WORD_LIMIT, data[i])]
  {
  }

  lemma NoRecords(tag: nat, m: Machine)
    requires m.recs == []
    ensures FileBytes(tag, m) == Le32(tag) + m.stray
  {
  }

  class Converter {
    const tag: nat
    var file: seq<byte>
    var pos: nat
    var recStart: bool
    var recLength: nat
    var checkSum: nat
    var addressCurrent: nat
    var total: nat
    /** Everything asked for so far. */
    ghost var ops: seq<Op>

    ghost predicate Valid()
      reads this
    {
      && pos == |file| && addressCurrent == Run(ops).current && recStart == (Run(ops).recs != [])
      && (if recStart then InRecord(Run(ops), recLength, checkSum) && file == OpenBytes(tag, Run(ops))
          else file == Le32(tag) + Run(ops).stray)
    }

    constructor (tag: nat)
      ensures Valid() && ops == [] && total == 0 && recLength == 0 && this.tag == tag
    {
      this.tag := tag;
      file, pos, recStart, recLength, checkSum, total := Le32(tag), 4, false, 0, 0, 0;
      addressCurrent, ops := WORD_LIMIT - 1, [];
      new;
      assert Le32(tag) + [] == Le32(tag);
    }

    /** fwrite: over what is there, and on behind the end. */
    method Write(s: seq<byte>)
      requires pos <= |file|
      modifies this`file, this`pos
      ensures pos == old(pos) + |s|
      ensures file == old(file)[..old(pos)] + s + (if pos < |old(file)| then old(file)[pos..] else [])
    {
      file := file[..pos] + s + (if pos + |s| < |file| then file[pos + |s|..] else []);
      pos := pos + |s|;
    }

    /** binRecStart */
    method RecStart(address: nat)
      requires pos == |file|
      modifies this`file, this`pos, this`recStart, this`recLength, this`checkSum
      ensures pos == |file| && file == old(file) + (Le32(0) + Le32(address))
      ensures recStart && recLength == 0 && checkSum == address
    {
      recLength, checkSum, recStart := 0, address, true;
      Write(Le32(recLength));
      Write(Le32(address));
    }

    /** binRecEnd: goes back over data, address and length, and returns to the end to write the checksum. */
    method RecEnd()
      requires Valid()
      modifies this`file, this`pos, this`recStart, this`checkSum
      ensures pos == |file| && !recStart && file == FileBytes(tag, Run(ops))
    {
      hide Run, Sum, CheckWord, Le32, RecordsBytes;
      ghost var m := Run(ops);
      if !recStart {
        assert file + [] == file;
        NoRecords(tag, m);
        return;
      }
      ghost var k := |m.recs| - 1;
      ghost var r := m.recs[k];
      ghost var head := Le32(tag) + m.stray + RecordsBytes(m.recs[..k]);
      recStart := false;
      var recEnd := pos;
      Patched(head, Le32(0), Le32(recLength), Le32(r.address), r.data);
      pos := pos - recLength;
      pos := pos - 4;
      pos := pos - 4;
      Write(Le32(recLength));
      pos := recEnd;
      checkSum := (checkSum + recLength) % WORD_LIMIT;
      checkSum := (WORD_LIMIT - checkSum) % WORD_LIMIT;
      Complement(r);
      Ended(tag, m, recLength, checkSum);
      Write(Le32(checkSum));
    }

    /** binOut8 */
    method Out8(data: byte)
      requires pos == |file|
      modifies this`file, this`pos, this`recLength
      ensures pos == |file| && file == old(file) + [data] && recLength == (old(recLength) + 1) % WORD_LIMIT
    {
      Write([data]);
      recLength := (recLength + 1) % WORD_LIMIT;
    }

    /** binRecOutProgramStart */
    method OutProgramStart(address: nat)
      requires Valid() && address < WORD_LIMIT
      modifies this`file, this`pos, this`recStart, this`recLength, this`checkSum, this`addressCurrent, this`ops
      ensures Valid() && ops == old(ops) + [Start(address)] && recLength <= old(recLength)
    {
      hide Le32, CheckWord, Run, Step, InRecord, OpenBytes, FileBytes;
      ghost var op := Start(address);
      RunSnoc(ops, op);
      ghost var m := Run(ops);
      if address != After(addressCurrent) {
        RecEnd();
        RecStart(address);
        m := m.(recs := m.recs + [Record(address, [])]);
        Opened(tag, Run(ops), Record(address, []));
      }
      StepStart(Run(ops), op);
      SameFile(tag, m, address, recLength, checkSum);
      addressCurrent := address;
      ops := ops + [op];
    }

    /** binRecOutByte */
    method OutByte(address: nat, data: byte)
      requires Valid() && address < WORD_LIMIT && recLength + 1 < WORD_LIMIT
      modifies this`file, this`pos, this`recStart, this`recLength, this`checkSum, this`addressCurrent, this`ops
      ensures Valid() && ops == old(ops) + [Out(address, data)] && recLength <= old(recLength) + 1
    {
      hide Le32, CheckWord, Run, Step, Append, InRecord, OpenBytes, FileBytes;
      ghost var op := Out(address, data);
      RunSnoc(ops, op);
      ghost var m := Run(ops);
      ghost var ready := m;
      if address != After(addressCurrent) {
        RecEnd();
        RecStart(address);
        ready := m.(recs := m.recs + [Record(address, [])]);
        Opened(tag, m, Record(address, []));
      }
      SameFile(tag, ready, address, recLength, checkSum);
      addressCurrent := address;
      ready := ready.(current := address);
      StepOut(m, op, ready);
      AppendShape(ready, data);
      if recStart {
        Grown(tag, ready, data, recLength, checkSum);
      } else {
        assert Le32(tag) + (m.stray + [data]) == Le32(tag) + m.stray + [data];
      }
      checkSum := (checkSum + data) % WORD_LIMIT;
      Out8(data);
      ops := ops + [op];
    }

    /** srecLine */
    method SrecLine(line: seq<char>) returns (ok: bool)
      requires Valid() && recLength + 256 < WORD_LIMIT
      modifies this`file, this`pos, this`recStart, this`recLength, this`checkSum, this`addressCurrent, this`ops, this`total
      ensures var r := Line(line, old(total));
              Valid() && ok == r.ok && ops == old(ops) + r.ops && total == r.total && recLength <= old(recLength) + 256
    {
      hide Run, Hex, ChecksumOk, InRecord, OpenBytes;
      ghost var before := ops;
      assert before + [] == before;
      if |line| < 5 || line[0] != 'S' {
        return false;
      }
      var kind, s := line[1], line[4..];
      var count := ReadHex(line[2..], 2);
      assert line[2..][..2] == line[2..4];
      HexBelow(line[2..4], 2);
      assert count < 256 by { assert Power16(2) == 256; }
      if count * 2 != |s| {
        return false;
      }
      var good := CheckLine(s, count);
      if !good {
        return false;
      }
      match kind {
        case '0' =>
          if count < 3 {
            return false;
          }
          var address := ReadHex(s, 4);
          return address == 0;
        case '3' =>
          if count < 5 {
            return false;
          }
          var address := ReadHex(s, 8);
          ghost var was, wasLength := ops, recLength;
          ghost var data := HexBytes(s[8..], count - 5);
          for i := 0 to count - 5
            invariant Valid() && ops == was + Outs(address, data)[..i] && recLength <= wasLength + i
            invariant total == old(total)
          {
            var dat := ReadHex(s[8 + 2 * i..], 2);
            DataByte(s, count - 5, i);
            OutsStep(address, data, i);
            OutByte((address + i) % WORD_LIMIT, dat);
          }
          assert Outs(address, data)[..count - 5] == Outs(address, data);
          assert ops == was + Outs(address, data);
          total := total + 1;
        case '5' =>
          if count < 3 {
            return false;
          }
          var field := ReadHex(s, 4);
          return field == 0 && total == 0;
        case '7' =>
          if count != 5 {
            return false;
          }
          var address := ReadHex(s, 8);
          AddressBelow(s[..8]);
          OutProgramStart(address);
        case '1' => return false;
        case '2' => return false;
        case '4' => return false;
        case '6' => return false;
        case '8' => return false;
        case '9' => return false;
        case _ =>
      }
      ok := true;
    }
  }

  /** The whole program: the file is the tag, any stray bytes, and complete records. */
  method Convert(lines: seq<seq<char>>, bigEndian: bool) returns (file: seq<byte>)
    requires |lines| < 0xFF_FFFF
    ensures file == FileBytes(if bigEndian then TAG_BIG else TAG_LITTLE, Run(LinesOps(lines, 0)))
  {
    hide Line, Run, Le32, RecordsBytes;
    var out := new Converter(if bigEndian then TAG_BIG else TAG_LITTLE);
    var sts, i := true, 0;
    assert lines[0..] == lines && [] + LinesOps(lines, 0) == LinesOps(lines, 0);
    while sts && i < |lines|
      invariant i <= |lines| && out.Valid() && fresh(out) && out.recLength <= 256 * i
      invariant LinesOps(lines, 0) == out.ops + if sts then LinesOps(lines[i..], out.total) else []
    {
      assert lines[i..][0] == lines[i] && lines[i..][1..] == lines[i + 1..];
      if |lines[i]| > 0 {
        sts := out.SrecLine(lines[i]);
      }
      i := i + 1;
    }
    assert out.ops == LinesOps(lines, 0);
    out.RecEnd();
    file := out.file;
  }
}
