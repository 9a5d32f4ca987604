/** The lines of an S-record file as srec2bin reads them. */
module SrecText {
  import opened Bytes
  import opened Srec

  predicate IsHex(c: char) { '0' <= c <= '9' || 'A' <= c <= 'F' || 'a' <= c <= 'f' }

  /** The value of a digit; anything else counts as zero. */
  function Digit(c: char): (d: nat)
    ensures d < 16
  {
    if '0' <= c <= '9' then c as int - '0' as int
    else if 'A' <= c <= 'F' then c as int - 'A' as int + 10
    else if 'a' <= c <= 'f' then c as int - 'a' as int + 10
    else 0
  }

  function Hex(s: seq<char>): nat {
    if s == [] then 0 else 16 * Hex(s[..|s| - 1]) + Digit(s[|s| - 1])
  }

  /** Two digits make a byte. */
  function HexByte(s: seq<char>, i: nat): (b: byte)
    requires 2 * i + 2 <= |s|
    ensures b == Hex(s[2 * i..2 * i + 2])
  {
    assert s[2 * i..2 * i + 2][..1] == [s[2 * i]];
    assert Hex([s[2 * i]]) == Digit(s[2 * i]);
    16 * Digit(s[2 * i]) + Digit(s[2 * i + 1])
  }

  /** The first `n` bytes of a text. */
  function HexBytes(s: seq<char>, n: nat): (bs: seq<byte>)
    requires 2 * n <= |s|
    ensures |bs| == n && forall i :: 0 <= i < n ==> bs[i] == HexByte(s, i)
  {
    seq(n, i requires 0 <= i < n => HexByte(s, i))
  }

  /** Count and bytes add up to the complement of zero. */
  predicate ChecksumOk(s: seq<char>, count: nat)
    requires 2 * count <= |s|
  {
    (forall i :: 0 <= i < |s| ==> IsHex(s[i])) && (count + Sum(HexBytes(s, count))) % 256 == 255
  }

  /** One byte after the other from an address on. */
  function Outs(address: nat, data: seq<byte>): (ops: seq<Op>)
    ensures |ops| == |data|
  {
    seq(|data|, i requires 0 <= i < |data| => Out((address + i) % WORD_LIMIT, data[i]))
  }

  datatype LineResult = LineResult(ok: bool, ops: seq<Op>, total: nat)

  /** srecLine; a count record is refused unless both its field and the number of lines so far are zero. */
  function Line(line: seq<char>, total: nat): (r: LineResult)
    ensures !r.ok ==> r.ops == [] && r.total == total
  {
    var refused := LineResult(false, [], total);
    if |line| < 5 || line[0] != 'S' then refused
    else
      var kind, count, s := line[1], Hex(line[2..4]), line[4..];
      if count * 2 != |s| || !ChecksumOk(s, count) then refused
      else if kind == '0' then
        if count < 3 || Hex(s[..4]) != 0 then refused else LineResult(true, [], total)
      else if kind == '3' then
        if count < 5 then refused
        else LineResult(true, Outs(Hex(s[..8]), HexBytes(s[8..], count - 5)), total + 1)
      else if kind == '5' then
        if count < 3 || Hex(s[..4]) != 0 || total != 0 then refused else LineResult(true, [], total)
      else if kind == '7' then
        if count != 5 then refused else LineResult(true, [Start(Hex(s[..8]))], total)
      else if kind in {'1', '2', '4', '6', '8', '9'} then refused
      else LineResult(true, [], total)
  }

  /** Everything the lines ask for, up to the first line that is refused. */
  function LinesOps(lines: seq<seq<char>>, total: nat): seq<Op> {
    if lines == [] then []
    else if lines[0] == [] then LinesOps(lines[1..], total)
    else
      var r := Line(lines[0], total);
      if r.ok then r.ops + LinesOps(lines[1..], r.total) else []
  }

  // ------------------------------------------------------------ what is refused

  /** An accepted line starts with an S, is as long as its count says, and its bytes add up. */
  lemma AcceptedLine(line: seq<char>, total: nat)
    requires Line(line, total).ok
    ensures |line| >= 5 && line[0] == 'S' && |line| == 4 + 2 * Hex(line[2..4]) && line[1] !in "124689"
    ensures forall i :: 4 <= i < |line| ==> IsHex(line[i])
    ensures (Hex(line[2..4]) + Sum(HexBytes(line[4..], Hex(line[2..4])))) % 256 == 255
  {
    hide IsHex, Hex, Sum;
    assert forall i :: 4 <= i < |line| ==> line[i] == line[4..][i - 4];
  }

  /** One digit more or less in the sum of the bytes. */
  lemma {:induction false} SumOfChange(s: seq<char>, n: nat, j: nat, c: char)
    requires 2 * n <= |s| && j < |s|
    ensures Sum(HexBytes(s[j := c], n)) - Sum(HexBytes(s, n))
            == if j >= 2 * n then 0 else (Digit(c) - Digit(s[j])) * if j % 2 == 0 then 16 else 1
  {
    hide Hex, Digit;
    var t := s[j := c];
    if n > 0 {
      SumOfChange(s, n - 1, j, c);
      assert HexBytes(s, n)[..n - 1] == HexBytes(s, n - 1) && HexBytes(t, n)[..n - 1] == HexBytes(t, n - 1);
      ByteOfChange(s, n - 1, j, c);
    }
  }

  lemma ByteOfChange(s: seq<char>, i: nat, j: nat, c: char)
    requires 2 * i + 2 <= |s| && j < |s|
    ensures HexByte(s[j := c], i) - HexByte(s, i)
            == if j / 2 != i then 0 else (Digit(c) - Digit(s[j])) * if j % 2 == 0 then 16 else 1
  {
    hide Hex, Digit;
  }

  lemma HexOfTwo(a: char, b: char)
    ensures Hex([a, b]) == 16 * Digit(a) + Digit(b)
  {
    assert [a, b][..1] == [a] && [a][..0] == [];
    assert Hex([a]) == Digit(a);
  }

  /** Every change of one digit shows: in the count, because the line no longer has that length, and anywhere behind
      it, because the bytes no longer add up. */
  lemma ChangedDigitRefused(line: seq<char>, total: nat, i: nat, c: char)
    requires Line(line, total).ok && 2 <= i < |line|
    requires Digit(c) != Digit(line[i]) || (i >= 4 && !IsHex(c))
    ensures !Line(line[i := c], total).ok
  {
    hide IsHex, Hex, Sum, Line, Digit;
    var bad := line[i := c];
    AcceptedLine(line, total);
    if Line(bad, total).ok {
      AcceptedLine(bad, total);
      if i < 4 {
        assert line[2..4] == [line[2], line[3]] && bad[2..4] == [bad[2], bad[3]];
        HexOfTwo(line[2], line[3]);
        HexOfTwo(bad[2], bad[3]);
      } else {
        assert bad[2..4] == line[2..4] && bad[4..] == line[4..][i - 4 := c];
        var count := Hex(line[2..4]);
        assert IsHex(bad[i]);
        SmallChange(count + Sum(HexBytes(line[4..], count)), Digit(c) - Digit(line[i]), i % 2 == 0);
        SumOfChange(line[4..], count, i - 4, c);
      }
    }
  }

  lemma SmallChange(n: int, d: int, high: bool)
    requires -16 < d < 16 && d != 0
    ensures (n + d * if high then 16 else 1) % 256 != n % 256
  {
    var e := d * if high then 16 else 1;
    assert -256 < e < 256 && e != 0;
  }

  // ------------------------------------------------------------ writing S-records

  function DigitChar(d: nat): (c: char)
    requires d < 16
    ensures Digit(c) == d && IsHex(c)
  {
    if d < 10 then '0' + d as char else 'A' + (d - 10) as char
  }

  function TextOf(bs: seq<byte>): (s: seq<char>)
    ensures |s| == 2 * |bs|
    ensures forall i :: 0 <= i < |s| ==> IsHex(s[i])
  {
    if bs == [] then []
    else
      var b := bs[|bs| - 1];
      TextOf(bs[..|bs| - 1]) + [DigitChar(b / 16), DigitChar(b % 16)]
  }

  /** The last byte of a line: what completes the sum. */
  function Check(bytes: seq<byte>): byte { Completing(|bytes| + 1 + Sum(bytes)) }

  function Completing(n: nat): (c: byte)
    ensures (n + c) % 256 == 255
  {
    255 - n % 256
  }

  /** An S-record of the given kind. */
  function Stamped(kind: char, bytes: seq<byte>): seq<char>
    requires |bytes| < 255
  {
    ['S', kind] + TextOf([|bytes| + 1] + (bytes + [Check(bytes)]))
  }

  function S3Line(address: nat, data: seq<byte>): seq<char>
    requires |data| < 251
  {
    Stamped('3', Be32(address) + data)
  }

  function S7Line(address: nat): seq<char> { Stamped('7', Be32(address)) }

  lemma {:induction false} HexOfText(s: seq<char>, b: byte)
    ensures Hex(s + TextOf([b])) == 256 * Hex(s) + b
  {
    var t := s + TextOf([b]);
    assert [b][..0] == [] && TextOf([b]) == [DigitChar(b / 16), DigitChar(b % 16)];
    assert t[..|t| - 1] == s + [DigitChar(b / 16)];
    assert t[..|t| - 1][..|s|] == s;
  }

  lemma TextSnoc(bs: seq<byte>, b: byte)
    ensures TextOf(bs + [b]) == TextOf(bs) + TextOf([b])
  {
    assert (bs + [b])[..|bs|] == bs;
    assert [b][..0] == [] && TextOf([b]) == [DigitChar(b / 16), DigitChar(b % 16)];
  }

  lemma {:induction false} TextConcat(a: seq<byte>, b: seq<byte>)
    ensures TextOf(a + b) == TextOf(a) + TextOf(b)
    decreases |b|
  {
    if b == [] {
      assert a + b == a;
    } else {
      var k := |b| - 1;
      TextConcat(a, b[..k]);
      TextSnoc(a + b[..k], b[k]);
      TextSnoc(b[..k], b[k]);
      assert a + b == a + b[..k] + [b[k]] && b == b[..k] + [b[k]];
    }
  }

  lemma HexOfWord(address: nat)
    requires address < WORD_LIMIT
    ensures Hex(TextOf(Be32(address))) == address
  {
    hide Hex, TextOf;
    var w := Be32(address);
    SmallWord(address);
    HexOfEmpty();
    HexOfText(TextOf([]), w[0]);
    TextSnoc([], w[0]);
    HexOfText(TextOf([w[0]]), w[1]);
    TextSnoc([w[0]], w[1]);
    HexOfText(TextOf([w[0], w[1]]), w[2]);
    TextSnoc([w[0], w[1]], w[2]);
    HexOfText(TextOf([w[0], w[1], w[2]]), w[3]);
    TextSnoc([w[0], w[1], w[2]], w[3]);
    assert [] + [w[0]] == [w[0]] && [w[0]] + [w[1]] == [w[0], w[1]] && [w[0], w[1]] + [w[2]] == [w[0], w[1], w[2]];
    assert w == [w[0], w[1], w[2]] + [w[3]];
    assert TextOf([]) + TextOf([w[0]]) == TextOf([w[0]]);
  }

  lemma HexOfEmpty()
    ensures TextOf([]) == [] && Hex([]) == 0
  {
  }

  /** Text reads back byte for byte. */
  lemma {:induction false} TextReadsBack(bs: seq<byte>, rest: seq<char>)
    ensures HexBytes(TextOf(bs) + rest, |bs|) == bs
    decreases |bs|
  {
    hide Hex, TextOf;
    if bs != [] {
      var k := |bs| - 1;
      var last := TextOf([bs[k]]);
      TextSnoc(bs[..k], bs[k]);
      assert bs == bs[..k] + [bs[k]];
      var s := TextOf(bs) + rest;
      assert s == TextOf(bs[..k]) + (last + rest);
      TextReadsBack(bs[..k], last + rest);
      assert s[2 * k..2 * k + 2] == last;
      HexOfByte(bs[k]);
      assert HexBytes(s, k + 1) == HexBytes(s, k) + [HexByte(s, k)];
    }
  }

  lemma SumConcat(a: seq<byte>, b: byte)
    ensures Sum(a + [b]) == Sum(a) + b as nat
  {
    assert (a + [b])[..|a|] == a;
  }

  lemma ChecksumOfText(bs: seq<byte>)
    requires (|bs| + Sum(bs)) % 256 == 255
    ensures ChecksumOk(TextOf(bs), |bs|)
  {
    hide TextOf, Sum, Hex, HexBytes, IsHex, HexByte;
    TextReadsBack(bs, []);
    assert TextOf(bs) + [] == TextOf(bs);
  }

  lemma ChecksumHolds(bytes: seq<byte>, all: seq<byte>)
    requires all == bytes + [Check(bytes)]
    ensures ChecksumOk(TextOf(all), |all|)
  {
    hide ChecksumOk, TextOf, Sum, Completing;
    SumConcat(bytes, Check(bytes));
    ChecksumOfText(all);
  }

  lemma HexOfByte(b: byte)
    ensures Hex(TextOf([b])) == b
  {
    hide Hex, TextOf;
    HexOfEmpty();
    HexOfText([], b);
    assert [] + TextOf([b]) == TextOf([b]);
  }

  /** What srecLine sees of a stamped line. */
  ghost predicate IsStamped(line: seq<char>, kind: char, bytes: seq<byte>, check: byte) {
    && |line| == 2 * |bytes| + 6 && line[0] == 'S' && line[1] == kind && Hex(line[2..4]) == |bytes| + 1
    && line[4..] == TextOf(bytes) + TextOf([check]) && ChecksumOk(line[4..], |bytes| + 1)
  }

  lemma StampedParts(kind: char, bytes: seq<byte>)
    requires |bytes| < 255
    ensures IsStamped(Stamped(kind, bytes), kind, bytes, Check(bytes))
  {
    hide Hex, TextOf, Check, ChecksumOk;
    var count := |bytes| + 1;
    var check := Check(bytes);
    TextConcat([count], bytes + [check]);
    TextConcat(bytes, [check]);
    var line := Stamped(kind, bytes);
    assert line == ['S', kind] + TextOf([count]) + TextOf(bytes + [check]);
    assert line[2..4] == TextOf([count]) && line[4..] == TextOf(bytes + [check]);
    HexOfByte(count);
    ChecksumHolds(bytes, bytes + [check]);
  }

  /** A data line asks for its bytes, one after the other. */
  lemma S3LineRead(address: nat, data: seq<byte>, total: nat)
    requires address < WORD_LIMIT && |data| < 251
    ensures Line(S3Line(address, data), total) == LineResult(true, Outs(address, data), total + 1)
  {
    hide Hex, TextOf, ChecksumOk, Stamped, Outs, Check;
    var bytes := Be32(address) + data;
    StampedParts('3', bytes);
    var s := S3Line(address, data)[4..];
    var more := TextOf([Check(bytes)]);
    TextConcat(Be32(address), data);
    assert s[..8] == TextOf(Be32(address)) && s[8..] == TextOf(data) + more;
    HexOfWord(address);
    TextReadsBack(data, more);
  }

  /** A start line asks for its address. */
  lemma S7LineRead(address: nat, total: nat)
    requires address < WORD_LIMIT
    ensures Line(S7Line(address), total) == LineResult(true, [Start(address)], total)
  {
    hide Hex, TextOf, ChecksumOk, Stamped, Outs, Check;
    StampedParts('7', Be32(address));
    var s := S7Line(address)[4..];
    assert s[..8] == TextOf(Be32(address));
    HexOfWord(address);
  }

  lemma HexOfHalf(n: nat)
    requires n < 0x1_0000
    ensures Hex(TextOf(Be16(n))) == n
  {
    hide Hex, TextOf;
    var w := Be16(n);
    HexOfByte(w[0]);
    HexOfText(TextOf([w[0]]), w[1]);
    TextSnoc([w[0]], w[1]);
    assert w == [w[0]] + [w[1]];
  }

  function S0Line(text: seq<byte>): seq<char>
    requires |text| < 253
  {
    Stamped('0', Be16(0) + text)
  }

  function S5Line(count: nat): seq<char> { Stamped('5', Be16(count)) }

  /** A title line asks for nothing. */
  lemma S0LineRead(text: seq<byte>, total: nat)
    requires |text| < 253
    ensures Line(S0Line(text), total) == LineResult(true, [], total)
  {
    hide Hex, TextOf, ChecksumOk, Stamped, Outs, Check, Be16;
    StampedParts('0', Be16(0) + text);
    TextConcat(Be16(0), text);
    assert S0Line(text)[4..][..4] == TextOf(Be16(0));
    HexOfHalf(0);
  }

  /** A count line is accepted if and only if both its count and the number of data lines so far are zero: the
      program combines the two instead of comparing them. */
  lemma S5LineRead(count: nat, total: nat)
    requires count < 0x1_0000
    ensures Line(S5Line(count), total) == LineResult(count == 0 && total == 0, [], total)
  {
    hide Hex, TextOf, ChecksumOk, Stamped, Outs, Check, Be16;
    StampedParts('5', Be16(count));
    assert S5Line(count)[4..][..4] == TextOf(Be16(count));
    HexOfHalf(count);
  }

  /** The lines of a file for this machine. */
  datatype Entry = Title(text: seq<byte>) | Data(address: nat, data: seq<byte>) | Count(count: nat) | Begin(start: nat)
  {
    predicate Valid() {
      match this
      case Title(text) => |text| < 253
      case Data(address, data) => address < WORD_LIMIT && |data| < 251
      case Count(count) => count < 0x1_0000
      case Begin(start) => start < WORD_LIMIT
    }

    function Text(): seq<char>
      requires Valid()
    {
      match this
      case Title(text) => S0Line(text)
      case Data(address, data) => S3Line(address, data)
      case Count(count) => S5Line(count)
      case Begin(start) => S7Line(start)
    }

    function Ops(): seq<Op> {
      match this
      case Title(_) => []
      case Data(address, data) => Outs(address, data)
      case Count(_) => []
      case Begin(start) => [Start(start)]
    }

    /** Data lines up to here, when there were `total` before. */
    function Counted(total: nat): nat { if Data? then total + 1 else total }

    predicate Accepted(total: nat) { Count? ==> count == 0 && total == 0 }
  }

  predicate EntriesValid(xs: seq<Entry>) { forall i :: 0 <= i < |xs| ==> xs[i].Valid() }

  function Lines(xs: seq<Entry>): (r: seq<seq<char>>)
    requires EntriesValid(xs)
  {
    if xs == [] then [] else [xs[0].Text()] + Lines(xs[1..])
  }

  function AllOps(xs: seq<Entry>): seq<Op> {
    if xs == [] then [] else xs[0].Ops() + AllOps(xs[1..])
  }

  /** The first line that is refused; the number of lines when none is. */
  function Stop(xs: seq<Entry>, total: nat): (k: nat)
    ensures k <= |xs|
  {
    if xs == [] || !xs[0].Accepted(total) then 0 else 1 + Stop(xs[1..], xs[0].Counted(total))
  }

  lemma EntryRead(x: Entry, total: nat)
    requires x.Valid()
    ensures Line(x.Text(), total)
         == if x.Accepted(total) then LineResult(true, x.Ops(), x.Counted(total)) else LineResult(false, [], total)
    ensures x.Text() != []
  {
    hide Line, Outs;
    match x
    case Title(text) => S0LineRead(text, total);
    case Data(address, data) => S3LineRead(address, data, total);
    case Count(count) => S5LineRead(count, total);
    case Begin(start) => S7LineRead(start, total);
  }

  /** A file asks for what its lines ask for, up to the first count line that is refused. */
  lemma {:induction false} FileOps(xs: seq<Entry>, total: nat)
    requires EntriesValid(xs)
    ensures LinesOps(Lines(xs), total) == AllOps(xs[..Stop(xs, total)])
    decreases |xs|
  {
    hide Line, Entry.Text, Entry.Ops, Entry.Accepted, Entry.Counted, Entry.Valid;
    if xs != [] {
      EntryRead(xs[0], total);
      assert Lines(xs)[0] == xs[0].Text() && Lines(xs)[1..] == Lines(xs[1..]);
      if xs[0].Accepted(total) {
        var total' := xs[0].Counted(total);
        FileOps(xs[1..], total');
        var k := Stop(xs[1..], total');
        assert xs[..1 + k][1..] == xs[1..][..k] && xs[..1 + k][0] == xs[0];
      }
    }
  }

  lemma {:induction false} AllOpsConcat(xs: seq<Entry>, ys: seq<Entry>)
    ensures AllOps(xs + ys) == AllOps(xs) + AllOps(ys)
  {
    hide Entry.Ops;
    if xs == [] {
      assert xs + ys == ys;
    } else {
      AllOpsConcat(xs[1..], ys);
      assert (xs + ys)[1..] == xs[1..] + ys;
    }
  }

  /** What a count line does that holds the right number of data lines: reading stops there, and the start
      behind it is lost. */
  lemma {:induction false} CountLosesStart(data: seq<Entry>, start: nat)
    requires 0 < |data| < 0x1_0000 && EntriesValid(data) && (forall i :: 0 <= i < |data| ==> data[i].Data?)
    requires start < WORD_LIMIT
    ensures var xs := data + [Count(|data|), Begin(start)];
            && EntriesValid(xs) && AllOps(xs) == AllOps(data) + [Start(start)]
            && LinesOps(Lines(xs), 0) == AllOps(data)
  {
    hide LinesOps, AllOps;
    var tail := [Count(|data|), Begin(start)];
    var xs := data + tail;
    assert forall i :: 0 <= i < |xs| ==> xs[i] == if i < |data| then data[i] else tail[i - |data|];
    FileOps(xs, 0);
    StopAtCount(data, tail, 0);
    AllOpsConcat(data, tail);
    CountAndBegin(|data|, start);
    assert xs[..|data|] == data;
  }

  lemma CountAndBegin(n: nat, start: nat)
    ensures AllOps([Count(n), Begin(start)]) == [Start(start)]
  {
    var tail := [Begin(start)];
    assert [Count(n), Begin(start)][1..] == tail && tail[1..] == [];
    assert AllOps(tail) == tail[0].Ops() + AllOps([]) == [Start(start)];
    assert AllOps([Count(n), Begin(start)]) == [] + AllOps(tail);
  }

  lemma {:induction false} StopAtCount(data: seq<Entry>, tail: seq<Entry>, total: nat)
    requires (forall i :: 0 <= i < |data| ==> data[i].Data?) && tail != [] && tail[0].Count? && tail[0].count > 0
    ensures Stop(data + tail, total) == |data|
    decreases |data|
  {
    if data == [] {
      assert data + tail == tail;
    } else {
      StopAtCount(data[1..], tail, total + 1);
      assert (data + tail)[0] == data[0] && (data + tail)[1..] == data[1..] + tail;
    }
  }

  lemma LineNotEmpty(line: seq<char>, total: nat)
    requires Line(line, total).ok
    ensures line != []
  {
  }

  lemma {:induction false} HexBelow(s: seq<char>, n: nat)
    requires |s| <= n <= 8
    ensures Hex(s) < Power16(n)
    decreases |s|
  {
    if s != [] { HexBelow(s[..|s| - 1], n - 1); }
  }

  function Power16(n: nat): (p: nat)
    ensures p > 0
  {
    if n == 0 then 1 else 16 * Power16(n - 1)
  }

  /** The address of a line is a word. */
  lemma AddressBelow(s: seq<char>)
    requires |s| <= 8
    ensures Hex(s) < WORD_LIMIT
  {
    HexBelow(s, 8);
    assert Power16(4) == 0x1_0000;
    assert Power16(8) == WORD_LIMIT;
  }

  lemma {:induction false} OpsAddresses(xs: seq<Entry>)
    requires EntriesValid(xs)
    ensures Addresses(AllOps(xs))
  {
    if xs != [] { OpsAddresses(xs[1..]); }
  }

  /** From text to records: the records say exactly what the lines do, with nothing in front of them, if and only
      if that is clean and no line behind a refused count line asks for anything.  A loader then reads them back. */
  lemma TextReadsAsRecords(tag: nat, xs: seq<Entry>)
    requires EntriesValid(xs)
    ensures var m := Run(LinesOps(Lines(xs), 0));
            && (m.stray == [] && ExpandAll(m.recs) == AllOps(xs) <==> Clean(AllOps(xs)) && AllOps(xs[Stop(xs, 0)..]) == [])
            && (m.stray == [] && ExpandAll(m.recs) == AllOps(xs) && |AllOps(xs)| < WORD_LIMIT ==>
                  ReadRecords(FileBytes(tag, m)[4..]) == Some(m.recs) && Merged(m.recs))
  {
    hide Clean, Run, ReadRecords, ExpandAll, Merged, FileBytes, LinesOps, Lines, AllOps, Stop, EntriesValid, Written;
    var k := Stop(xs, 0);
    var ops, rest := AllOps(xs[..k]), AllOps(xs[k..]);
    FileOps(xs, 0);
    AllOpsConcat(xs[..k], xs[k..]);
    assert xs == xs[..k] + xs[k..];
    PrefixValid(xs, k);
    OpsAddresses(xs[..k]);
    FaithfulIffClean(ops);
    WrittenBound(ops);
    if rest == [] {
      assert ops + rest == ops;
      if Clean(ops) && |ops| < WORD_LIMIT { FileReadsBack(tag, ops); }
    }
  }

  lemma PrefixValid(xs: seq<Entry>, k: nat)
    requires EntriesValid(xs) && k <= |xs|
    ensures EntriesValid(xs[..k])
  {
  }

  lemma WrittenBound(ops: seq<Op>)
    requires Addresses(ops)
    ensures |ExpandAll(Run(ops).recs)| <= |ops|
  {
    hide Run, ExpandAll;
    NotCleanLoses(ops);
  }

  // ------------------------------------------------------------ a line character by character

  lemma KnownText()
    ensures TextOf([0x06, 0x00, 0x00, 0x10, 0x00, 0x41, 0xA8]) == "060000100041A8"
  {
    hide TextOf;
    var a: seq<byte> := [0x06, 0x00, 0x00];
    var b: seq<byte> := a + [0x10];
    var c: seq<byte> := b + [0x00];
    TwoDigits(0x06, '0', '6');
    TwoDigits(0x00, '0', '0');
    TwoDigits(0x10, '1', '0');
    TwoDigits(0x41, '4', '1');
    TwoDigits(0xA8, 'A', '8');
    TextSnoc([0x06], 0x00);
    TextSnoc([0x06] + [0x00], 0x00);
    assert [0x06] + [0x00] + [0x00] == a;
    TextSnoc(a, 0x10);
    TextSnoc(b, 0x00);
    TextSnoc(c, 0x41);
    TextSnoc(c + [0x41], 0xA8);
    assert c + [0x41] + [0xA8] == [0x06, 0x00, 0x00, 0x10, 0x00, 0x41, 0xA8];
  }

  lemma TwoDigits(b: byte, high: char, low: char)
    requires high == DigitChar(b / 16) && low == DigitChar(b % 16)
    ensures TextOf([b]) == [high, low]
  {
    assert [b][..0] == [] && TextOf([]) == [];
  }

  /** One data line in full: it puts 0x41 at 0x1000. */
  lemma KnownLine(total: nat)
    ensures Line("S3060000100041A8", total) == LineResult(true, [Out(0x1000, 0x41)], total + 1)
  {
    hide Line, TextOf, Sum, Be32;
    var bytes: seq<byte> := [0x00, 0x00, 0x10, 0x00, 0x41];
    FourBytes(0x1000);
    KnownSum(bytes);
    KnownText();
    assert Be32(0x1000) + [0x41] == bytes;
    assert [6 as byte] + (bytes + [0xA8]) == [0x06, 0x00, 0x00, 0x10, 0x00, 0x41, 0xA8];
    assert S3Line(0x1000, [0x41]) == "S3" + "060000100041A8" == "S3060000100041A8";
    S3LineRead(0x1000, [0x41], total);
    assert Outs(0x1000, [0x41]) == [Out(0x1000, 0x41)];
  }

  lemma KnownSum(bytes: seq<byte>)
    requires bytes == [0x00, 0x00, 0x10, 0x00, 0x41]
    ensures Sum(bytes) == 0x51 && Check(bytes) == 0xA8
  {
    assert bytes[..4] == [0x00, 0x00, 0x10, 0x00] && bytes[..4][..3] == [0x00, 0x00, 0x10];
    assert bytes[..4][..3][..2] == [0x00, 0x00] && bytes[..4][..3][..2][..1] == [0x00];
    assert Sum([0x00, 0x00]) == 0;
    assert Sum([0x00, 0x00, 0x10]) == 0x10;
    assert Sum([0x00, 0x00, 0x10, 0x00]) == 0x10;
  }
}
