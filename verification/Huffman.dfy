/** The canonical Huffman code of pack(1): the level table, the tree it stands for, and decoding. */
module Huffman {
  import opened Bytes

  /** Inner nodes at level `l`: half of all nodes of the next level.  `leaves[l]` counts the leaves of
      level `l`, the end-of-block leaf included; its codes have `l + 1` bits. */
  function Inner(leaves: seq<nat>, l: nat): nat
    requires l < |leaves|
    decreases |leaves| - l
  {
    if l == |leaves| - 1 then 0 else (Inner(leaves, l + 1) + leaves[l + 1]) / 2
  }

  function Nodes(leaves: seq<nat>, l: nat): nat
    requires l < |leaves|
  {
    Inner(leaves, l) + leaves[l]
  }

  /** Every inner node has two children, the root included, and the last level has a leaf. */
  predicate Complete(leaves: seq<nat>) {
    && |leaves| > 0 && leaves[|leaves| - 1] > 0
    && Nodes(leaves, 0) == 2
    && forall l :: 0 <= l < |leaves| - 1 ==> Nodes(leaves, l + 1) == 2 * Inner(leaves, l)
  }

  // ------------------------------------------------------------ completeness is Kraft's equality

  /** The sum over all leaves of 2^-(code length). */
  function KraftSum(leaves: seq<nat>): real {
    if leaves == [] then 0.0 else (leaves[0] as real + KraftSum(leaves[1..])) / 2.0
  }

  lemma {:induction false} InnerShift(leaves: seq<nat>, l: nat)
    requires 1 <= l < |leaves|
    ensures Inner(leaves[1..], l - 1) == Inner(leaves, l)
    decreases |leaves| - l
  {
    if l < |leaves| - 1 { InnerShift(leaves, l + 1); }
  }

  /** The levels below the first one, when `a` nodes stand at the first level. */
  predicate Balanced(leaves: seq<nat>, a: int) {
    && |leaves| > 0 && Nodes(leaves, 0) == a
    && forall l :: 0 <= l < |leaves| - 1 ==> Nodes(leaves, l + 1) == 2 * Inner(leaves, l)
  }

  lemma BalancedStep(leaves: seq<nat>, a: int)
    requires |leaves| > 1
    ensures Balanced(leaves, a) <==> Balanced(leaves[1..], 2 * (a - leaves[0]))
  {
    var rest := leaves[1..];
    forall l | 1 <= l < |leaves| ensures Nodes(rest, l - 1) == Nodes(leaves, l) && Inner(rest, l - 1) == Inner(leaves, l) {
      InnerShift(leaves, l);
    }
    if Balanced(rest, 2 * (a - leaves[0])) {
      assert Nodes(leaves, 1) == Nodes(rest, 0) == 2 * (a - leaves[0]);
      assert Inner(leaves, 0) == Nodes(leaves, 1) / 2;
      forall l | 0 <= l < |leaves| - 1 ensures Nodes(leaves, l + 1) == 2 * Inner(leaves, l) {
        if l > 0 { assert Nodes(rest, (l - 1) + 1) == 2 * Inner(rest, l - 1); }
      }
    }
    if Balanced(leaves, a) {
      assert Nodes(leaves, 0 + 1) == 2 * Inner(leaves, 0);
      forall l | 0 <= l < |rest| - 1 ensures Nodes(rest, l + 1) == 2 * Inner(rest, l) {
        assert Nodes(leaves, (l + 1) + 1) == 2 * Inner(leaves, l + 1);
      }
    }
  }

  lemma {:induction false} BalancedKraft(leaves: seq<nat>, a: int)
    requires |leaves| > 0
    ensures Balanced(leaves, a) <==> 2.0 * KraftSum(leaves) == a as real
  {
    if |leaves| == 1 {
      assert KraftSum(leaves[1..]) == 0.0;
    } else {
      BalancedStep(leaves, a);
      BalancedKraft(leaves[1..], 2 * (a - leaves[0]));
    }
  }

  /** A level table describes a complete tree exactly when it meets Kraft's inequality with equality. */
  lemma CompleteKraft(leaves: seq<nat>)
    ensures Complete(leaves) <==> |leaves| > 0 && leaves[|leaves| - 1] > 0 && KraftSum(leaves) == 1.0
  {
    if |leaves| > 0 { BalancedKraft(leaves, 2); }
  }

  // ------------------------------------------------------------ codes

  datatype Leaf = Leaf(level: nat, index: nat)

  predicate IsLeaf(leaves: seq<nat>, x: Leaf) { x.level < |leaves| && x.index < leaves[x.level] }

  /** The end-of-block leaf: the last code of the last level. */
  predicate IsEob(leaves: seq<nat>, x: Leaf) {
    |leaves| > 0 && x.level == |leaves| - 1 && x.index + 1 == leaves[|leaves| - 1]
  }

  /** A leaf that stands for a byte. */
  predicate IsSymbol(leaves: seq<nat>, x: Leaf) { IsLeaf(leaves, x) && !IsEob(leaves, x) }

  predicate AllSymbols(leaves: seq<nat>, xs: seq<Leaf>) {
    forall i :: 0 <= i < |xs| ==> IsSymbol(leaves, xs[i])
  }

  /** The low `n` bits of `v`, most significant first. */
  function Bits(v: nat, n: nat): (r: seq<bool>)
    ensures |r| == n
  {
    if n == 0 then [] else Bits(v / 2, n - 1) + [v % 2 == 1]
  }

  function Code(leaves: seq<nat>, x: Leaf): seq<bool>
    requires x.level < |leaves|
  {
    Bits(Inner(leaves, x.level) + x.index, x.level + 1)
  }

  function Codes(leaves: seq<nat>, xs: seq<Leaf>): seq<bool>
    requires AllSymbols(leaves, xs)
  {
    if xs == [] then [] else Code(leaves, xs[0]) + Codes(leaves, xs[1..])
  }

  function Eob(leaves: seq<nat>): Leaf
    requires Complete(leaves)
  {
    Leaf(|leaves| - 1, leaves[|leaves| - 1] - 1)
  }

  // ------------------------------------------------------------ decoding

  /** Where decoding may stand: about to read the bit that completes a code of level `level`, with
      `code` naming an inner node of the level above (or the root). */
  predicate Reachable(leaves: seq<nat>, level: nat, code: nat) {
    level < |leaves| && (if level == 0 then code == 0 else code < Inner(leaves, level - 1))
  }

  function Bit(b: bool): nat { if b then 1 else 0 }

  /** From any reachable state, the next bit names a node of the current level; an inner node leads to
      a reachable state of the next level. */
  lemma StepStays(leaves: seq<nat>, level: nat, code: nat, b: bool)
    requires Complete(leaves) && Reachable(leaves, level, code)
    ensures 2 * code + Bit(b) < Nodes(leaves, level)
    ensures 2 * code + Bit(b) < Inner(leaves, level) ==> Reachable(leaves, level + 1, 2 * code + Bit(b))
  {
    if level > 0 { assert Nodes(leaves, (level - 1) + 1) == 2 * Inner(leaves, level - 1); }
  }

  datatype Decoded = Decoded(leaves: seq<Leaf>, finished: bool)

  function Run(leaves: seq<nat>, bits: seq<bool>, level: nat, code: nat): (r: Decoded)
    requires Complete(leaves) && Reachable(leaves, level, code)
    ensures AllSymbols(leaves, r.leaves)
    decreases |bits|
  {
    if bits == [] then Decoded([], false)
    else
      StepStays(leaves, level, code, bits[0]);
      var c := 2 * code + Bit(bits[0]);
      if c < Inner(leaves, level) then Run(leaves, bits[1..], level + 1, c)
      else if IsEob(leaves, Leaf(level, c - Inner(leaves, level))) then Decoded([], true)
      else
        var rest := Run(leaves, bits[1..], 0, 0);
        Decoded([Leaf(level, c - Inner(leaves, level))] + rest.leaves, rest.finished)
  }

  /** What is decoded after the node `v` of level `l` has been read. */
  function After(leaves: seq<nat>, l: nat, v: nat, tail: seq<bool>): (r: Decoded)
    requires Complete(leaves) && l < |leaves| && v < Nodes(leaves, l)
    requires v < Inner(leaves, l) ==> Reachable(leaves, l + 1, v)
  {
    if v < Inner(leaves, l) then Run(leaves, tail, l + 1, v)
    else if IsEob(leaves, Leaf(l, v - Inner(leaves, l))) then Decoded([], true)
    else
      var rest := Run(leaves, tail, 0, 0);
      Decoded([Leaf(l, v - Inner(leaves, l))] + rest.leaves, rest.finished)
  }

  lemma InnerBelow(leaves: seq<nat>, l: nat, v: nat)
    requires Complete(leaves) && l < |leaves| && v < Nodes(leaves, l)
    ensures l == 0 ==> v / 2 == 0
    ensures l > 0 ==> v / 2 < Inner(leaves, l - 1) && Inner(leaves, l - 1) <= Nodes(leaves, l - 1)
    ensures v < Inner(leaves, l) ==> Reachable(leaves, l + 1, v)
  {
    if l > 0 { assert Nodes(leaves, (l - 1) + 1) == 2 * Inner(leaves, l - 1); }
  }

  lemma RunStep(leaves: seq<nat>, level: nat, code: nat, b: bool, tail: seq<bool>)
    requires Complete(leaves) && Reachable(leaves, level, code)
    ensures 2 * code + Bit(b) < Nodes(leaves, level)
    ensures 2 * code + Bit(b) < Inner(leaves, level) ==> Reachable(leaves, level + 1, 2 * code + Bit(b))
    ensures Run(leaves, [b] + tail, level, code) == After(leaves, level, 2 * code + Bit(b), tail)
  {
    StepStays(leaves, level, code, b);
    assert ([b] + tail)[1..] == tail;
  }

  /** Reading the bits of a node from the root arrives at that node. */
  lemma {:induction false} ReadNode(leaves: seq<nat>, l: nat, v: nat, tail: seq<bool>)
    requires Complete(leaves) && l < |leaves| && v < Nodes(leaves, l)
    ensures v < Inner(leaves, l) ==> Reachable(leaves, l + 1, v)
    ensures Run(leaves, Bits(v, l + 1) + tail, 0, 0) == After(leaves, l, v, tail)
  {
    hide Complete, Inner, IsEob;
    InnerBelow(leaves, l, v);
    var b := v % 2 == 1;
    Halves(v);
    if l == 0 {
      assert Bits(v, 1) + tail == [b] + tail;
      RunStep(leaves, 0, 0, b, tail);
    } else {
      assert Bits(v, l + 1) + tail == Bits(v / 2, l) + ([b] + tail);
      ReadNode(leaves, l - 1, v / 2, [b] + tail);
      RunStep(leaves, l, v / 2, b, tail);
    }
  }

  lemma Halves(v: nat)
    ensures v == 2 * (v / 2) + Bit(v % 2 == 1)
  {
  }

  lemma LeafNode(leaves: seq<nat>, x: Leaf)
    requires Complete(leaves) && IsLeaf(leaves, x)
    ensures Inner(leaves, x.level) <= Inner(leaves, x.level) + x.index < Nodes(leaves, x.level)
  {
  }

  /** Decoding inverts the code: whatever bits follow the end-of-block code, the leaves come back. */
  lemma {:induction false} RunCodes(leaves: seq<nat>, xs: seq<Leaf>, tail: seq<bool>)
    requires Complete(leaves) && AllSymbols(leaves, xs)
    ensures Run(leaves, Codes(leaves, xs) + (Code(leaves, Eob(leaves)) + tail), 0, 0) == Decoded(xs, true)
  {
    hide Complete, Inner, Run, Bits;
    var end := Code(leaves, Eob(leaves)) + tail;
    if xs == [] {
      EobIs(leaves);
      LeafNode(leaves, Eob(leaves));
      ReadNode(leaves, |leaves| - 1, Inner(leaves, |leaves| - 1) + Eob(leaves).index, tail);
      assert Codes(leaves, xs) + end == end;
    } else {
      var x, rest := xs[0], xs[1..];
      RunCodes(leaves, rest, tail);
      LeafNode(leaves, x);
      ReadNode(leaves, x.level, Inner(leaves, x.level) + x.index, Codes(leaves, rest) + end);
      assert Codes(leaves, xs) + end == Code(leaves, x) + (Codes(leaves, rest) + end);
    }
  }

  lemma EobIs(leaves: seq<nat>)
    requires Complete(leaves)
    ensures |leaves| > 0 && IsLeaf(leaves, Eob(leaves)) && IsEob(leaves, Eob(leaves)) && Eob(leaves).level == |leaves| - 1
  {
  }

  /** The bits that a decoding result accounts for, when `rest` is left over. */
  function Consumed(leaves: seq<nat>, r: Decoded, rest: seq<bool>): seq<bool>
    requires Complete(leaves) && AllSymbols(leaves, r.leaves)
  {
    Codes(leaves, r.leaves) + (if r.finished then Code(leaves, Eob(leaves)) + rest else rest)
  }

  lemma ConsumedParts(leaves: seq<nat>, x: Leaf, r: Decoded, rest: seq<bool>)
    requires Complete(leaves) && AllSymbols(leaves, r.leaves)
    ensures Consumed(leaves, Decoded([], false), rest) == rest
    ensures Consumed(leaves, Decoded([], true), rest) == Code(leaves, Eob(leaves)) + rest
    ensures IsSymbol(leaves, x) ==> AllSymbols(leaves, [x] + r.leaves)
                                    && Consumed(leaves, Decoded([x] + r.leaves, r.finished), rest)
                                       == Code(leaves, x) + Consumed(leaves, r, rest)
  {
    hide Complete, Code;
    assert ([x] + r.leaves)[1..] == r.leaves;
  }

  /** The other direction: whatever was decoded, the bits read are the codes of the decoded leaves,
      then the end-of-block code or an unfinished code. */
  lemma {:induction false} RunReads(leaves: seq<nat>, bits: seq<bool>, level: nat, code: nat) returns (rest: seq<bool>)
    requires Complete(leaves) && Reachable(leaves, level, code)
    ensures Bits(code, level) + bits == Consumed(leaves, Run(leaves, bits, level, code), rest)
    decreases |bits|
  {
    hide Complete, Inner, Run, Bits, Reachable, Consumed, Codes, IsSymbol;
    ZeroReachable(leaves);
    RunNothing(leaves, level, code);
    if bits == [] {
      rest := Bits(code, level);
      ConsumedParts(leaves, Eob(leaves), Decoded([], false), rest);
      assert Bits(code, level) + bits == Bits(code, level);
    } else {
      var b, tail := bits[0], bits[1..];
      var c := 2 * code + Bit(b);
      assert bits == [b] + tail;
      RunStep(leaves, level, code, b, tail);
      BitsSnoc(code, level, b, tail);
      if c < Inner(leaves, level) {
        rest := RunReads(leaves, tail, level + 1, c);
      } else {
        var x := Leaf(level, c - Inner(leaves, level));
        if IsEob(leaves, x) {
          EobUnique(leaves, x);
          rest := tail;
          ConsumedParts(leaves, x, Decoded([], true), rest);
        } else {
          rest := RunReads(leaves, tail, 0, 0);
          NoBits(tail);
          LeafHere(leaves, level, c);
          ConsumedParts(leaves, x, Run(leaves, tail, 0, 0), rest);
        }
      }
    }
  }

  lemma NoBits(tail: seq<bool>)
    ensures Bits(0, 0) + tail == tail
  {
  }

  lemma LeafHere(leaves: seq<nat>, level: nat, c: nat)
    requires level < |leaves| && Inner(leaves, level) <= c < Nodes(leaves, level)
    ensures var x := Leaf(level, c - Inner(leaves, level));
            IsLeaf(leaves, x) && (!IsEob(leaves, x) ==> IsSymbol(leaves, x))
  {
  }

  lemma RunNothing(leaves: seq<nat>, level: nat, code: nat)
    requires Complete(leaves) && Reachable(leaves, level, code)
    ensures level < |leaves| && Run(leaves, [], level, code) == Decoded([], false)
  {
  }

  lemma ZeroReachable(leaves: seq<nat>)
    requires Complete(leaves)
    ensures Reachable(leaves, 0, 0)
  {
  }

  lemma EobUnique(leaves: seq<nat>, x: Leaf)
    requires Complete(leaves) && IsEob(leaves, x)
    ensures x == Eob(leaves)
  {
  }

  lemma BitsSnoc(code: nat, level: nat, b: bool, tail: seq<bool>)
    ensures Bits(code, level) + ([b] + tail) == Bits(2 * code + Bit(b), level + 1) + tail
  {
    assert (2 * code + Bit(b)) / 2 == code;
  }

  // ------------------------------------------------------------ the packed file

  /** Bits of a byte, most significant first. */
  function ByteBits(b: byte): (r: seq<bool>)
    ensures |r| == 8
  {
    Bits(b, 8)
  }

  function StreamBits(s: seq<byte>): seq<bool> {
    if s == [] then [] else ByteBits(s[0]) + StreamBits(s[1..])
  }

  /** Index of the first symbol of level `l` in the symbol table. */
  function Offset(leaves: seq<nat>, l: nat): nat
    requires l <= |leaves|
  {
    if l == 0 then 0 else Offset(leaves, l - 1) + leaves[l - 1]
  }

  lemma {:induction false} OffsetGrows(leaves: seq<nat>, k: nat, l: nat)
    requires k < l <= |leaves|
    ensures Offset(leaves, k) + leaves[k] <= Offset(leaves, l)
  {
    if k < l - 1 { OffsetGrows(leaves, k, l - 1); }
  }

  /** The position behind the last transmitted symbol belongs to the end-of-block leaf and no other. */
  lemma EobPointer(leaves: seq<nat>, x: Leaf)
    requires Complete(leaves) && IsLeaf(leaves, x)
    ensures Offset(leaves, x.level) + x.index == Offset(leaves, |leaves|) - 1 <==> IsEob(leaves, x)
    ensures Offset(leaves, x.level) + x.index < Offset(leaves, |leaves|)
  {
    OffsetGrows(leaves, x.level, |leaves|);
    if x.level < |leaves| - 1 { OffsetGrows(leaves, x.level, |leaves| - 1); }
  }

  /** The bytes that the leaves stand for. */
  function SymbolsOf(leaves: seq<nat>, symbols: seq<byte>, xs: seq<Leaf>): seq<byte>
    requires Complete(leaves) && |symbols| + 1 == Offset(leaves, |leaves|)
    requires AllSymbols(leaves, xs)
  {
    if xs == [] then []
    else
      EobPointer(leaves, xs[0]);
      [symbols[Offset(leaves, xs[0].level) + xs[0].index]] + SymbolsOf(leaves, symbols, xs[1..])
  }

  function LevelCount(file: seq<byte>, n: nat, i: nat): nat
    requires i < n < |file|
  {
    var raw: nat := file[1 + i];
    if i == n - 1 then raw + 2 else raw
  }

  const MAX_LEVEL := 24

  /** The level table of a file: one byte a level, the last one reduced by two. */
  function LevelTable(file: seq<byte>): (leaves: seq<nat>)
    requires |file| > 0 && 0 < file[0] && 1 + file[0] <= |file|
    ensures |leaves| == file[0]
  {
    var n := file[0] as nat;
    seq(n, i requires 0 <= i < n => LevelCount(file, n, i))
  }

  /** Where the symbols end and the code starts. */
  function BodyStart(file: seq<byte>): nat
    requires |file| > 0 && 0 < file[0] && 1 + file[0] <= |file|
  {
    var leaves := LevelTable(file);
    file[0] + Offset(leaves, |leaves|)
  }

  predicate WellFormed(file: seq<byte>) {
    && |file| > 0 && 0 < file[0] <= MAX_LEVEL && 1 + file[0] <= |file|
    && Complete(LevelTable(file)) && BodyStart(file) <= |file|
  }

  function Symbols(file: seq<byte>): (s: seq<byte>)
    requires WellFormed(file)
    ensures |s| + 1 == Offset(LevelTable(file), |LevelTable(file)|)
  {
    TableNotEmpty(LevelTable(file));
    file[1 + file[0]..BodyStart(file)]
  }

  lemma TableNotEmpty(leaves: seq<nat>)
    requires Complete(leaves)
    ensures Offset(leaves, |leaves|) > 0
  {
    OffsetGrows(leaves, |leaves| - 1, |leaves|);
  }

  function Unpacked(file: seq<byte>): seq<byte>
    requires WellFormed(file)
  {
    var leaves := LevelTable(file);
    SymbolsOf(leaves, Symbols(file), Run(leaves, StreamBits(file[BodyStart(file)..]), 0, 0).leaves)
  }

  /** A file whose code is that of `xs` unpacks to the bytes of `xs`, whatever pads the last byte and
      follows it. */
  lemma UnpackCodes(file: seq<byte>, xs: seq<Leaf>, tail: seq<bool>)
    requires WellFormed(file) && AllSymbols(LevelTable(file), xs)
    requires StreamBits(file[BodyStart(file)..])
          == Codes(LevelTable(file), xs) + (Code(LevelTable(file), Eob(LevelTable(file))) + tail)
    ensures Unpacked(file) == SymbolsOf(LevelTable(file), Symbols(file), xs)
  {
    hide Complete, Codes, Code, SymbolsOf, Run, LevelTable, StreamBits;
    RunCodes(LevelTable(file), xs, tail);
  }

  // ------------------------------------------------------------ the packer

  /** Level tables that the header can carry: at least two leaves on the last level, one of them the
      end of block, and counts that fit their bytes. */
  predicate Packable(leaves: seq<nat>) {
    && Complete(leaves) && |leaves| <= MAX_LEVEL
    && (forall i :: 0 <= i < |leaves| - 1 ==> leaves[i] < 256)
    && 2 <= leaves[|leaves| - 1] < 258
  }

  function Value(bits: seq<bool>): nat {
    if bits == [] then 0 else 2 * Value(bits[..|bits| - 1]) + Bit(bits[|bits| - 1])
  }

  lemma {:induction false} ValueBits(bits: seq<bool>)
    ensures Bits(Value(bits), |bits|) == bits
    ensures |bits| == 8 ==> Value(bits) < 256
  {
    ValueBound(bits);
    if bits != [] {
      hide Power2;
      var front, last := bits[..|bits| - 1], bits[|bits| - 1];
      var v := Value(front);
      ValueBits(front);
      assert Value(bits) == 2 * v + Bit(last);
      assert (2 * v + Bit(last)) / 2 == v && (2 * v + Bit(last)) % 2 == Bit(last);
      assert bits == front + [last];
    }
  }

  lemma {:induction false} ValueBound(bits: seq<bool>)
    ensures |bits| <= 8 ==> Value(bits) < Power2(|bits|) && Power2(8) == 256
  {
    assert Power2(8) == 256 by {
      assert Power2(4) == 16;
    }
    if bits != [] && |bits| <= 8 { ValueBound(bits[..|bits| - 1]); }
  }

  /** Bits packed into bytes, the last byte filled with zeros. */
  function PackBits(bits: seq<bool>): seq<byte>
    decreases |bits|
  {
    if bits == [] then []
    else if |bits| < 8 then
      var full := bits + seq(8 - |bits|, i => false);
      ValueBits(full);
      [Value(full)]
    else
      ValueBits(bits[..8]);
      [Value(bits[..8])] + PackBits(bits[8..])
  }

  lemma StreamCons(b: byte, rest: seq<byte>)
    ensures StreamBits([b] + rest) == ByteBits(b) + StreamBits(rest)
  {
    assert ([b] + rest)[1..] == rest;
  }

  lemma {:induction false} PackStream(bits: seq<bool>, more: seq<byte>) returns (tail: seq<bool>)
    ensures StreamBits(PackBits(bits) + more) == bits + tail
    decreases |bits|
  {
    hide StreamBits, Bits, Value;
    if bits == [] {
      assert PackBits(bits) + more == more;
      tail := StreamBits(more);
      assert bits + tail == tail;
    } else if |bits| < 8 {
      var zeros := seq(8 - |bits|, i => false);
      ValueBits(bits + zeros);
      StreamCons(Value(bits + zeros), more);
      tail := zeros + StreamBits(more);
      assert bits + zeros + StreamBits(more) == bits + tail;
    } else {
      ValueBits(bits[..8]);
      tail := PackStream(bits[8..], more);
      assert PackBits(bits) + more == [Value(bits[..8])] + (PackBits(bits[8..]) + more);
      StreamCons(Value(bits[..8]), PackBits(bits[8..]) + more);
      assert bits[..8] + (bits[8..] + tail) == bits + tail;
    }
  }

  function RawCounts(leaves: seq<nat>): (r: seq<byte>)
    requires Packable(leaves)
    ensures |r| == |leaves|
  {
    seq(|leaves|, i requires 0 <= i < |leaves| => RawCount(leaves, i))
  }

  function RawCount(leaves: seq<nat>, i: nat): byte
    requires Packable(leaves) && i < |leaves|
  {
    if i == |leaves| - 1 then leaves[i] - 2 else leaves[i]
  }

  /** The file for the leaves `xs`: header, level counts, symbols, code, and anything after it. */
  function Packed(leaves: seq<nat>, symbols: seq<byte>, xs: seq<Leaf>, more: seq<byte>): seq<byte>
    requires Packable(leaves) && AllSymbols(leaves, xs) && |symbols| + 1 == Offset(leaves, |leaves|)
  {
    [|leaves|] + RawCounts(leaves) + symbols + PackBits(Codes(leaves, xs) + Code(leaves, Eob(leaves))) + more
  }

  lemma PackedHeader(leaves: seq<nat>, symbols: seq<byte>, xs: seq<Leaf>, more: seq<byte>)
    requires Packable(leaves) && AllSymbols(leaves, xs) && |symbols| + 1 == Offset(leaves, |leaves|)
    ensures var file := Packed(leaves, symbols, xs, more);
            && WellFormed(file) && LevelTable(file) == leaves && Symbols(file) == symbols
            && file[BodyStart(file)..] == PackBits(Codes(leaves, xs) + Code(leaves, Eob(leaves))) + more
  {
    hide Complete, PackBits, Codes, Code, Offset;
    var n := |leaves|;
    var body := PackBits(Codes(leaves, xs) + Code(leaves, Eob(leaves))) + more;
    var counts := RawCounts(leaves);
    var file := Packed(leaves, symbols, xs, more);
    assert file == [n] + counts + symbols + body;
    forall i | 0 <= i < n ensures LevelTable(file)[i] == leaves[i] {
      assert file[1 + i] == counts[i] == RawCount(leaves, i);
    }
    assert LevelTable(file) == leaves;
  }

  /** Unpacking a packed file gives back exactly the bytes that were packed, whatever follows them. */
  lemma UnpackPacked(leaves: seq<nat>, symbols: seq<byte>, xs: seq<Leaf>, more: seq<byte>)
    requires Packable(leaves) && AllSymbols(leaves, xs) && |symbols| + 1 == Offset(leaves, |leaves|)
    ensures var file := Packed(leaves, symbols, xs, more);
            WellFormed(file) && Unpacked(file) == SymbolsOf(leaves, symbols, xs)
  {
    hide Complete, PackBits, Codes, Code, Offset, Run, SymbolsOf, StreamBits, Packed, BodyStart, LevelTable, Symbols,
         WellFormed, Unpacked, Eob;
    EobIs(leaves);
    PackedHeader(leaves, symbols, xs, more);
    var bits, end := Codes(leaves, xs), Code(leaves, Eob(leaves));
    var tail := PackStream(bits + end, more);
    assert bits + end + tail == bits + (end + tail);
    UnpackCodes(Packed(leaves, symbols, xs, more), xs, tail);
  }

  /** The leaf at position `k` of the symbol table, searched among the first `l` levels. */
  function LeafAt(leaves: seq<nat>, k: nat, l: nat): (x: Leaf)
    requires l <= |leaves| && k < Offset(leaves, l)
    ensures IsLeaf(leaves, x) && Offset(leaves, x.level) + x.index == k
  {
    if k >= Offset(leaves, l - 1) then Leaf(l - 1, k - Offset(leaves, l - 1)) else LeafAt(leaves, k, l - 1)
  }

  /** First position of `b` in the symbol table. */
  function Find(symbols: seq<byte>, b: byte): (k: nat)
    requires b in symbols
    ensures k < |symbols| && symbols[k] == b
  {
    if symbols[0] == b then 0 else 1 + Find(symbols[1..], b)
  }

  function Encode(leaves: seq<nat>, symbols: seq<byte>, data: seq<byte>): (xs: seq<Leaf>)
    requires Complete(leaves) && |symbols| + 1 == Offset(leaves, |leaves|) && forall i :: 0 <= i < |data| ==> data[i] in symbols
    ensures AllSymbols(leaves, xs)
  {
    if data == [] then []
    else
      var x := LeafAt(leaves, Find(symbols, data[0]), |leaves|);
      EobPointer(leaves, x);
      [x] + Encode(leaves, symbols, data[1..])
  }

  lemma {:induction false} SymbolsOfEncode(leaves: seq<nat>, symbols: seq<byte>, data: seq<byte>)
    requires Complete(leaves) && |symbols| + 1 == Offset(leaves, |leaves|) && forall i :: 0 <= i < |data| ==> data[i] in symbols
    ensures SymbolsOf(leaves, symbols, Encode(leaves, symbols, data)) == data
  {
    hide Complete, Offset;
    if data != [] {
      SymbolsOfEncode(leaves, symbols, data[1..]);
      var xs := Encode(leaves, symbols, data);
      assert xs[1..] == Encode(leaves, symbols, data[1..]);
    }
  }

  /** Every byte sequence over the symbol table survives packing and unpacking. */
  lemma UnpackPackedBytes(leaves: seq<nat>, symbols: seq<byte>, data: seq<byte>, more: seq<byte>)
    requires Packable(leaves) && |symbols| + 1 == Offset(leaves, |leaves|) && forall i :: 0 <= i < |data| ==> data[i] in symbols
    ensures var file := Packed(leaves, symbols, Encode(leaves, symbols, data), more);
            WellFormed(file) && Unpacked(file) == data
  {
    UnpackPacked(leaves, symbols, Encode(leaves, symbols, data), more);
    SymbolsOfEncode(leaves, symbols, data);
  }

  // ------------------------------------------------------------ a file bit by bit

  /** Two levels: "a" at the first, "b" and the end of block at the second. */
  const TWO_LEVELS: seq<nat> := [1, 2]

  lemma TwoLevels()
    ensures Complete(TWO_LEVELS) && Offset(TWO_LEVELS, 0) == 0 && Offset(TWO_LEVELS, 1) == 1 && Offset(TWO_LEVELS, 2) == 3
    ensures Inner(TWO_LEVELS, 0) == 1 && Inner(TWO_LEVELS, 1) == 0
  {
    assert Nodes(TWO_LEVELS, 1) == 2 && Inner(TWO_LEVELS, 0) == 1 && Nodes(TWO_LEVELS, 0) == 2;
    assert Offset(TWO_LEVELS, 1) == 1;
  }

  lemma TwoLevelCodes()
    ensures Code(TWO_LEVELS, Leaf(0, 0)) == [true] && Code(TWO_LEVELS, Leaf(1, 0)) == [false, false]
    ensures Code(TWO_LEVELS, Leaf(1, 1)) == [false, true]
  {
    TwoLevels();
    hide Inner, Complete;
    assert Bits(1, 1) == [true] && Bits(0, 1) == [false];
    assert Bits(0, 2) == Bits(0, 1) + [false] && Bits(1, 2) == Bits(0, 1) + [true];
  }

  lemma KnownBits()
    ensures ByteBits(0x9A) == [true, false, false, true, true, false, true, false]
  {
    assert Bits(1, 1) == [true];
    assert Bits(2, 2) == Bits(1, 1) + [false];
    assert Bits(4, 3) == Bits(2, 2) + [false];
    assert Bits(9, 4) == Bits(4, 3) + [true];
    assert Bits(0x13, 5) == Bits(9, 4) + [true];
    assert Bits(0x26, 6) == Bits(0x13, 5) + [false];
    assert Bits(0x4D, 7) == Bits(0x26, 6) + [true];
    assert Bits(0x9A, 8) == Bits(0x4D, 7) + [false];
  }

  /** The header: two levels with one and two leaves, and their two symbols; the code starts behind these. */
  lemma KnownHeader(file: seq<byte>)
    requires |file| == 6 && file[..5] == [2, 1, 0, 0x61, 0x62]
    ensures WellFormed(file) && LevelTable(file) == TWO_LEVELS && BodyStart(file) == 5
    ensures Symbols(file) == [0x61, 0x62]
  {
    TwoLevels();
    hide Inner, Complete, Offset;
    assert file[0] == file[..5][0] && file[1] == file[..5][1] && file[2] == file[..5][2];
    assert file[3] == file[..5][3] && file[4] == file[..5][4];
    assert LevelTable(file) == TWO_LEVELS;
  }

  /** One leaf in front of others. */
  lemma KnownSymbol(x: Leaf, xs: seq<Leaf>)
    requires x == Leaf(0, 0) || x == Leaf(1, 0)
    requires Complete(TWO_LEVELS) && Offset(TWO_LEVELS, 2) == 3 && AllSymbols(TWO_LEVELS, xs)
    ensures AllSymbols(TWO_LEVELS, [x] + xs)
    ensures SymbolsOf(TWO_LEVELS, [0x61, 0x62], [x] + xs)
            == [if x.level == 0 then 0x61 else 0x62] + SymbolsOf(TWO_LEVELS, [0x61, 0x62], xs)
    ensures Codes(TWO_LEVELS, [x] + xs) == (if x.level == 0 then [true] else [false, false]) + Codes(TWO_LEVELS, xs)
  {
    TwoLevels();
    TwoLevelCodes();
    hide Inner, Complete, Offset, Code;
    assert ([x] + xs)[1..] == xs;
    assert IsSymbol(TWO_LEVELS, x);
    forall i | 0 <= i < |[x] + xs| ensures IsSymbol(TWO_LEVELS, ([x] + xs)[i]) {
      if i > 0 { assert ([x] + xs)[i] == xs[i - 1]; }
    }
  }

  lemma KnownSymbols(xs: seq<Leaf>)
    requires xs == [Leaf(0, 0), Leaf(1, 0), Leaf(0, 0), Leaf(0, 0)]
    ensures Complete(TWO_LEVELS) && Offset(TWO_LEVELS, 2) == 3 && AllSymbols(TWO_LEVELS, xs)
    ensures SymbolsOf(TWO_LEVELS, [0x61, 0x62], xs) == [0x61, 0x62, 0x61, 0x61]
    ensures Codes(TWO_LEVELS, xs) == [true, false, false, true, true]
  {
    TwoLevels();
    hide Inner, Complete, Offset, Code, IsSymbol;
    var a, b := Leaf(0, 0), Leaf(1, 0);
    KnownSymbol(a, []);
    KnownSymbol(a, [a] + []);
    KnownSymbol(b, [a] + ([a] + []));
    KnownSymbol(a, [b] + ([a] + ([a] + [])));
    assert xs == [a] + ([b] + ([a] + ([a] + [])));
  }

  /** "abaa", whose codes 1, 00, 1, 1 and the end-of-block code 01 fill the byte 0x9A with one bit to spare. */
  lemma KnownFile()
    ensures var file: seq<byte> := [2, 1, 0, 0x61, 0x62, 0x9A];
            WellFormed(file) && Unpacked(file) == [0x61, 0x62, 0x61, 0x61]
  {
    hide Inner, Complete, Offset, Code, Run, SymbolsOf, Codes, ByteBits, LevelTable, BodyStart, WellFormed, Unpacked,
      Symbols;
    var file: seq<byte> := [2, 1, 0, 0x61, 0x62, 0x9A];
    var xs := [Leaf(0, 0), Leaf(1, 0), Leaf(0, 0), Leaf(0, 0)];
    KnownHeader(file);
    KnownSymbols(xs);
    KnownBits();
    TwoLevelCodes();
    assert Eob(TWO_LEVELS) == Leaf(1, 1);
    assert file[5..] == [0x9A] && [0x9A as byte][1..] == [];
    assert StreamBits([0x9A]) == ByteBits(0x9A) + StreamBits([]) == ByteBits(0x9A);
    UnpackCodes(file, xs, [false]);
  }
}
