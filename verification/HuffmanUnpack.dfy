/** The unpacker: its descriptor tables, filled in place, and the bit-by-bit decoding loop. */
module HuffmanUnpack {
  import opened Bytes
  import opened Huffman

  class Unpacker {
    var treelevels: nat
    var symbolsin: array<nat>
    var inodesin: array<nat>
    var symbol: array<byte>
    var tree: array<nat>        // offsets into `symbol`
    var symbolEob: nat          // likewise; one past the last symbol

    /** The tables describe `file`. */
    ghost predicate Describes(file: seq<byte>)
      reads this, symbolsin, inodesin, symbol, tree
    {
      && WellFormed(file)
      && var leaves := LevelTable(file);
         && treelevels + 1 == |leaves| && symbolsin[..] == leaves && symbol[..] == Symbols(file)
         && inodesin.Length == tree.Length == |leaves|
         && (forall l :: 0 <= l < |leaves| ==> inodesin[l] == Inner(leaves, l) && tree[l] == Offset(leaves, l))
         && symbolEob == symbol.Length
    }

    constructor ()
      ensures fresh(symbolsin) && fresh(inodesin) && fresh(symbol) && fresh(tree)
    {
      treelevels, symbolEob := 0, 0;
      symbolsin, inodesin, tree, symbol := new nat[0], new nat[0], new nat[0], new byte[0];
    }

    /** Fills the inner-node counts of this level and all levels below it, the last one first. */
    method FillInodesin(level: nat)
      requires level <= treelevels && symbolsin.Length == inodesin.Length == treelevels + 1 && symbolsin != inodesin
      modifies inodesin
      ensures forall l :: level <= l <= treelevels ==> inodesin[l] == Inner(symbolsin[..], l)
      ensures forall l :: 0 <= l < level ==> inodesin[l] == old(inodesin[l])
      decreases treelevels - level
    {
      if level < treelevels {
        FillInodesin(level + 1);
        inodesin[level] := (inodesin[level + 1] + symbolsin[level + 1]) / 2;
      } else {
        inodesin[level] := 0;
      }
    }

    /** The three tables are distinct and have one element for each of the `levels` levels. */
    ghost predicate Sized(levels: nat)
      reads this
    {
      && inodesin != symbolsin && inodesin != tree && symbolsin != tree
      && inodesin.Length == symbolsin.Length == tree.Length == levels == treelevels + 1
    }

    /** Allocates the tables and reads the level counts. */
    method ReadCounts(file: seq<byte>) returns (pos: nat, symbolSize: nat)
      requires WellFormed(file)
      modifies this
      ensures Sized(file[0]) && fresh(inodesin) && fresh(symbolsin) && fresh(tree)
      ensures pos == 1 + file[0] && symbolSize == |Symbols(file)|
      ensures forall k :: 0 <= k <= treelevels ==> symbolsin[k] == file[1 + k] as nat
    {
      hide Complete, Offset;
      ghost var leaves := LevelTable(file);
      var levels: nat := file[0];
      inodesin, symbolsin, tree := new nat[levels], new nat[levels], new nat[levels];
      treelevels := levels - 1;
      OffsetNext(leaves, 0);
      pos, symbolSize := 1, 1;
      var i := 0;
      while i <= treelevels
        invariant i <= levels && pos == 1 + i && Sized(levels) && fresh(inodesin) && fresh(symbolsin) && fresh(tree)
        invariant forall k :: 0 <= k < i ==> symbolsin[k] == file[1 + k] as nat
        invariant symbolSize == 1 + Offset(leaves, i) - if i == levels then 2 else 0
      {
        symbolsin[i] := file[pos];
        symbolSize := symbolSize + symbolsin[i];
        assert leaves[i] == LevelCount(file, levels, i);
        OffsetNext(leaves, i);
        i, pos := i + 1, pos + 1;
      }
    }

    /** Reads the symbols of one level. */
    method ReadLevel(file: seq<byte>, i: nat, start: nat) returns (pos: nat)
      requires i < symbolsin.Length && start + symbolsin[i] <= |file| && symbolEob + symbolsin[i] <= symbol.Length
      modifies symbol, this`symbolEob
      ensures pos == start + symbolsin[i] && symbolEob == old(symbolEob) + symbolsin[i]
      ensures symbol[..symbolEob] == old(symbol[..symbolEob]) + file[start..pos]
    {
      var j := 0;
      pos := start;
      while j < symbolsin[i]
        invariant j <= symbolsin[i] && pos == start + j && symbolEob == old(symbolEob) + j
        invariant symbol[..symbolEob] == old(symbol[..symbolEob]) + file[start..pos]
      {
        symbol[symbolEob] := file[pos];
        symbolEob, pos, j := symbolEob + 1, pos + 1, j + 1;
      }
    }

    /** Reads all symbols, level by level, and notes where each level starts. */
    method ReadSymbols(file: seq<byte>, start: nat, ghost leaves: seq<nat>) returns (pos: nat)
      requires Sized(|leaves|) && symbol.Length + 1 == Offset(leaves, |leaves|) && start + symbol.Length <= |file|
      requires forall k :: 0 <= k < |leaves| ==> symbolsin[k] + (if k == |leaves| - 1 then 1 else 0) == leaves[k]
      modifies tree, symbol, this`symbolEob
      ensures symbolEob == symbol.Length && pos == start + symbolEob && symbol[..] == file[start..pos]
      ensures forall l :: 0 <= l < |leaves| ==> tree[l] == Offset(leaves, l)
    {
      hide Offset;
      symbolEob := 0;
      pos := start;
      OffsetNext(leaves, 0);
      var i := 0;
      while i <= treelevels
        invariant i <= |leaves|
        invariant forall k :: 0 <= k < i ==> tree[k] == Offset(leaves, k)
        invariant symbolEob == Offset(leaves, i) - if i == |leaves| then 1 else 0
        invariant pos == start + symbolEob && symbolEob <= symbol.Length
        invariant symbol[..symbolEob] == file[start..pos]
      {
        tree[i] := symbolEob;
        RoomForLevel(leaves, i);
        OffsetNext(leaves, i);
        ghost var before := pos;
        pos := ReadLevel(file, i, pos);
        assert file[start..pos] == file[start..before] + file[before..pos];
        i := i + 1;
      }
      assert symbol[..] == symbol[..symbolEob];
    }

    /** Reads the level counts and the symbols; returns the position of the code. */
    method ParseHeader(file: seq<byte>) returns (pos: nat)
      requires WellFormed(file)
      modifies this
      ensures Describes(file) && pos == BodyStart(file)
      ensures fresh(symbolsin) && fresh(inodesin) && fresh(symbol) && fresh(tree)
    {
      hide Complete, Inner, Offset;
      ghost var leaves := LevelTable(file);
      var symbolSize;
      pos, symbolSize := ReadCounts(file);
      symbol := new byte[symbolSize];
      symbolsin[treelevels] := symbolsin[treelevels] + 1;
      forall k | 0 <= k < |leaves|
        ensures symbolsin[k] + (if k == |leaves| - 1 then 1 else 0) == leaves[k]
      {
        assert leaves[k] == LevelCount(file, |leaves|, k);
      }
      pos := ReadSymbols(file, pos, leaves);
      symbolsin[treelevels] := symbolsin[treelevels] + 1;
      assert symbolsin[..] == leaves;
      FillInodesin(0);
    }

    /** Decodes until the end-of-block code or the end of the input. */
    method Decode(file: seq<byte>, start: nat) returns (out: seq<byte>)
      requires Describes(file) && start == BodyStart(file)
      ensures out == Unpacked(file)
    {
      hide Complete, Inner, Offset, IsEob, Run, SymbolsOf, LevelTable, BodyStart, Bits, StreamBits, Power2;
      ghost var leaves, symbols := LevelTable(file), Symbols(file);
      ghost var done: seq<Leaf> := [];
      ghost var all := Run(leaves, StreamBits(file[start..]), 0, 0);
      var thislevel: nat, thiscode: nat, pos := 0, 0, start;
      out := [];
      ZeroReachable(leaves);
      NoSymbols(leaves, symbols, all);
      while pos < |file|
        invariant start <= pos <= |file| && Reachable(leaves, thislevel, thiscode)
        invariant AllSymbols(leaves, done) && out == SymbolsOf(leaves, symbols, done)
        invariant all == Joined(done, Run(leaves, StreamBits(file[pos..]), thislevel, thiscode))
      {
        var thisbyte: nat := file[pos];
        ghost var rest := StreamBits(file[pos + 1..]);
        assert file[pos..] == [file[pos]] + file[pos + 1..];
        StreamCons(file[pos], file[pos + 1..]);
        pos := pos + 1;
        var i := 8;
        assert Bits(thisbyte, 8) == ByteBits(file[pos - 1]);
        while i > 0
          invariant 0 <= i <= 8 && Reachable(leaves, thislevel, thiscode)
          invariant AllSymbols(leaves, done) && out == SymbolsOf(leaves, symbols, done)
          invariant all == Joined(done, Run(leaves, Bits(thisbyte, i) + rest, thislevel, thiscode))
        {
          i := i - 1;
          FirstBit(thisbyte, i);
          var bit := thisbyte / Power2(i) % 2;
          assert Bits(thisbyte, i + 1) + rest == [bit == 1] + (Bits(thisbyte, i) + rest);
          RunStep(leaves, thislevel, thiscode, bit == 1, Bits(thisbyte, i) + rest);
          ReachableLevel(leaves, thislevel, thiscode);
          thiscode := 2 * thiscode + bit;
          if thiscode >= inodesin[thislevel] {
            var inlevelindex := thiscode - inodesin[thislevel];
            ghost var x := Leaf(thislevel, inlevelindex);
            assert inlevelindex < symbolsin[thislevel];
            EobPointer(leaves, x);
            var thissymbol := tree[thislevel] + inlevelindex;
            if thissymbol == symbolEob {
              assert done + [] == done;
              return;
            }
            JoinedStep(leaves, symbols, done, x, Run(leaves, Bits(thisbyte, i) + rest, 0, 0));
            out := out + [symbol[thissymbol]];
            done := done + [x];
            thislevel, thiscode := 0, 0;
          } else {
            thislevel := thislevel + 1;
          }
        }
        assert Bits(thisbyte, 0) + rest == rest;
      }
      NothingMore(leaves, thislevel, thiscode);
      assert file[pos..] == [];
      assert done + [] == done;
    }
  }

  /** What is decoded in all, given the leaves so far. */
  function Joined(done: seq<Leaf>, r: Decoded): Decoded { Decoded(done + r.leaves, r.finished) }

  lemma NoSymbols(leaves: seq<nat>, symbols: seq<byte>, r: Decoded)
    requires Complete(leaves) && |symbols| + 1 == Offset(leaves, |leaves|)
    ensures AllSymbols(leaves, []) && SymbolsOf(leaves, symbols, []) == [] && Joined([], r) == r
  {
  }

  lemma NothingMore(leaves: seq<nat>, level: nat, code: nat)
    requires Complete(leaves) && Reachable(leaves, level, code)
    ensures Run(leaves, StreamBits([]), level, code) == Decoded([], false)
  {
  }

  lemma ReachableLevel(leaves: seq<nat>, level: nat, code: nat)
    requires Reachable(leaves, level, code)
    ensures level < |leaves|
  {
  }

  lemma JoinedStep(leaves: seq<nat>, symbols: seq<byte>, done: seq<Leaf>, x: Leaf, rest: Decoded)
    requires Complete(leaves) && |symbols| + 1 == Offset(leaves, |leaves|)
    requires AllSymbols(leaves, done) && IsSymbol(leaves, x)
    ensures Offset(leaves, x.level) + x.index < |symbols| && AllSymbols(leaves, done + [x])
    ensures SymbolsOf(leaves, symbols, done + [x])
         == SymbolsOf(leaves, symbols, done) + [symbols[Offset(leaves, x.level) + x.index]]
    ensures Joined(done, Decoded([x] + rest.leaves, rest.finished)) == Joined(done + [x], rest)
  {
    hide Complete, Offset, SymbolsOf, IsEob;
    EobPointer(leaves, x);
    SymbolsSnoc(leaves, symbols, done, x);
    assert done + ([x] + rest.leaves) == done + [x] + rest.leaves;
  }

  lemma {:induction false} SymbolsSnoc(leaves: seq<nat>, symbols: seq<byte>, done: seq<Leaf>, x: Leaf)
    requires Complete(leaves) && |symbols| + 1 == Offset(leaves, |leaves|)
    requires AllSymbols(leaves, done) && IsSymbol(leaves, x) && Offset(leaves, x.level) + x.index < |symbols|
    ensures SymbolsOf(leaves, symbols, done + [x])
         == SymbolsOf(leaves, symbols, done) + [symbols[Offset(leaves, x.level) + x.index]]
  {
    hide Complete, Offset, IsSymbol;
    if done == [] {
      assert done + [x] == [x];
    } else {
      SymbolsSnoc(leaves, symbols, done[1..], x);
      assert (done + [x])[1..] == done[1..] + [x];
    }
  }

  /** `(thisbyte >> i) & 1` is the first of the low `i + 1` bits. */
  lemma {:induction false} FirstBit(v: nat, i: nat)
    ensures Power2(i) > 0 && Bits(v, i + 1) == [v / Power2(i) % 2 == 1] + Bits(v, i)
  {
    if i > 0 {
      FirstBit(v / 2, i - 1);
      DivTwice(v, Power2(i - 1));
    }
  }

  lemma DivTwice(v: nat, p: nat)
    requires p > 0
    ensures v / 2 / p == v / (2 * p)
  {
    var q, r := v / (2 * p), v % (2 * p);
    assert v / 2 == p * q + r / 2;
    assert r / 2 < p;
    FieldsSplit(r / 2, q, p);
  }

  lemma OffsetNext(leaves: seq<nat>, i: nat)
    requires i < |leaves|
    ensures Offset(leaves, 0) == 0 && Offset(leaves, i + 1) == Offset(leaves, i) + leaves[i]
  {
  }

  lemma RoomForLevel(leaves: seq<nat>, i: nat)
    requires i < |leaves|
    ensures Offset(leaves, i) + leaves[i] <= Offset(leaves, |leaves|)
    ensures i < |leaves| - 1 ==> Offset(leaves, i) + leaves[i] + leaves[|leaves| - 1] <= Offset(leaves, |leaves|)
  {
    OffsetGrows(leaves, i, |leaves|);
    if i < |leaves| - 1 { OffsetGrows(leaves, i, |leaves| - 1); }
  }

  /** The whole program. */
  method Unpack(file: seq<byte>) returns (out: seq<byte>)
    requires WellFormed(file)
    ensures out == Unpacked(file)
  {
    var u := new Unpacker();
    var pos := u.ParseHeader(file);
    out := u.Decode(file, pos);
  }
}
