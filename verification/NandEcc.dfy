/** The Hamming code of nand_calculate_ecc over 256-byte blocks: what its 22 parities are, and that they
    correct every single bit error and detect every double one. */
module NandEcc {
  import opened BitSeqs
  import opened Bytes

  /** A `uint8_t`, bit by bit, the least significant bit first. */
  type Octet = s: seq<bool> | |s| == 8 witness [false, false, false, false, false, false, false, false]

  function OctetOf(n: nat): (x: Octet)
    ensures forall k :: 0 <= k < 8 ==> x[k] == BitOf(n, k)
  {
    seq(8, k requires 0 <= k < 8 => BitOf(n, k))
  }

  // ------------------------------------------------------------ the parity table

  const H00: Octet := [false, false, false, false, false, false, false, false]
  const H03: Octet := [true, true, false, false, false, false, false, false]
  const H0c: Octet := [false, false, true, true, false, false, false, false]
  const H0f: Octet := [true, true, true, true, false, false, false, false]
  const H30: Octet := [false, false, false, false, true, true, false, false]
  const H33: Octet := [true, true, false, false, true, true, false, false]
  const H3c: Octet := [false, false, true, true, true, true, false, false]
  const H3f: Octet := [true, true, true, true, true, true, false, false]
  const H55: Octet := [true, false, true, false, true, false, true, false]
  const H56: Octet := [false, true, true, false, true, false, true, false]
  const H59: Octet := [true, false, false, true, true, false, true, false]
  const H5a: Octet := [false, true, false, true, true, false, true, false]
  const H65: Octet := [true, false, true, false, false, true, true, false]
  const H66: Octet := [false, true, true, false, false, true, true, false]
  const H69: Octet := [true, false, false, true, false, true, true, false]
  const H6a: Octet := [false, true, false, true, false, true, true, false]

  /** The entry that the low four bits of `x` select. */
  function Pick(x: Octet, e0: Octet, e1: Octet, e2: Octet, e3: Octet, e4: Octet, e5: Octet, e6: Octet, e7: Octet,
                e8: Octet, e9: Octet, eA: Octet, eB: Octet, eC: Octet, eD: Octet, eE: Octet, eF: Octet): Octet
  {
    if x[3] then
      if x[2] then (if x[1] then (if x[0] then eF else eE) else (if x[0] then eD else eC))
      else (if x[1] then (if x[0] then eB else eA) else (if x[0] then e9 else e8))
    else
      if x[2] then (if x[1] then (if x[0] then e7 else e6) else (if x[0] then e5 else e4))
      else (if x[1] then (if x[0] then e3 else e2) else (if x[0] then e1 else e0))
  }

  // The sixteen rows of nand_ecc_precalc_table.
  function Row0(x: Octet): Octet {
    Pick(x, H00, H55, H56, H03, H59, H0c, H0f, H5a, H5a, H0f, H0c, H59, H03, H56, H55, H00)
  }

  function Row1(x: Octet): Octet {
    Pick(x, H65, H30, H33, H66, H3c, H69, H6a, H3f, H3f, H6a, H69, H3c, H66, H33, H30, H65)
  }

  function Row2(x: Octet): Octet {
    Pick(x, H66, H33, H30, H65, H3f, H6a, H69, H3c, H3c, H69, H6a, H3f, H65, H30, H33, H66)
  }

  function Row3(x: Octet): Octet {
    Pick(x, H03, H56, H55, H00, H5a, H0f, H0c, H59, H59, H0c, H0f, H5a, H00, H55, H56, H03)
  }

  function Row4(x: Octet): Octet {
    Pick(x, H69, H3c, H3f, H6a, H30, H65, H66, H33, H33, H66, H65, H30, H6a, H3f, H3c, H69)
  }

  function Row5(x: Octet): Octet {
    Pick(x, H0c, H59, H5a, H0f, H55, H00, H03, H56, H56, H03, H00, H55, H0f, H5a, H59, H0c)
  }

  function Row6(x: Octet): Octet {
    Pick(x, H0f, H5a, H59, H0c, H56, H03, H00, H55, H55, H00, H03, H56, H0c, H59, H5a, H0f)
  }

  function Row7(x: Octet): Octet {
    Pick(x, H6a, H3f, H3c, H69, H33, H66, H65, H30, H30, H65, H66, H33, H69, H3c, H3f, H6a)
  }

  function Row8(x: Octet): Octet {
    Pick(x, H6a, H3f, H3c, H69, H33, H66, H65, H30, H30, H65, H66, H33, H69, H3c, H3f, H6a)
  }

  function Row9(x: Octet): Octet {
    Pick(x, H0f, H5a, H59, H0c, H56, H03, H00, H55, H55, H00, H03, H56, H0c, H59, H5a, H0f)
  }

  function RowA(x: Octet): Octet {
    Pick(x, H0c, H59, H5a, H0f, H55, H00, H03, H56, H56, H03, H00, H55, H0f, H5a, H59, H0c)
  }

  function RowB(x: Octet): Octet {
    Pick(x, H69, H3c, H3f, H6a, H30, H65, H66, H33, H33, H66, H65, H30, H6a, H3f, H3c, H69)
  }

  function RowC(x: Octet): Octet {
    Pick(x, H03, H56, H55, H00, H5a, H0f, H0c, H59, H59, H0c, H0f, H5a, H00, H55, H56, H03)
  }

  function RowD(x: Octet): Octet {
    Pick(x, H66, H33, H30, H65, H3f, H6a, H69, H3c, H3c, H69, H6a, H3f, H65, H30, H33, H66)
  }

  function RowE(x: Octet): Octet {
    Pick(x, H65, H30, H33, H66, H3c, H69, H6a, H3f, H3f, H6a, H69, H3c, H66, H33, H30, H65)
  }

  function RowF(x: Octet): Octet {
    Pick(x, H00, H55, H56, H03, H59, H0c, H0f, H5a, H5a, H0f, H0c, H59, H03, H56, H55, H00)
  }

  function Table(x: Octet): Octet {
    if x[7] then
      if x[6] then
        if x[5] then
          if x[4] then RowF(x) else RowE(x)
        else
          if x[4] then RowD(x) else RowC(x)
      else
        if x[5] then
          if x[4] then RowB(x) else RowA(x)
        else
          if x[4] then Row9(x) else Row8(x)
    else
      if x[6] then
        if x[5] then
          if x[4] then Row7(x) else Row6(x)
        else
          if x[4] then Row5(x) else Row4(x)
      else
        if x[5] then
          if x[4] then Row3(x) else Row2(x)
        else
          if x[4] then Row1(x) else Row0(x)
  }

  /** Exclusive or of the bits of `x` whose positions below `m` have bit `p` equal to `v`. */
  predicate Column(x: Octet, m: nat, p: nat, v: bool)
    requires m <= 8
  {
    if m == 0 then false else Column(x, m - 1, p, v) != (x[m - 1] && BitOf(m - 1, p) == v)
  }

  predicate Parity(x: Octet, m: nat)
    requires m <= 8
  {
    if m == 0 then false else Parity(x, m - 1) != x[m - 1]
  }

  predicate Odd4(a: bool, b: bool, c: bool, d: bool) { (a != b) != (c != d) }

  /** The parities of one byte, in the layout of the table. */
  function Parities(x: Octet): Octet {
    [Odd4(x[0], x[2], x[4], x[6]), Odd4(x[1], x[3], x[5], x[7]),
     Odd4(x[0], x[1], x[4], x[5]), Odd4(x[2], x[3], x[6], x[7]),
     Odd4(x[0], x[1], x[2], x[3]), Odd4(x[4], x[5], x[6], x[7]),
     Odd4(x[0], x[1], x[2], x[3]) != Odd4(x[4], x[5], x[6], x[7]), false]
  }

  /** All 256 entries hold the parities of their index. */
  lemma TableHolds(x: Octet)
    ensures Table(x) == Parities(x)
  {
    if x[7] { if x[6] { if x[5] {} else {} } else { if x[5] {} else {} } } else { if x[6] { if x[5] {} else {} } else { if x[5] {} else {} } }
  }

  lemma SmallBits()
    ensures forall k :: 0 <= k < 8 ==> (BitOf(k, 0) <==> k == 1 || k == 3 || k == 5 || k == 7)
    ensures forall k :: 0 <= k < 8 ==> (BitOf(k, 1) <==> k == 2 || k == 3 || k == 6 || k == 7)
    ensures forall k :: 0 <= k < 8 ==> (BitOf(k, 2) <==> k >= 4)
  {
  }

  /** Where an octet of pairs keeps one half of pair `p`. */
  function Half(p: nat, v: bool): nat { 2 * p + if v then 1 else 0 }

  /** The table's bits are the parities of the byte: six for the columns, one for the whole byte. */
  lemma ParitiesAre(x: Octet, p: nat, v: bool)
    requires p < 3
    ensures Parities(x)[Half(p, v)] == Column(x, 8, p, v) && Parities(x)[6] == Parity(x, 8)
  {
    SmallBits();
    ColumnAll(x, p, v);
    ParityAll(x);
  }

  lemma ColumnAll(x: Octet, p: nat, v: bool)
    requires p < 3
    ensures Column(x, 8, p, v)
         == (Odd4(x[0] && BitOf(0, p) == v, x[1] && BitOf(1, p) == v, x[2] && BitOf(2, p) == v, x[3] && BitOf(3, p) == v)
             != Odd4(x[4] && BitOf(4, p) == v, x[5] && BitOf(5, p) == v, x[6] && BitOf(6, p) == v, x[7] && BitOf(7, p) == v))
  {
    hide BitOf, Column;
    ColumnNext(x, 0, p, v); ColumnNext(x, 1, p, v); ColumnNext(x, 2, p, v); ColumnNext(x, 3, p, v);
    ColumnNext(x, 4, p, v); ColumnNext(x, 5, p, v); ColumnNext(x, 6, p, v); ColumnNext(x, 7, p, v);
  }

  lemma ColumnNext(x: Octet, m: nat, p: nat, v: bool)
    requires m < 8
    ensures Column(x, 0, p, v) == false
    ensures Column(x, m + 1, p, v) == (Column(x, m, p, v) != (x[m] && BitOf(m, p) == v))
    ensures Parity(x, 0) == false && Parity(x, m + 1) == (Parity(x, m) != x[m])
  {
  }

  lemma ParityAll(x: Octet)
    ensures Parity(x, 8) == (Odd4(x[0], x[1], x[2], x[3]) != Odd4(x[4], x[5], x[6], x[7]))
  {
    hide Column, Parity;
    ColumnNext(x, 0, 0, true); ColumnNext(x, 1, 0, true); ColumnNext(x, 2, 0, true); ColumnNext(x, 3, 0, true);
    ColumnNext(x, 4, 0, true); ColumnNext(x, 5, 0, true); ColumnNext(x, 6, 0, true); ColumnNext(x, 7, 0, true);
  }

  // ------------------------------------------------------------ the code of a block

  const BLOCK_SIZE := 256
  const COLUMN_PAIRS := 3
  const PAIRS := 11

  /** Column parity over the first `n` bytes. */
  predicate ColumnSum(dat: seq<Octet>, n: nat, p: nat, v: bool)
    requires n <= |dat|
  {
    if n == 0 then false else ColumnSum(dat, n - 1, p, v) != Column(dat[n - 1], 8, p, v)
  }

  /** Parity of all bits in those of the first `n` bytes whose index has bit `k` equal to `v`. */
  predicate LineSum(dat: seq<Octet>, n: nat, k: nat, v: bool)
    requires n <= |dat|
  {
    if n == 0 then false else LineSum(dat, n - 1, k, v) != (Parity(dat[n - 1], 8) && BitOf(n - 1, k) == v)
  }

  /** The eleven pairs of parities: three for the bit within the byte, eight for the byte within the block. */
  predicate PairParity(dat: seq<Octet>, p: nat, v: bool) {
    if p < COLUMN_PAIRS then ColumnSum(dat, |dat|, p, v) else LineSum(dat, |dat|, p - COLUMN_PAIRS, v)
  }

  /** Where the code keeps each parity, inverted. */
  predicate CodeBit(ecc: seq<Octet>, p: nat, v: bool)
    requires |ecc| == 3 && p < PAIRS
  {
    if p < 3 then ecc[2][2 + Half(p, v)] else if p < 7 then ecc[1][Half(p - 3, v)] else ecc[0][Half(p - 7, v)]
  }

  /** The code of a block: every parity in its place, and the two lowest bits of the last byte set. */
  ghost predicate IsCode(dat: seq<Octet>, ecc: seq<Octet>) {
    && |ecc| == 3 && ecc[2][1] && ecc[2][0]
    && forall p, v | 0 <= p < PAIRS :: CodeBit(ecc, p, v) == !PairParity(dat, p, v)
  }

  /** What the three registers hold after `n` bytes. */
  ghost predicate Registers(dat: seq<Octet>, n: nat, reg1: Octet, reg2: Octet, reg3: Octet)
    requires n <= |dat|
  {
    && (forall p, v | 0 <= p < COLUMN_PAIRS :: ColumnSum(dat, n, p, v) == reg1[Half(p, v)])
    && (forall k | 0 <= k < 8 :: LineSum(dat, n, k, true) == reg3[k])
    && (forall k | 0 <= k < 8 :: LineSum(dat, n, k, false) == reg2[k])
  }

  lemma RegistersStep(dat: seq<Octet>, n: nat, reg1: Octet, reg2: Octet, reg3: Octet)
    requires n < |dat| && Registers(dat, n, reg1, reg2, reg3)
    ensures var idx, i := Table(dat[n]), OctetOf(n);
            Registers(dat, n + 1, Xor(reg1, idx[7 := false][6 := false]),
                      if idx[6] then Xor(reg2, Not(i)) else reg2, if idx[6] then Xor(reg3, i) else reg3)
  {
    hide Table, Parities, Column, Parity, OctetOf, BitOf, Xor, Not;
    TableHolds(dat[n]);
    ParitiesAre(dat[n], 0, false);
    forall p, v | 0 <= p < COLUMN_PAIRS ensures Table(dat[n])[Half(p, v)] == Column(dat[n], 8, p, v) {
      ParitiesAre(dat[n], p, v);
    }
  }

  method CalculateEcc(dat: seq<Octet>) returns (ecc: seq<Octet>)
    requires |dat| == BLOCK_SIZE
    ensures IsCode(dat, ecc)
  {
    hide Table, BitOf, Column, Parity, IsCode;
    var zero: Octet := [false, false, false, false, false, false, false, false];
    var reg1: Octet, reg2: Octet, reg3: Octet := zero, zero, zero;
    var i := 0;
    while i < BLOCK_SIZE
      invariant i <= BLOCK_SIZE && Registers(dat, i, reg1, reg2, reg3)
    {
      var idx := Table(dat[i]);
      RegistersStep(dat, i, reg1, reg2, reg3);
      reg1 := Xor(reg1, idx[7 := false][6 := false]);
      if idx[6] {
        reg3 := Xor(reg3, OctetOf(i));
        reg2 := Xor(reg2, Not(OctetOf(i)));
      }
      i := i + 1;
    }
    var tmp1: Octet := [reg2[4], reg3[4], reg2[5], reg3[5], reg2[6], reg3[6], reg2[7], reg3[7]];
    var tmp2: Octet := [reg2[0], reg3[0], reg2[1], reg3[1], reg2[2], reg3[2], reg2[3], reg3[3]];
    var low: Octet := [true, true] + Not(reg1)[..6];
    ecc := [Not(tmp1), Not(tmp2), low];
    CodeFromRegisters(dat, reg1, reg2, reg3, tmp1, tmp2, low);
  }

  lemma CodeFromRegisters(dat: seq<Octet>, reg1: Octet, reg2: Octet, reg3: Octet, tmp1: Octet, tmp2: Octet, low: Octet)
    requires |dat| == BLOCK_SIZE && Registers(dat, BLOCK_SIZE, reg1, reg2, reg3)
    requires tmp1 == [reg2[4], reg3[4], reg2[5], reg3[5], reg2[6], reg3[6], reg2[7], reg3[7]]
    requires tmp2 == [reg2[0], reg3[0], reg2[1], reg3[1], reg2[2], reg3[2], reg2[3], reg3[3]]
    requires low == [true, true] + Not(reg1)[..6]
    ensures IsCode(dat, [Not(tmp1), Not(tmp2), low])
  {
    hide ColumnSum, LineSum, Not;
    var ecc := [Not(tmp1), Not(tmp2), low];
    forall p, v | 0 <= p < PAIRS ensures CodeBit(ecc, p, v) == !PairParity(dat, p, v) {
      if p < COLUMN_PAIRS {
        assert ColumnSum(dat, BLOCK_SIZE, p, v) == reg1[Half(p, v)];
        assert low[2 + Half(p, v)] == Not(reg1)[Half(p, v)];
      } else {
        var k := p - COLUMN_PAIRS;
        assert LineSum(dat, BLOCK_SIZE, k, v) == if v then reg3[k] else reg2[k];
        Interleaved(reg2, reg3, tmp1, tmp2, k, v);
      }
    }
  }

  lemma Interleaved(reg2: Octet, reg3: Octet, tmp1: Octet, tmp2: Octet, k: nat, v: bool)
    requires k < 8
    requires tmp1 == [reg2[4], reg3[4], reg2[5], reg3[5], reg2[6], reg3[6], reg2[7], reg3[7]]
    requires tmp2 == [reg2[0], reg3[0], reg2[1], reg3[1], reg2[2], reg3[2], reg2[3], reg3[3]]
    ensures (if k < 4 then tmp2[Half(k, v)] else tmp1[Half(k - 4, v)]) == if v then reg3[k] else reg2[k]
  {
  }

  // ------------------------------------------------------------ errors

  /** The block with bit `j` of byte `i` inverted. */
  function Flipped(dat: seq<Octet>, i: nat, j: nat): (r: seq<Octet>)
    requires i < |dat| && j < 8
    ensures |r| == |dat|
  {
    dat[i := dat[i][j := !dat[i][j]]]
  }

  /** Bit `p` of the position of bit `j` of byte `i`. */
  predicate PositionBit(i: nat, j: nat, p: nat) {
    if p < COLUMN_PAIRS then BitOf(j, p) else BitOf(i, p - COLUMN_PAIRS)
  }

  lemma {:induction false} FlipColumn(x: Octet, j: nat, m: nat, p: nat, v: bool)
    requires j < 8 && m <= 8
    ensures Column(x[j := !x[j]], m, p, v) == (Column(x, m, p, v) != (j < m && BitOf(j, p) == v))
    ensures Parity(x[j := !x[j]], m) == (Parity(x, m) != (j < m))
  {
    hide BitOf;
    if m > 0 {
      FlipColumn(x, j, m - 1, p, v);
    }
  }

  lemma {:induction false} FlipSums(dat: seq<Octet>, i: nat, j: nat, n: nat, p: nat, v: bool)
    requires i < |dat| && j < 8 && n <= |dat|
    ensures ColumnSum(Flipped(dat, i, j), n, p, v) == (ColumnSum(dat, n, p, v) != (i < n && BitOf(j, p) == v))
    ensures LineSum(Flipped(dat, i, j), n, p, v) == (LineSum(dat, n, p, v) != (i < n && BitOf(i, p) == v))
  {
    hide BitOf, Column, Parity;
    if n > 0 {
      FlipSums(dat, i, j, n - 1, p, v);
      FlipColumn(dat[i], j, 8, p, v);
    }
  }

  /** One wrong bit inverts exactly the parities that its position takes part in. */
  lemma FlipPair(dat: seq<Octet>, i: nat, j: nat, p: nat, v: bool)
    requires i < |dat| && j < 8
    ensures PairParity(Flipped(dat, i, j), p, v) == (PairParity(dat, p, v) != (PositionBit(i, j, p) == v))
  {
    if p < COLUMN_PAIRS { FlipSums(dat, i, j, |dat|, p, v); } else { FlipSums(dat, i, j, |dat|, p - COLUMN_PAIRS, v); }
  }

  predicate Differs(a: seq<Octet>, b: seq<Octet>, p: nat, v: bool)
    requires |a| == 3 && |b| == 3 && p < PAIRS
  {
    CodeBit(a, p, v) != CodeBit(b, p, v)
  }

  /** The shape of a single error: exactly one difference in each pair. */
  ghost predicate Correctable(a: seq<Octet>, b: seq<Octet>)
    requires |a| == 3 && |b| == 3
  {
    forall p | 0 <= p < PAIRS :: Differs(a, b, p, false) != Differs(a, b, p, true)
  }

  /** The number spelled by the `true` halves of `count` pairs from pair `first` on. */
  function Spelled(a: seq<Octet>, b: seq<Octet>, first: nat, count: nat): nat
    requires |a| == 3 && |b| == 3 && first + count <= PAIRS
    decreases count
  {
    if count == 0 then 0
    else (if Differs(a, b, first, true) then 1 else 0) + 2 * Spelled(a, b, first + 1, count - 1)
  }

  lemma {:induction false} SpelledIs(a: seq<Octet>, b: seq<Octet>, first: nat, count: nat, n: nat)
    requires |a| == 3 && |b| == 3 && n < Power2(count) && first + count <= PAIRS
    requires forall k | 0 <= k < count :: Differs(a, b, first + k, true) == BitOf(n, k)
    ensures Spelled(a, b, first, count) == n
    decreases count
  {
    hide Differs;
    if count > 0 {
      forall k | 0 <= k < count - 1 ensures Differs(a, b, first + 1 + k, true) == BitOf(n / 2, k) {
        assert Differs(a, b, first + (k + 1), true) == BitOf(n, k + 1);
      }
      SpelledIs(a, b, first + 1, count - 1, n / 2);
      assert Differs(a, b, first + 0, true) == BitOf(n, 0);
    }
  }

  lemma DiffersIs(dat: seq<Octet>, a: seq<Octet>, i: nat, j: nat, b: seq<Octet>, p: nat, v: bool)
    requires i < |dat| && j < 8 && p < PAIRS && IsCode(dat, a) && IsCode(Flipped(dat, i, j), b)
    ensures Differs(a, b, p, v) == (PositionBit(i, j, p) == v)
  {
    hide CodeBit, PairParity, PositionBit, Flipped;
    FlipPair(dat, i, j, p, v);
    assert CodeBit(a, p, v) == !PairParity(dat, p, v);
    assert CodeBit(b, p, v) == !PairParity(Flipped(dat, i, j), p, v);
  }

  lemma CodeSize(dat: seq<Octet>, ecc: seq<Octet>)
    requires IsCode(dat, ecc)
    ensures |ecc| == 3
  {
  }

  /** Single-error correction: the difference of the codes has the shape of a single error and spells the
      byte and the bit that changed. */
  lemma SingleError(dat: seq<Octet>, i: nat, j: nat, a: seq<Octet>, b: seq<Octet>)
    requires |dat| == BLOCK_SIZE && i < |dat| && j < 8 && |a| == |b| == 3
    requires IsCode(dat, a) && IsCode(Flipped(dat, i, j), b)
    ensures Correctable(a, b) && Spelled(a, b, 0, COLUMN_PAIRS) == j && Spelled(a, b, COLUMN_PAIRS, 8) == i
  {
    hide IsCode, Differs, BitOf;
    CodeSize(dat, a);
    CodeSize(Flipped(dat, i, j), b);
    forall p, v | 0 <= p < PAIRS ensures Differs(a, b, p, v) == (PositionBit(i, j, p) == v) {
      DiffersIs(dat, a, i, j, b, p, v);
    }
    assert Power2(3) == 8 && Power2(8) == 256 by { assert Power2(4) == 16; }
    SpelledIs(a, b, 0, COLUMN_PAIRS, j);
    SpelledIs(a, b, COLUMN_PAIRS, 8, i);
  }

  lemma {:induction false} DistinctBits(m: nat, n: nat, count: nat) returns (k: nat)
    requires m < Power2(count) && n < Power2(count) && m != n
    ensures k < count && BitOf(m, k) != BitOf(n, k)
    decreases count
  {
    if m % 2 != n % 2 {
      k := 0;
    } else {
      k := DistinctBits(m / 2, n / 2, count - 1);
      k := k + 1;
    }
  }

  /** Double-error detection: two wrong bits always show, and never look like one. */
  lemma DoubleError(dat: seq<Octet>, i: nat, j: nat, k: nat, l: nat, a: seq<Octet>, b: seq<Octet>)
    requires |dat| == BLOCK_SIZE && i < |dat| && k < |dat| && j < 8 && l < 8 && (i != k || j != l)
    requires IsCode(dat, a) && IsCode(Flipped(Flipped(dat, i, j), k, l), b)
    ensures a != b && !Correctable(a, b)
  {
    hide CodeBit, PairParity, PositionBit, Flipped, BitOf;
    forall p, v | 0 <= p < PAIRS
      ensures Differs(a, b, p, v) == (PositionBit(i, j, p) != PositionBit(k, l, p))
    {
      FlipPair(dat, i, j, p, v);
      FlipPair(Flipped(dat, i, j), k, l, p, v);
      assert CodeBit(a, p, v) == !PairParity(dat, p, v);
      assert CodeBit(b, p, v) == !PairParity(Flipped(Flipped(dat, i, j), k, l), p, v);
    }
    var p := DistinctPosition(i, j, k, l);
    assert Differs(a, b, p, true) && Differs(a, b, p, false);
  }

  lemma DistinctPosition(i: nat, j: nat, k: nat, l: nat) returns (p: nat)
    requires i < BLOCK_SIZE && k < BLOCK_SIZE && j < 8 && l < 8 && (i != k || j != l)
    ensures p < PAIRS && PositionBit(i, j, p) != PositionBit(k, l, p)
  {
    assert Power2(3) == 8 && Power2(8) == 256 by { assert Power2(4) == 16; }
    if j != l {
      p := DistinctBits(j, l, 3);
    } else {
      p := DistinctBits(i, k, 8);
      p := p + COLUMN_PAIRS;
    }
  }

  /** A byte of an erased block. */
  const ERASED: Octet := [true, true, true, true, true, true, true, true]

  lemma ErasedByte(p: nat, v: bool)
    requires p < 3
    ensures !Column(ERASED, 8, p, v) && !Parity(ERASED, 8)
  {
    hide Column, Parity;
    SmallBits();
    ColumnAll(ERASED, p, v);
    ParityAll(ERASED);
  }

  lemma {:induction false} ErasedSums(dat: seq<Octet>, n: nat, p: nat, v: bool)
    requires n <= |dat| && forall i :: 0 <= i < |dat| ==> dat[i] == ERASED
    ensures (p < 3 ==> !ColumnSum(dat, n, p, v)) && !LineSum(dat, n, p, v)
  {
    hide Column, Parity;
    if n > 0 {
      ErasedSums(dat, n - 1, p, v);
      ErasedByte(if p < 3 then p else 0, v);
    }
  }

  /** An erased block has the erased code: 0xFF everywhere. */
  lemma ErasedCode(dat: seq<Octet>)
    requires forall i :: 0 <= i < |dat| ==> dat[i] == ERASED
    ensures IsCode(dat, [ERASED, ERASED, ERASED])
  {
    hide ColumnSum, LineSum;
    forall p, v | 0 <= p < PAIRS ensures CodeBit([ERASED, ERASED, ERASED], p, v) == !PairParity(dat, p, v) {
      ErasedSums(dat, |dat|, if p < 3 then p else p - 3, v);
    }
  }

  /** A block has exactly one code, so equal blocks never differ. */
  lemma CodeUnique(dat: seq<Octet>, a: seq<Octet>, b: seq<Octet>)
    requires IsCode(dat, a) && IsCode(dat, b)
    ensures a == b
  {
    hide PairParity;
    forall p, v | 0 <= p < PAIRS ensures CodeBit(a, p, v) == CodeBit(b, p, v) {}
    forall k | 0 <= k < 8 ensures a[0][k] == b[0][k] && a[1][k] == b[1][k] && a[2][k] == b[2][k] {
      var v := k % 2 == 1;
      assert CodeBit(a, 7 + k / 2, v) == CodeBit(b, 7 + k / 2, v);
      assert CodeBit(a, 3 + k / 2, v) == CodeBit(b, 3 + k / 2, v);
      if k >= 2 { assert CodeBit(a, k / 2 - 1, v) == CodeBit(b, k / 2 - 1, v); }
    }
    assert a[0] == b[0] && a[1] == b[1] && a[2] == b[2];
  }

  // ------------------------------------------------------------ errors in the stored code

  /** Whether bit `n` of byte `m` of the code holds the parity `v` of pair `p`; two bits hold none. */
  predicate Keeps(m: nat, n: nat, p: nat, v: bool) {
    && v == (n % 2 == 1)
    && (if m == 2 then n >= 2 && p == n / 2 - 1 else if m == 1 then p == 3 + n / 2 else p == 7 + n / 2)
  }

  lemma CodeFlip(a: seq<Octet>, m: nat, n: nat, p: nat, v: bool)
    requires |a| == 3 && m < 3 && n < 8 && p < PAIRS
    ensures CodeBit(Flipped(a, m, n), p, v) == (CodeBit(a, p, v) != Keeps(m, n, p, v))
  {
  }

  /** One wrong bit of the stored code: the difference is this bit alone, and never of the shape of a wrong data
      bit. */
  lemma CodeError(a: seq<Octet>, m: nat, n: nat)
    requires |a| == 3 && m < 3 && n < 8
    ensures a != Flipped(a, m, n) && !Correctable(a, Flipped(a, m, n))
    ensures forall p, v | 0 <= p < PAIRS :: Differs(a, Flipped(a, m, n), p, v) == Keeps(m, n, p, v)
  {
    hide CodeBit;
    var b := Flipped(a, m, n);
    assert a[m][n] != b[m][n];
    forall p, v | 0 <= p < PAIRS ensures Differs(a, b, p, v) == Keeps(m, n, p, v) {
      CodeFlip(a, m, n, p, v);
    }
    var p := if m == 0 then 0 else 7;
    assert !Differs(a, b, p, false) && !Differs(a, b, p, true);
  }

  /** A wrong data bit and a wrong bit of the stored code: they show and do not have the shape of a single error;
      only the two bits that hold no parity make no difference. */
  lemma MixedError(dat: seq<Octet>, i: nat, j: nat, m: nat, n: nat, a: seq<Octet>, b: seq<Octet>)
    requires |dat| == BLOCK_SIZE && i < |dat| && j < 8 && |a| == |b| == 3 && m < 3 && n < 8
    requires IsCode(dat, a) && IsCode(Flipped(dat, i, j), b)
    ensures var stored := Flipped(a, m, n);
            if m == 2 && n < 2 then
              Correctable(stored, b) && Spelled(stored, b, 0, COLUMN_PAIRS) == j && Spelled(stored, b, COLUMN_PAIRS, 8) == i
            else stored != b && !Correctable(stored, b)
  {
    hide IsCode, CodeBit, BitOf;
    var stored := Flipped(a, m, n);
    forall p, v | 0 <= p < PAIRS
      ensures Differs(stored, b, p, v) == ((PositionBit(i, j, p) == v) != Keeps(m, n, p, v))
    {
      DiffersIs(dat, a, i, j, b, p, v);
      CodeFlip(a, m, n, p, v);
    }
    if m == 2 && n < 2 {
      assert Power2(3) == 8 && Power2(8) == 256 by { assert Power2(4) == 16; }
      hide Differs;
      SpelledIs(stored, b, 0, COLUMN_PAIRS, j);
      SpelledIs(stored, b, COLUMN_PAIRS, 8, i);
    } else {
      var p := if m == 2 then n / 2 - 1 else if m == 1 then 3 + n / 2 else 7 + n / 2;
      var q := if m == 0 then 0 else 7;
      assert Keeps(m, n, p, n % 2 == 1) && !Keeps(m, n, p, n % 2 != 1);
      assert Differs(stored, b, p, false) == Differs(stored, b, p, true);
      assert Differs(stored, b, q, PositionBit(i, j, q));
    }
  }
}
