/** Squashfs bit fields: written and read at any bit position, on hosts of either byte order. */
module SquashfsFields {
  import opened Bytes
  import opened BitSeqs

  type Octet = o: seq<bool> | |o| == 8 witness Clear(8)
  type Word64 = w: seq<bool> | |w| == 64 witness Clear(64)

  function ShiftLeft(w: Word64, k: nat): (r: Word64)
    requires k <= 64
    ensures forall x :: 0 <= x < 64 ==> r[x] == (x >= k && w[x - k])
  {
    Clear(k) + w[..64 - k]
  }

  function ShiftRight(w: Word64, k: nat): (r: Word64)
    requires k <= 64
    ensures forall x :: 0 <= x < 64 ==> r[x] == (x + k < 64 && w[x + k])
  {
    w[k..] + Clear(k)
  }

  function Or(a: Octet, b: Octet): (r: Octet)
    ensures forall t :: 0 <= t < 8 ==> r[t] == (a[t] || b[t])
  {
    seq(8, t requires 0 <= t < 8 => a[t] || b[t])
  }

  /** Where byte `i` of a 64-bit word in memory has its least significant bit. */
  function BitsAt(big: bool, i: nat): nat
    requires i < 8
  {
    if big then 8 * (7 - i) else 8 * i
  }

  function MemoryByte(w: Word64, big: bool, i: nat): Octet
    requires i < 8
  {
    w[BitsAt(big, i)..BitsAt(big, i) + 8]
  }

  function WithMemoryByte(w: Word64, big: bool, i: nat, o: Octet): (r: Word64)
    requires i < 8
  {
    w[..BitsAt(big, i)] + o + w[BitsAt(big, i) + 8..]
  }

  /** The SHIFT argument. */
  function Shift(big: bool, bPos: nat, tbits: nat): nat
    requires bPos + tbits <= 64
  {
    if big then bPos else 64 - tbits - bPos
  }

  /** A buffer as one row of bits: a byte gives its least significant bit first on a big-endian host, and its
      most significant bit first on a little-endian one. */
  function RowBit(b: seq<Octet>, big: bool, n: nat): bool
    requires n < 8 * |b|
  {
    if big then b[n / 8][n % 8] else b[n / 8][7 - n % 8]
  }

  /** The bit of a value that comes `j`-th in the row. */
  function FieldBit(value: Word64, tbits: nat, big: bool, j: nat): bool
    requires j < tbits <= 64
  {
    if big then value[j] else value[tbits - 1 - j]
  }

  predicate Placed(size: nat, pos: nat, tbits: nat) {
    0 < tbits && tbits + pos % 8 <= 64 && pos + tbits <= 8 * size
  }

  // ------------------------------------------------------------ one field

  /** What byte `k` of the destination gets, bit by bit. */
  lemma WrittenBit(value: Word64, big: bool, bPos: nat, tbits: nat, k: nat, t: nat)
    requires bPos < 8 && 0 < tbits && tbits + bPos <= 64 && k < 8 && t < 8
    requires forall x :: tbits <= x < 64 ==> !value[x]
    ensures var o := MemoryByte(ShiftLeft(value, Shift(big, bPos, tbits)), big, 7 - k);
            var j := 8 * k + t - bPos;
            (if big then o[t] else o[7 - t]) == (0 <= j < tbits && FieldBit(value, tbits, big, j))
  {
  }

  /** The write form: the bits of the field are or-ed into their places in the row and no other bit changes. */
  method Pack(value: Word64, p: array<Octet>, pos: nat, tbits: nat, big: bool)
    requires Placed(p.Length, pos, tbits) && forall x :: tbits <= x < 64 ==> !value[x]
    modifies p
    ensures forall n :: 0 <= n < 8 * p.Length ==>
              RowBit(p[..], big, n)
              == (RowBit(old(p[..]), big, n) || (pos <= n < pos + tbits && FieldBit(value, tbits, big, n - pos)))
  {
    hide Or, MemoryByte, ShiftLeft;
    var bPos, bits := pos % 8, 0;
    var val := ShiftLeft(value, Shift(big, bPos, tbits));
    var s, d := 7, pos / 8;
    ghost var was, first := p[..], d;
    ghost var k: nat := 0;
    while bits < tbits + bPos
      invariant bits == 8 * k && k <= 8 && bits < tbits + bPos + 8 && s == 7 - k && d == first + k
      invariant forall i :: 0 <= i < p.Length ==>
                  p[i] == if first <= i < first + k then Or(was[i], MemoryByte(val, big, 7 - (i - first))) else was[i]
      decreases tbits + bPos - bits
    {
      p[d] := Or(p[d], MemoryByte(val, big, s));
      d, s, bits, k := d + 1, s - 1, bits + 8, k + 1;
    }
    forall n: nat | n < 8 * p.Length
      ensures RowBit(p[..], big, n)
           == (RowBit(was, big, n) || (pos <= n < pos + tbits && FieldBit(value, tbits, big, n - pos)))
    {
      if first <= n / 8 < first + k {
        WrittenBit(value, big, bPos, tbits, n / 8 - first, n % 8);
      }
    }
  }

  /** The read form, before the value is cut to its width: a little-endian host also gets the bits in front of
      the field, a big-endian host those behind it, as far as the bytes reach. */
  method Unpack(p: seq<Octet>, pos: nat, tbits: nat, big: bool) returns (value: Word64)
    requires Placed(|p|, pos, tbits)
    ensures forall x :: 0 <= x < 64 ==> value[x] == ReadBit(p, pos, tbits, big, x)
  {
    hide WithMemoryByte, ShiftRight, OrderedBit;
    var bPos, bits := pos % 8, 0;
    var val: Word64 := Clear(64);
    NoBits(big);
    var s, d := pos / 8, 7;
    ghost var first := s;
    ghost var k: nat := 0;
    while bits < tbits + bPos
      invariant bits == 8 * k && k <= 8 && bits < tbits + bPos + 8 && d == 7 - k && s == first + k
      invariant ReadSoFar(p, big, first, k, val)
      decreases tbits + bPos - bits
    {
      ReadMore(p, big, first, k, val);
      val := WithMemoryByte(val, big, d, p[s]);
      d, s, bits, k := d - 1, s + 1, bits + 8, k + 1;
    }
    value := ShiftRight(val, Shift(big, bPos, tbits));
    forall x: nat | x < 64 ensures value[x] == ReadBit(p, pos, tbits, big, x) {
      ReadShifted(p, pos, tbits, big, k, val, x);
    }
  }

  /** The bits of a word in the order of the row. */
  function OrderedBit(w: Word64, big: bool, m: nat): bool
    requires m < 64
  {
    if big then w[m] else w[63 - m]
  }

  /** Bit `x` of what is read. */
  predicate ReadBit(p: seq<Octet>, pos: nat, tbits: nat, big: bool, x: nat)
    requires Placed(|p|, pos, tbits)
  {
    if big then pos + x < EndBit(pos, tbits) && RowBit(p, big, pos + x)
    else x < tbits + pos % 8 && RowBit(p, big, pos + tbits - 1 - x)
  }

  /** The end of the last byte of a field. */
  function EndBit(pos: nat, tbits: nat): nat { (pos + tbits + 7) / 8 * 8 }

  /** The bits of the first `k` bytes have been read. */
  ghost predicate ReadSoFar(p: seq<Octet>, big: bool, first: nat, k: nat, val: Word64) {
    first + k <= |p| && forall m :: 0 <= m < 64 ==> OrderedBit(val, big, m) == (m < 8 * k && RowBit(p, big, 8 * first + m))
  }

  lemma ReadMore(p: seq<Octet>, big: bool, first: nat, k: nat, val: Word64)
    requires k < 8 && first + k < |p| && ReadSoFar(p, big, first, k, val)
    ensures ReadSoFar(p, big, first, k + 1, WithMemoryByte(val, big, 7 - k, p[first + k]))
  {
    hide WithMemoryByte, OrderedBit;
    StoredBits(val, big, k, p[first + k]);
    forall m: nat | m < 64 && m / 8 == k
      ensures RowBit(p, big, 8 * first + m) == if big then p[first + k][m % 8] else p[first + k][7 - m % 8]
    {
      assert (8 * first + m) / 8 == first + k && (8 * first + m) % 8 == m % 8;
    }
  }

  lemma ReadShifted(p: seq<Octet>, pos: nat, tbits: nat, big: bool, k: nat, val: Word64, x: nat)
    requires Placed(|p|, pos, tbits) && x < 64 && ReadSoFar(p, big, pos / 8, k, val)
    requires tbits + pos % 8 <= 8 * k < tbits + pos % 8 + 8
    ensures ShiftRight(val, Shift(big, pos % 8, tbits))[x] == ReadBit(p, pos, tbits, big, x)
  {
    hide ShiftRight, OrderedBit, RowBit;
    ShiftedBit(val, big, pos % 8, tbits, x);
    assert pos == 8 * (pos / 8) + pos % 8;
    assert EndBit(pos, tbits) == 8 * (pos / 8) + 8 * k;
  }

  lemma NoBits(big: bool)
    ensures forall m :: 0 <= m < 64 ==> !OrderedBit(Clear(64), big, m)
  {
  }

  lemma StoredBits(w: Word64, big: bool, k: nat, o: Octet)
    requires k < 8
    ensures var r := WithMemoryByte(w, big, 7 - k, o);
            forall m :: 0 <= m < 64 ==>
              OrderedBit(r, big, m)
              == if m / 8 == k then (if big then o[m % 8] else o[7 - m % 8]) else OrderedBit(w, big, m)
  {
  }

  lemma ShiftedBit(w: Word64, big: bool, bPos: nat, tbits: nat, x: nat)
    requires bPos < 8 && 0 < tbits && tbits + bPos <= 64 && x < 64
    ensures ShiftRight(w, Shift(big, bPos, tbits))[x]
         == if big then x + bPos < 64 && OrderedBit(w, big, x + bPos)
            else x < tbits + bPos && OrderedBit(w, big, tbits + bPos - 1 - x)
  {
  }

  // ------------------------------------------------------------ many fields

  datatype Field = Field(pos: nat, tbits: nat, value: nat)
  {
    predicate Valid(size: nat) { Placed(size, pos, tbits) && value < Power2(tbits) }

    predicate Covers(n: nat) { pos <= n < pos + tbits }

    predicate Sets(big: bool, n: nat)
      requires tbits <= 64
    {
      Covers(n) && FieldBit(BitsOf(value, 64), tbits, big, n - pos)
    }
  }

  predicate AllValid(fields: seq<Field>, size: nat) { forall i :: 0 <= i < |fields| ==> fields[i].Valid(size) }

  predicate Disjoint(fields: seq<Field>) {
    forall i, j :: 0 <= i < j < |fields| ==>
      fields[i].pos + fields[i].tbits <= fields[j].pos || fields[j].pos + fields[j].tbits <= fields[i].pos
  }

  /** The row has exactly the bits that some field sets. */
  ghost predicate HoldsFields(b: seq<Octet>, big: bool, fields: seq<Field>)
    requires AllValid(fields, |b|)
  {
    forall n :: 0 <= n < 8 * |b| ==> RowBit(b, big, n) == SetBySome(fields, big, n)
  }

  ghost predicate SetBySome(fields: seq<Field>, big: bool, n: nat)
    requires forall i :: 0 <= i < |fields| ==> fields[i].tbits <= 64
  {
    exists i :: 0 <= i < |fields| && fields[i].Sets(big, n)
  }

  /** A value that fits its width has no bits above it. */
  lemma {:induction false} HighBitsClear(v: nat, tbits: nat, w: nat)
    requires v < Power2(tbits) && tbits <= w
    ensures forall x :: tbits <= x < w ==> !BitsOf(v, w)[x]
    ensures BitsOf(v, w)[..tbits] == BitsOf(v, tbits)
  {
    if w > 0 {
      if tbits > 0 {
        HighBitsClear(v / 2, tbits - 1, w - 1);
      } else {
        HighBitsClear(0, 0, w - 1);
      }
    }
  }

  /** Where the field is the only one, its bits read back as its value. */
  lemma FieldReadsBack(b: seq<Octet>, big: bool, fields: seq<Field>, k: nat, value: Word64)
    requires AllValid(fields, |b|) && Disjoint(fields) && HoldsFields(b, big, fields) && k < |fields|
    requires forall x :: 0 <= x < 64 ==> value[x] == ReadBit(b, fields[k].pos, fields[k].tbits, big, x)
    ensures ValueOf(value[..fields[k].tbits]) == fields[k].value
  {
    var f := fields[k];
    var bits := BitsOf(f.value, 64);
    forall x: nat | x < f.tbits ensures value[x] == bits[x] {
      var n := if big then f.pos + x else f.pos + f.tbits - 1 - x;
      OnlyField(fields, |b|, big, k, n);
      assert value[x] == RowBit(b, big, n);
    }
    assert value[..f.tbits] == bits[..f.tbits];
    HighBitsClear(f.value, f.tbits, 64);
    ValueOfBits(f.value, f.tbits);
  }

  lemma OnlyField(fields: seq<Field>, size: nat, big: bool, k: nat, n: nat)
    requires AllValid(fields, size) && Disjoint(fields) && k < |fields| && fields[k].Covers(n)
    ensures SetBySome(fields, big, n) <==> fields[k].Sets(big, n)
  {
    forall i | 0 <= i < |fields| && fields[i].Covers(n) ensures i == k {
    }
  }

  /** Packing any disjoint fields into a cleared buffer and unpacking each of them, cut to its width, gives
      every value back, on either host. */
  method PackAndUnpack(fields: seq<Field>, size: nat, big: bool) returns (values: seq<nat>)
    requires AllValid(fields, size) && Disjoint(fields)
    ensures values == seq(|fields|, i requires 0 <= i < |fields| => fields[i].value)
  {
    var p := new Octet[size](i => Clear(8));
    for i := 0 to |fields|
      invariant p.Length == size && HoldsFields(p[..], big, fields[..i])
    {
      ghost var was := p[..];
      HighBitsClear(fields[i].value, fields[i].tbits, 64);
      Pack(BitsOf(fields[i].value, 64), p, fields[i].pos, fields[i].tbits, big);
      OneMore(was, p[..], big, fields, i);
    }
    assert fields[..|fields|] == fields;
    values := [];
    for i := 0 to |fields|
      invariant HoldsFields(p[..], big, fields)
      invariant values == seq(i, j requires 0 <= j < i => fields[j].value)
    {
      var value := Unpack(p[..], fields[i].pos, fields[i].tbits, big);
      FieldReadsBack(p[..], big, fields, i, value);
      values := values + [ValueOf(value[..fields[i].tbits])];
    }
  }

  lemma OneMore(was: seq<Octet>, b: seq<Octet>, big: bool, fields: seq<Field>, i: nat)
    requires |b| == |was| && i < |fields| && AllValid(fields, |b|) && HoldsFields(was, big, fields[..i])
    requires forall n :: 0 <= n < 8 * |b| ==> RowBit(b, big, n) == (RowBit(was, big, n) || fields[i].Sets(big, n))
    ensures HoldsFields(b, big, fields[..i + 1])
  {
    hide RowBit, Field.Sets;
    forall n: nat | n < 8 * |b| ensures RowBit(b, big, n) == SetBySome(fields[..i + 1], big, n) {
      assert RowBit(was, big, n) == SetBySome(fields[..i], big, n);
      assert fields[..i + 1][i] == fields[i];
      assert forall j :: 0 <= j < i ==> fields[..i + 1][j] == fields[..i][j];
    }
  }
}
