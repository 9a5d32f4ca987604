/** motorola-bin: the header with a checksum, and the --strip check. */
module Motorola {
  import opened Bytes
  import opened BitSeqs
  import opened Crc32

  const HEADER_SIZE := 8

  /** The flags words of the known models. */
  const MODELS: seq<nat> := [0x10577050, 0x10577040, 0x10577000]

  /** The checksum without the final inversion, as the header stores it. */
  function Checksum(m: seq<byte>): (r: seq<byte>)
    ensures |r| == 4
  {
    Be32(ValueOf(Raw(Not(ZERO), m)))
  }

  /** The file written for the model with the given flags. */
  function Stamped(flags: nat, trx: seq<byte>): seq<byte> {
    Checksum(Be32(flags) + trx) + Be32(flags) + trx
  }

  predicate KnownFlags(w: seq<byte>)
    requires |w| == 4
  {
    exists i :: 0 <= i < |MODELS| && w == Be32(MODELS[i])
  }

  /** What --strip accepts. */
  predicate Accepted(file: seq<byte>) {
    |file| >= HEADER_SIZE && file[..4] == Checksum(file[4..]) && KnownFlags(file[4..8])
  }

  method Crc32Buf(tab: array<Reg>, buf: seq<byte>) returns (crc: Reg)
    requires tab.Length == 256 && IsTable(tab[..])
    ensures crc == Raw(Not(ZERO), buf)
  {
    crc := Fold(tab, buf, Not(ZERO));
  }

  /** The --strip path. */
  method Strip(tab: array<Reg>, file: seq<byte>) returns (out: Option<seq<byte>>)
    requires tab.Length == 256 && IsTable(tab[..])
    ensures out == if Accepted(file) then Some(file[HEADER_SIZE..]) else None
  {
    hide Raw;
    if |file| < HEADER_SIZE {
      return None;
    }
    var crc := Crc32Buf(tab, file[4..]);
    var ugh := Be32(ValueOf(crc)) != file[..4];
    var m := 0;
    while m < |MODELS| && file[4..8] != Be32(MODELS[m])
      invariant m <= |MODELS| && forall i :: 0 <= i < m ==> file[4..8] != Be32(MODELS[i])
    {
      m := m + 1;
    }
    if m == |MODELS| {
      ugh := true;
    }
    out := if ugh then None else Some(file[HEADER_SIZE..]);
  }

  /** The path that adds the header. */
  method Add(tab: array<Reg>, model: nat, trx: seq<byte>) returns (firmware: seq<byte>)
    requires tab.Length == 256 && IsTable(tab[..]) && model < |MODELS|
    ensures firmware == Stamped(MODELS[model], trx)
  {
    var flags := Be32(MODELS[model]);
    var crc := Crc32Buf(tab, flags + trx);
    firmware := Be32(ValueOf(crc)) + flags + trx;
  }

  /** Stripping what was added gives the original firmware back, for every model. */
  lemma StripStamped(model: nat, trx: seq<byte>)
    requires model < |MODELS|
    ensures var file := Stamped(MODELS[model], trx); Accepted(file) && file[HEADER_SIZE..] == trx
  {
    hide Checksum;
    var flags := Be32(MODELS[model]);
    var file := Stamped(MODELS[model], trx);
    assert file[..4] == Checksum(flags + trx) && file[4..] == flags + trx;
    assert file[4..8] == flags && file[HEADER_SIZE..] == trx;
  }

  lemma ChecksumInjective(a: Reg, b: Reg)
    requires Be32(ValueOf(a)) == Be32(ValueOf(b))
    ensures a == b
  {
    hide BitsOf, ValueOf, Be32, GetBe32, Power2;
    BitsOfValue(a);
    BitsOfValue(b);
    Powers();
    SmallWord(ValueOf(a));
    SmallWord(ValueOf(b));
  }

  /** No file is accepted that differs from an accepted one only within four consecutive bytes of the region
      that the checksum covers. */
  lemma ChangedBodyRejected(head: seq<byte>, front: seq<byte>, a: seq<byte>, b: seq<byte>, back: seq<byte>)
    requires |head| == 4 && |a| == |b| <= 4 && a != b
    requires Accepted(head + (front + a + back))
    ensures !Accepted(head + (front + b + back))
  {
    hide Raw, KnownFlags;
    var x, y := front + a + back, front + b + back;
    assert (head + x)[..4] == head && (head + x)[4..] == x;
    assert (head + y)[..4] == head && (head + y)[4..] == y;
    if Checksum(x) == Checksum(y) {
      ChecksumInjective(Raw(Not(ZERO), x), Raw(Not(ZERO), y));
      BurstDetected(Not(ZERO), front, a, b, back);
    }
  }

  /** Nor is any other checksum accepted over the same bytes. */
  lemma ChangedChecksumRejected(head: seq<byte>, head': seq<byte>, rest: seq<byte>)
    requires |head| == |head'| == 4 && head != head' && Accepted(head + rest)
    ensures !Accepted(head' + rest)
  {
    hide Checksum, KnownFlags;
    assert (head + rest)[..4] == head && (head + rest)[4..] == rest;
    assert (head' + rest)[..4] == head' && (head' + rest)[4..] == rest;
  }

  // ------------------------------------------------------------ the header, word by word

  /** The checksum word is the CRC of RFC 1952 with every bit inverted. */
  lemma ChecksumIs(m: seq<byte>, w: seq<byte>)
    requires |w| == 4
    ensures w == Checksum(m) <==> GetBe32(w) == ValueOf(Not(Crc(m)))
  {
    hide Raw, BitsOf, ValueOf, Be32, GetBe32, Le32, GetLe32, Power2;
    var r := Raw(Not(ZERO), m);
    NotNot(r);
    BitsOfValue(r);
    Powers();
    SmallWord(ValueOf(r));
    BytesRoundTrip(w);
  }

  /** --strip accepts a file if and only if its first word is that checksum of all the rest, and its second word is that
      of a WR850G, a WA840G or a WE800G. */
  lemma AcceptedExactly(file: seq<byte>)
    ensures Accepted(file) <==>
            && |file| >= 8
            && GetBe32(file[0..4]) == ValueOf(Not(Crc(file[4..])))
            && GetBe32(file[4..8]) in {0x10577050, 0x10577040, 0x10577000}
  {
    hide Checksum, ValueOf, Crc, Be32, GetBe32;
    if |file| >= 8 {
      ChecksumIs(file[4..], file[0..4]);
      FlagsAre(file[4..8]);
    }
  }

  lemma FlagsAre(w: seq<byte>)
    requires |w| == 4
    ensures KnownFlags(w) <==> GetBe32(w) in {0x10577050, 0x10577040, 0x10577000}
  {
    hide Be32, GetBe32, Le32, GetLe32;
    BytesRoundTrip(w);
    SmallWord(0x10577050);
    SmallWord(0x10577040);
    SmallWord(0x10577000);
    assert MODELS[0] == 0x10577050 && MODELS[1] == 0x10577040 && MODELS[2] == 0x10577000;
  }

  /** The file written for each of the three models. */
  lemma StampedWords(model: nat, trx: seq<byte>)
    requires model < 3
    ensures var file := Stamped(MODELS[model], trx);
            && GetBe32(file[0..4]) == ValueOf(Not(Crc(file[4..])))
            && GetBe32(file[4..8]) == (if model == 0 then 0x10577050 else if model == 1 then 0x10577040 else 0x10577000)
            && file[8..] == trx
  {
    hide Checksum, ValueOf, Crc, Be32, GetBe32;
    var file := Stamped(MODELS[model], trx);
    StripStamped(model, trx);
    ChecksumIs(file[4..], file[0..4]);
    assert file[4..8] == Be32(MODELS[model]);
    SmallWord(MODELS[model]);
  }
}
