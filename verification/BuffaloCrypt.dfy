/** The in-place programs of buffalo-lib: key schedule and stream over a state array, and the two calls that
    encrypt and decrypt a container inside one buffer. */
module BuffaloCrypt {
  import opened Bytes
  import opened BitSeqs
  import opened Crc32
  import opened Buffalo

  /** `struct bcrypt_ctx` */
  class BcryptCtx {
    var i: nat
    var j: nat
    var state: array<byte>

    /** The context as a value. */
    ghost function Value(): Cipher
      reads this, state
    {
      Cipher(state[..], i, j)
    }

    /** bcrypt_init */
    constructor (key: seq<byte>, stateLen: nat)
      requires key != [] && stateLen > 0
      ensures fresh(state) && state.Length == stateLen && i < stateLen && j < stateLen
      ensures Value() == Cipher(Schedule(key, Counting(stateLen), 0, 0), 0, 0)
    {
      i, j := 0, 0;
      state := new byte[stateLen](n requires 0 <= n => n % 256);
      new;
      assert state[..] == Counting(stateLen);
      MixKey(key, state);
    }

    /** The key schedule loop. */
    static method MixKey(key: seq<byte>, state: array<byte>)
      requires key != [] && state.Length > 0
      modifies state
      ensures state[..] == Schedule(key, old(state[..]), 0, 0)
    {
      hide Schedule, Swap;
      var stateLen := state.Length;
      var i, j, k := 0, 0, 0;
      FieldsSplit(0, 0, |key|);
      while i < stateLen
        invariant i <= stateLen && j == i % |key|
        invariant Schedule(key, state[..], i, k) == Schedule(key, old(state[..]), 0, 0)
      {
        ghost var s := state[..];
        ScheduleStep(key, s, i, k);
        var t := state[i];
        k := (k + key[j] as nat + t as nat) % stateLen;
        state[i] := state[k];
        state[k] := t;
        SwapArray(s, state, i, k);
        NextModulo(i, |key|);
        i, j := i + 1, (j + 1) % |key|;
      }
      ScheduleEnd(key, state[..], i, k);
    }

    /** One turn of the loop of bcrypt_process; returns the key byte. */
    method Turn() returns (b: byte)
      requires 0 < state.Length && i < state.Length && j < state.Length
      modifies this`i, this`j, state
      ensures i < state.Length && j < state.Length
      ensures Value() == old(Value()).Next() && b == Value().Output()
    {
      var stateLen := state.Length;
      ghost var s := state[..];
      SmallIndex(i + 1, stateLen);
      i := (i + 1) % stateLen % 256;
      SmallIndex(j + state[i], stateLen);
      j := (j + state[i] as nat) % stateLen % 256;
      var t := state[j];
      state[j] := state[i];
      state[i] := t;
      assert state[..] == Swap(s, i, j);
      b := state[(state[i] as nat + state[j] as nat) % stateLen];
    }
  }

  lemma ScheduleStep(key: seq<byte>, s: seq<byte>, i: nat, k: nat)
    requires key != [] && i < |s|
    ensures var k' := (k + key[i % |key|] as nat + s[i] as nat) % |s|;
            Schedule(key, s, i, k) == Schedule(key, Swap(s, i, k'), i + 1, k')
  {
    hide Swap;
  }

  lemma ScheduleEnd(key: seq<byte>, s: seq<byte>, i: nat, k: nat)
    requires key != [] && i >= |s|
    ensures Schedule(key, s, i, k) == s
  {
  }

  lemma SwapArray(s: seq<byte>, state: array<byte>, i: nat, k: nat)
    requires |s| == state.Length && i < |s| && k < |s|
    requires state[..] == s[i := s[k]][k := s[i]]
    ensures state[..] == Swap(s, i, k)
  {
  }

  lemma NextModulo(n: nat, m: nat)
    requires m > 0
    ensures (n % m + 1) % m == (n + 1) % m
  {
    NextDigit(n / m, n % m, m);
    assert n == n % m + m * (n / m);
  }

  lemma NextDigit(q: nat, r: nat, m: nat)
    requires r < m
    ensures (r + 1) % m == (r + 1 + m * q) % m
  {
    if r + 1 < m {
      FieldsSplit(r + 1, q, m);
      FieldsSplit(r + 1, 0, m);
    } else {
      FieldsSplit(0, q + 1, m);
      FieldsSplit(0, 1, m);
      assert m + m * q == m * (q + 1);
    }
  }

  lemma StreamNext(c: Cipher, len: nat)
    requires c.Valid() && len > 0
    ensures var d := c.Next(); d.i < |d.state| && d.j < |d.state| && Stream(c, len) == [d.Output()] + Stream(d, len - 1)
  {
    SmallIndex(c.i + 1, |c.state|);
    SmallIndex(c.j + c.state[(c.i + 1) % |c.state| % 256], |c.state|);
  }

  /** bcrypt_buf, from `src` onto the same or a lower place `dst` of one buffer: a byte is read before
      anything is written over it. */
  method BcryptBuf(seed: byte, key: seq<byte>, buf: array<byte>, src: nat, dst: nat, len: nat, longstate: bool)
    requires |key| <= MAX_KEYLEN && dst <= src && src + len <= buf.Length
    modifies buf
    ensures buf[dst..dst + len] == Crypt(seed, key, old(buf[src..src + len]), longstate)
    ensures buf[..dst] == old(buf[..dst]) && buf[dst + len..] == old(buf[dst + len..])
  {
    hide XorByte, Schedule, Stream, Cipher.Next, Cipher.Output, Counting;
    ghost var was := buf[..];
    if len == 0 {
      return;
    }
    var ctx := new BcryptCtx([seed] + key, StateLen(len, longstate));
    ghost var ks := KeyStream(seed, key, len, longstate);
    XorOnto(ctx, ks, buf, src, dst, len);
    assert buf[dst..dst + len] == Crypt(seed, key, was[src..src + len], longstate);
  }

  /** bcrypt_process */
  method XorOnto(ctx: BcryptCtx, ghost ks: seq<byte>, buf: array<byte>, src: nat, dst: nat, len: nat)
    requires dst <= src && src + len <= buf.Length && |ks| == len && ctx.state != buf
    requires 0 < ctx.state.Length && ctx.i < ctx.state.Length && ctx.j < ctx.state.Length
    requires Stream(ctx.Value(), len) == ks
    modifies buf, ctx`i, ctx`j, ctx.state
    ensures forall n :: 0 <= n < len ==> buf[dst + n] == XorByte(old(buf[src + n]), ks[n])
    ensures buf[..dst] == old(buf[..dst]) && buf[dst + len..] == old(buf[dst + len..])
  {
    hide XorByte, Stream, Cipher.Next, Cipher.Output;
    ghost var was := buf[..];
    var k := 0;
    assert ks[0..] == ks;
    while k < len
      invariant k <= len && ctx.i < ctx.state.Length && ctx.j < ctx.state.Length
      invariant Stream(ctx.Value(), len - k) == ks[k..]
      invariant forall n :: 0 <= n < k ==> buf[dst + n] == XorByte(was[src + n], ks[n])
      invariant forall n :: 0 <= n < dst ==> buf[n] == was[n]
      invariant forall n :: dst + k <= n < buf.Length ==> buf[n] == was[n]
    {
      StreamNext(ctx.Value(), len - k);
      var b := ctx.Turn();
      NextKey(ks, k, b, Stream(ctx.Value(), len - k - 1));
      buf[dst + k] := XorByte(buf[src + k], b);
      k := k + 1;
    }
    assert buf[..dst] == was[..dst] && buf[dst + len..] == was[dst + len..];
  }

  lemma NextKey(ks: seq<byte>, k: nat, b: byte, rest: seq<byte>)
    requires k < |ks| && ks[k..] == [b] + rest
    ensures ks[k] == b && ks[k + 1..] == rest
  {
    assert ks[k + 1..] == ks[k..][1..];
  }

  /** memcpy(buf + at, s) */
  method Store(buf: array<byte>, at: nat, s: seq<byte>)
    requires at + |s| <= buf.Length
    modifies buf
    ensures buf[..at] == old(buf[..at]) && buf[at..at + |s|] == s && buf[at + |s|..] == old(buf[at + |s|..])
  {
    ghost var was := buf[..];
    var n := 0;
    while n < |s|
      invariant n <= |s| && forall k :: 0 <= k < at ==> buf[k] == was[k]
      invariant forall k :: 0 <= k < n ==> buf[at + k] == s[k]
      invariant forall k :: at + n <= k < buf.Length ==> buf[k] == was[k]
    {
      buf[at + n] := s[n];
      n := n + 1;
    }
    assert buf[..at] == was[..at] && buf[at..at + n] == s && buf[at + n..] == was[at + n..];
  }

  /** `Store`, for a buffer that is filled from the front. */
  method Append(buf: array<byte>, at: nat, s: seq<byte>) returns (end: nat)
    requires at + |s| <= buf.Length
    modifies buf
    ensures end == at + |s| && buf[..end] == old(buf[..at]) + s && buf[end..] == old(buf[end..])
  {
    Store(buf, at, s);
    end := at + |s|;
    assert buf[..end] == buf[..at] + buf[at..end];
  }

  /** A field of the header: its length, then the string with its terminator, encrypted in place; returns
      the first ciphertext byte, which is the next seed. */
  method AppendField(buf: array<byte>, at: nat, seed: byte, key: seq<byte>, s: seq<byte>, longstate: bool)
    returns (end: nat, next: byte)
    requires |key| <= MAX_KEYLEN && s != [] && at + 4 + |s| <= buf.Length
    modifies buf
    ensures end == at + 4 + |s| && next == Crypt(seed, key, s, longstate)[0]
    ensures buf[..end] == old(buf[..at]) + Be32(|s|) + Crypt(seed, key, s, longstate) && buf[end..] == old(buf[end..])
  {
    hide Crypt;
    var p := Append(buf, at, Be32(|s|));
    Store(buf, p, s);
    BcryptBuf(seed, key, buf, p, p, |s|, longstate);
    end := p + |s|;
    next := buf[p];
    assert buf[p] == buf[p..end][0];
    assert buf[..end] == buf[..p] + buf[p..end];
  }

  /** encrypt_buf: the header goes in front of the data, which is encrypted where it lies; the caller has
      computed the checksum of the plain data. */
  method EncryptBuf(p: Param, buf: array<byte>, datalen: nat, csum: seq<byte>)
    requires p.Valid() && HeaderLen(p) + datalen + 4 <= buf.Length && |csum| == 4
    requires csum == Checksum(buf[HeaderLen(p)..HeaderLen(p) + datalen])
    modifies buf
    ensures buf[..HeaderLen(p) + datalen + 4] == Container(p, old(buf[HeaderLen(p)..HeaderLen(p) + datalen]))
    ensures buf[HeaderLen(p) + datalen + 4..] == old(buf[HeaderLen(p) + datalen + 4..])
  {
    hide Crypt, Checksum;
    var hdr := HeaderLen(p);
    ghost var data := buf[hdr..hdr + datalen];
    ghost var was := buf[hdr..];
    var s := WriteHeader(p, buf, datalen);
    assert buf[hdr..hdr + datalen] == buf[hdr..][..datalen] == was[..datalen] == data;
    ghost var b1, b0 := buf[..], old(buf[..]);
    BcryptBuf(s, p.key, buf, hdr, hdr, datalen, p.longstate);
    assert buf[..hdr + datalen] == buf[..hdr] + buf[hdr..hdr + datalen];
    KeptTail(b1, b0, hdr, hdr + datalen + 4);
    KeptTail(buf[..], b1, hdr + datalen, hdr + datalen + 4);
    var end := Append(buf, hdr + datalen, csum);
  }

  /** The header part of encrypt_buf; returns the seed for the data. */
  method WriteHeader(p: Param, buf: array<byte>, datalen: nat) returns (s: byte)
    requires p.Valid() && HeaderLen(p) <= buf.Length
    modifies buf
    ensures buf[..HeaderLen(p)] == Header(p, datalen) && buf[HeaderLen(p)..] == old(buf[HeaderLen(p)..])
    ensures s == CryptedVersion(p)[0]
  {
    hide Crypt;
    var hdr := HeaderLen(p);
    ghost var was := buf[..];
    var at := Append(buf, 0, p.magic + [0]);
    KeptTail(buf[..], was, at, hdr);
    ghost var b1 := buf[..];
    at := Append(buf, at, [p.seed]);
    KeptTail(buf[..], b1, at, hdr);
    ghost var b2 := buf[..];
    at, s := AppendField(buf, at, p.seed, p.key, p.product + [0], p.longstate);
    KeptTail(buf[..], b2, at, hdr);
    ghost var b3 := buf[..];
    at, s := AppendField(buf, at, s, p.key, p.version + [0], p.longstate);
    KeptTail(buf[..], b3, at, hdr);
    ghost var b4 := buf[..];
    at := Append(buf, at, Be32(datalen));
    KeptTail(buf[..], b4, at, hdr);
    assert [] + (p.magic + [0]) == p.magic + [0];
  }

  lemma KeptTail(now: seq<byte>, was: seq<byte>, at: nat, hdr: nat)
    requires |now| == |was| && at <= hdr <= |was| && now[at..] == was[at..]
    ensures now[hdr..] == was[hdr..]
  {
    assert now[hdr..] == now[at..][hdr - at..] && was[hdr..] == was[at..][hdr - at..];
  }

  /** buffalo_csum */
  method BuffaloCsum(csum: Reg, buf: array<byte>, len: nat) returns (r: Reg)
    requires len <= buf.Length
    ensures r == Csum(csum, buf[..len])
  {
    hide Roll, SignExtended;
    r := csum;
    var n := 0;
    assert buf[0..len] == buf[..len];
    while n < len
      invariant n <= len && Csum(r, buf[n..len]) == Csum(csum, buf[..len])
    {
      assert buf[n..len][0] == buf[n] && buf[n..len][1..] == buf[n + 1..len];
      r := BitSeqs.Xor(r, SignExtended(buf[n]));
      var i := 0;
      ghost var start := r;
      while i < 8
        invariant i <= 8 && Roll(r, 8 - i) == Roll(start, 8)
      {
        RollNext(r, 8 - i);
        r := Half(r);
        i := i + 1;
      }
      RollNone(r);
      n := n + 1;
    }
  }

  /** Reads a length-prefixed field at `at`. */
  method ReadField(buf: array<byte>, at: nat, limit: nat) returns (ok: bool, start: nat, end: nat)
    requires at <= buf.Length
    ensures ok ==> start == at + 4 <= end <= buf.Length
    ensures TakeField(buf[at..], limit) == if ok then Some((buf[start..end], buf[end..])) else None
  {
    hide GetBe32;
    start, end := at, at;
    if buf.Length - at < 4 {
      return false, start, end;
    }
    assert buf[at..][..4] == buf[at..at + 4];
    var n := GetBe32(buf[at..at + 4]);
    if n > limit || buf.Length - at - 4 < n {
      return false, start, end;
    }
    ok, start, end := true, at + 4, at + 4 + n;
    assert buf[at..][4..4 + n] == buf[start..end] && buf[at..][4 + n..] == buf[end..];
  }

  /** Decrypts a name in a buffer of its own. */
  method DecryptName(seed: byte, key: seq<byte>, s: seq<byte>, limit: nat, longstate: bool) returns (r: seq<byte>)
    requires |key| <= MAX_KEYLEN && |s| <= limit
    ensures r == Crypt(seed, key, s, longstate)
  {
    hide Crypt;
    var name := new byte[limit](_ => 0);
    Store(name, 0, s);
    assert name[0..|s|] == s;
    BcryptBuf(seed, key, name, 0, 0, |s|, longstate);
    r := name[0..|s|];
  }

  /** The three length-prefixed fields behind magic and seed. */
  datatype Fields = Fields(product: seq<byte>, version: seq<byte>, crypted: seq<byte>, rest: seq<byte>)

  function TakeFields(b: seq<byte>): Option<Fields> {
    match TakeField(b, PRODUCT_LEN)
    case None => None
    case Some((product, b1)) =>
      match TakeField(b1, VERSION_LEN)
      case None => None
      case Some((version, b2)) =>
        match TakeField(b2, 0x1_0000_0000)
        case None => None
        case Some((crypted, b3)) => Some(Fields(product, version, crypted, b3))
  }

  /** Walks over the fields with the bounds checks of decrypt_buf; copies the names, and locates the data. */
  method ReadFields(buf: array<byte>, at: nat)
    returns (ok: bool, product: seq<byte>, version: seq<byte>, d0: nat, d1: nat)
    requires at <= buf.Length
    ensures ok ==> at <= d0 <= d1 <= buf.Length && |product| <= PRODUCT_LEN && |version| <= VERSION_LEN
    ensures TakeFields(buf[at..]) == if ok then Some(Fields(product, version, buf[d0..d1], buf[d1..])) else None
  {
    hide TakeField;
    product, version, d0, d1 := [], [], 0, 0;
    var p0, p1, v0, v1;
    ok, p0, p1 := ReadField(buf, at, PRODUCT_LEN);
    if !ok {
      return;
    }
    FieldLimit(buf[at..], PRODUCT_LEN);
    product := buf[p0..p1];
    ok, v0, v1 := ReadField(buf, p1, VERSION_LEN);
    if !ok {
      return;
    }
    FieldLimit(buf[p1..], VERSION_LEN);
    version := buf[v0..v1];
    ok, d0, d1 := ReadField(buf, v1, 0x1_0000_0000);
  }

  lemma DecryptedIs(key: seq<byte>, longstate: bool, b: seq<byte>)
    requires |b| >= MAGIC_LEN + 1
    ensures Decrypted(key, longstate, b)
         == match TakeFields(b[MAGIC_LEN + 1..])
            case None => None
            case Some(f) =>
              var data := Crypt(First(f.version), key, f.crypted, longstate);
              if |f.rest| < 4 || f.rest[..4] != Checksum(data) then None
              else
                Some(Found(b[..MAGIC_LEN], b[MAGIC_LEN], Crypt(b[MAGIC_LEN], key, f.product, longstate),
                           Crypt(First(f.product), key, f.version, longstate), data, f.rest[..4]))
  {
    hide Crypt, TakeField, Checksum, First;
  }

  /** decrypt_buf: the data moves to the front of the buffer as it is decrypted, over the header that has
      been read by then. */
  method DecryptBuf(key: seq<byte>, longstate: bool, buf: array<byte>) returns (found: Option<Found>)
    requires |key| <= MAX_KEYLEN
    modifies buf
    ensures found == Decrypted(key, longstate, old(buf[..]))
    ensures found.Some? ==> |found.value.data| <= buf.Length && buf[..|found.value.data|] == found.value.data
  {
    hide Crypt, TakeFields, Csum, Decrypted, Be32;
    ghost var b := buf[..];
    if buf.Length < MAGIC_LEN + 1 {
      TooShort(key, longstate, b);
      return None;
    }
    DecryptedIs(key, longstate, b);
    var magic := buf[..MAGIC_LEN];
    var seed := buf[MAGIC_LEN];
    assert b[MAGIC_LEN + 1..] == buf[MAGIC_LEN + 1..];
    var ok, product, version, d0, d1 := ReadFields(buf, MAGIC_LEN + 1);
    if !ok {
      return None;
    }
    var datalen := d1 - d0;
    BcryptBuf(First(version), key, buf, d0, 0, datalen, longstate);
    assert buf[0..datalen] == buf[..datalen];
    KeptTail(buf[..], b, datalen, d1);
    if buf.Length - d1 < 4 {
      return None;
    }
    assert b[d1..][..4] == buf[d1..][..4] == buf[d1..d1 + 4];
    var csum := buf[d1..d1 + 4];
    var sum := BuffaloCsum(BitsOf(datalen, 32), buf, datalen);
    if Be32(ValueOf(sum)) != csum {
      return None;
    }
    var plainVersion := DecryptName(First(product), key, version, VERSION_LEN, longstate);
    var plainProduct := DecryptName(seed, key, product, PRODUCT_LEN, longstate);
    found := Some(Found(magic, seed, plainProduct, plainVersion, buf[..datalen], csum));
  }

  lemma TooShort(key: seq<byte>, longstate: bool, b: seq<byte>)
    requires |b| < MAGIC_LEN + 1
    ensures Decrypted(key, longstate, b) == None
  {
  }

  lemma FieldLimit(b: seq<byte>, limit: nat)
    ensures TakeField(b, limit).Some? ==> |TakeField(b, limit).value.0| <= limit
  {
  }

  /** The buffer that the caller allocates has room for the container, with one to four bytes to spare. */
  lemma BufLenRoom(p: Param, datalen: nat)
    ensures BufLen(p, datalen) % 4 == 0
    ensures HeaderLen(p) + datalen + 4 < BufLen(p, datalen) <= HeaderLen(p) + datalen + 8
  {
  }

  /** Encrypting a file and decrypting the result in the same buffer gives the file back. */
  method RoundTrip(p: Param, data: seq<byte>, garbage: byte) returns (found: Option<Found>, image: seq<byte>)
    requires p.Valid() && |data| < 0x1_0000_0000
    ensures |image| == BufLen(p, |data|) && Container(p, data) <= image
    ensures found == Some(Found(p.magic + [0], p.seed, p.product + [0], p.version + [0], data, Checksum(data)))
  {
    hide Checksum, Container, Decrypted;
    BufLenRoom(p, |data|);
    var hdr := HeaderLen(p);
    var buf := new byte[BufLen(p, |data|)](_ => garbage);
    Store(buf, hdr, data);
    EncryptBuf(p, buf, |data|, Checksum(data));
    image := buf[..];
    ghost var end := hdr + |data| + 4;
    ghost var more := image[end..];
    assert image[..end] == Container(p, data) && image == image[..end] + more;
    DecryptContainer(p, data, more);
    found := DecryptBuf(p.key, p.longstate, buf);
  }
}
