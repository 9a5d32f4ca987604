/** Hashing a message block by block while it arrives in pieces: what every streaming hash keeps, for any
    compression function and any type of byte. */
module HashStream {
  import opened Bytes

  /** Feeds all complete 64-byte blocks of `s` to the compression function `f`. */
  function Absorb<S, B>(f: (S, seq<B>) -> S, st: S, s: seq<B>): S {
    if |s| < 64 then st else Absorb(f, f(st, s[..64]), s[64..])
  }

  lemma {:induction false} AbsorbConcat<S, B>(f: (S, seq<B>) -> S, st: S, a: seq<B>, b: seq<B>)
    requires |a| % 64 == 0
    ensures Absorb(f, st, a + b) == Absorb(f, Absorb(f, st, a), b)
    decreases |a|
  {
    if a == [] {
      assert a + b == b;
    } else {
      AbsorbConcat(f, f(st, a[..64]), a[64..], b);
      assert (a + b)[..64] == a[..64] && (a + b)[64..] == a[64..] + b;
    }
  }

  lemma AbsorbBlock<S, B>(f: (S, seq<B>) -> S, st: S, b: seq<B>)
    requires |b| == 64
    ensures Absorb(f, st, b) == f(st, b)
  {
    assert b[..64] == b;
  }

  /** After the message `m`, the registers are `st` and the bytes `p` still wait for a full block. */
  ghost predicate Streaming<S, B>(f: (S, seq<B>) -> S, init: S, m: seq<B>, st: S, p: seq<B>) {
    && |p| < 64 && |p| <= |m| && (|m| - |p|) % 64 == 0 && m[|m| - |p|..] == p
    && st == Absorb(f, init, m[..|m| - |p|])
  }

  lemma StreamStart<S, B>(f: (S, seq<B>) -> S, init: S)
    ensures Streaming(f, init, [], init, [])
  {
  }

  /** Bytes that do not complete a block only wait. */
  lemma StreamKeep<S, B>(f: (S, seq<B>) -> S, init: S, m: seq<B>, st: S, p: seq<B>, d: seq<B>)
    requires Streaming(f, init, m, st, p) && |p| + |d| < 64
    ensures Streaming(f, init, m + d, st, p + d)
  {
    hide Absorb;
    assert (m + d)[..|m| - |p|] == m[..|m| - |p|];
  }

  /** Bytes that complete a block are compressed with the waiting ones. */
  lemma StreamFill<S, B>(f: (S, seq<B>) -> S, init: S, m: seq<B>, st: S, p: seq<B>, d: seq<B>)
    requires Streaming(f, init, m, st, p) && |p| + |d| == 64
    ensures Streaming(f, init, m + d, f(st, p + d), [])
  {
    hide Absorb;
    var front := m[..|m| - |p|];
    AbsorbConcat(f, init, front, p + d);
    AbsorbBlock(f, st, p + d);
    assert m + d == front + (p + d);
    assert (m + d)[..|m + d|] == m + d;
  }

  lemma StreamSize<S, B>(f: (S, seq<B>) -> S, init: S, m: seq<B>, st: S, p: seq<B>)
    requires Streaming(f, init, m, st, p)
    ensures |p| == |m| % 64
    ensures p == [] ==> st == Absorb(f, init, m)
  {
    hide Absorb;
    if p == [] { assert m[..|m|] == m; }
  }

  /** The padding of RFC 1321 section 3.1 and FIPS 180-1 section 4: a mark, then zeros up to 56 modulo 64. */
  function Fill<B>(mark: B, zero: B, n: nat): (r: seq<B>)
    ensures 0 < |r| <= 64 && (n + |r|) % 64 == 56
  {
    [mark] + seq((55 - n) % 64, i => zero)
  }

  /** The message that a sequence of updates makes. */
  function Flattened<B>(parts: seq<seq<B>>): seq<B> {
    if parts == [] then [] else Flattened(parts[..|parts| - 1]) + parts[|parts| - 1]
  }

  /** Padding and an eight-byte length make whole blocks. */
  lemma WholeBlocks<B>(m: seq<B>, mark: B, zero: B, length: seq<B>)
    requires |length| == 8
    ensures |m + Fill(mark, zero, |m|) + length| % 64 == 0
  {
    hide Fill;
    EightMore(|m| + |Fill(mark, zero, |m|)|);
  }

  lemma EightMore(n: nat)
    requires n % 64 == 56
    ensures (n + 8) % 64 == 0
  {
  }
}
