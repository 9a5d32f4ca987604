/** Machine words as sequences of bits, the least significant bit first. */
module BitSeqs {
  import opened Bytes

  function Xor(a: seq<bool>, b: seq<bool>): (r: seq<bool>)
    requires |a| == |b|
    ensures |r| == |a| && forall k :: 0 <= k < |a| ==> r[k] == (a[k] != b[k])
  {
    seq(|a|, k requires 0 <= k < |a| => a[k] != b[k])
  }

  function Not(a: seq<bool>): (r: seq<bool>)
    ensures |r| == |a| && forall k :: 0 <= k < |a| ==> r[k] == !a[k]
  {
    seq(|a|, k requires 0 <= k < |a| => !a[k])
  }

  function Clear(n: nat): (r: seq<bool>)
    ensures |r| == n && forall k :: 0 <= k < n ==> !r[k]
  {
    seq(n, k => false)
  }

  /** Bit `k` of the number `n`. */
  predicate BitOf(n: nat, k: nat) {
    if k == 0 then n % 2 == 1 else BitOf(n / 2, k - 1)
  }

  /** The low `w` bits of `n`. */
  function BitsOf(n: nat, w: nat): (r: seq<bool>)
    ensures |r| == w
  {
    if w == 0 then [] else [n % 2 == 1] + BitsOf(n / 2, w - 1)
  }

  function ValueOf(s: seq<bool>): nat {
    if s == [] then 0 else (if s[0] then 1 else 0) + 2 * ValueOf(s[1..])
  }

  lemma {:induction false} BitsOfValue(s: seq<bool>)
    ensures BitsOf(ValueOf(s), |s|) == s && ValueOf(s) < Power2(|s|)
  {
    if s != [] {
      BitsOfValue(s[1..]);
      assert ValueOf(s) / 2 == ValueOf(s[1..]);
    }
  }

  lemma Powers()
    ensures Power2(16) == 0x1_0000 && Power2(31) == 0x8000_0000 && Power2(32) == 0x1_0000_0000
  {
    assert Power2(4) == 0x10;
    assert Power2(8) == 16 * Power2(4);
    assert Power2(12) == 16 * Power2(8);
    assert Power2(16) == 16 * Power2(12);
    assert Power2(20) == 16 * Power2(16);
    assert Power2(24) == 16 * Power2(20);
    assert Power2(28) == 16 * Power2(24);
    assert Power2(31) == 8 * Power2(28);
  }

  lemma {:induction false} ValueOfBits(n: nat, w: nat)
    requires n < Power2(w)
    ensures ValueOf(BitsOf(n, w)) == n
  {
    if w > 0 {
      ValueOfBits(n / 2, w - 1);
      assert BitsOf(n, w)[1..] == BitsOf(n / 2, w - 1);
    }
  }

  lemma {:induction false} BitAt(n: nat, w: nat, k: nat)
    requires k < w
    ensures BitsOf(n, w)[k] == BitOf(n, k)
  {
    if k > 0 {
      BitAt(n / 2, w - 1, k - 1);
    }
  }
}
