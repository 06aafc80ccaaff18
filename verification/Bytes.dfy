/** Fixed-width little-endian numbers, as `memcpy` lays them out on the host. */
module Bytes {

  newtype byte = x: int | 0 <= x < 256

  function Pow256(w: nat): (p: nat)
    ensures p > 0
  {
    if w == 0 then 1 else 256 * Pow256(w - 1)
  }

  /** The low `w` bytes of `n`. */
  function NatBytes(n: nat, w: nat): (s: seq<byte>)
    ensures |s| == w
  {
    if w == 0 then [] else [(n % 256) as byte] + NatBytes(n / 256, w - 1)
  }

  function BytesNat(s: seq<byte>): nat {
    if s == [] then 0 else s[0] as nat + 256 * BytesNat(s[1..])
  }

  lemma {:induction false} ReadBack(n: nat, w: nat)
    requires n < Pow256(w)
    ensures BytesNat(NatBytes(n, w)) == n
  {
    if w > 0 {
      ReadBack(n / 256, w - 1);
    }
  }

  lemma {:induction false} WriteBack(s: seq<byte>)
    ensures BytesNat(s) < Pow256(|s|) && NatBytes(BytesNat(s), |s|) == s
  {
    if s != [] {
      var d, n := s[0] as nat, BytesNat(s[1..]);
      WriteBack(s[1..]);
      Digit(d, n);
      assert NatBytes(d + 256 * n, |s|) == [s[0]] + s[1..];
    }
  }

  lemma Digit(d: nat, n: nat)
    requires d < 256
    ensures (d + 256 * n) % 256 == d && (d + 256 * n) / 256 == n
  {
  }

  lemma DivideTwice(n: nat, p: nat)
    requires p > 0
    ensures n / 256 / p == n / (256 * p)
  {
    var q, r := n / (256 * p), n % (256 * p);
    assert n == 256 * (p * q) + r;
    assert n / 256 == p * q + r / 256;
    assert r / 256 < p;
    Quotient(n / 256, p, q, r / 256);
  }

  lemma Quotient(n: nat, p: nat, q: nat, r: nat)
    requires p > 0 && r < p && n == p * q + r
    ensures n / p == q
  {
    var k := n / p;
    assert n == p * k + n % p;
    Further(p, k, q);
    Further(p, q, k);
  }

  lemma Further(p: nat, x: nat, y: nat)
    ensures x < y ==> p * x + p <= p * y
  {
    if x < y {
      var d: nat := y - x - 1;
      Spread(p, x, d);
      assert y == x + 1 + d;
    }
  }

  lemma Spread(p: nat, x: nat, d: nat)
    ensures p * (x + 1 + d) == p * x + p + p * d
  {
  }

  /** Byte `i` is the digit of weight 256^i: the least significant byte comes first. */
  lemma {:induction false} ByteAt(n: nat, w: nat, i: nat)
    requires i < w
    ensures NatBytes(n, w)[i] as nat == n / Pow256(i) % 256
  {
    if i > 0 {
      ByteAt(n / 256, w - 1, i - 1);
      DivideTwice(n, Pow256(i - 1));
    }
  }
}
