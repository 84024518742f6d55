/** Bytes, machine words and little-endian values shared by the byte-level models. */
module Bytes {

  type byte = b: int | 0 <= b < 256
  type word = w: int | 0 <= w < 0x1_0000_0000

  /** The value of a byte string read with its least significant byte first. */
  function LeNat(s: seq<byte>): nat {
    if s == [] then 0 else s[0] + 256 * LeNat(s[1..])
  }

  /** The `n` low-order bytes of `v`, least significant first. */
  function LeBytes(v: nat, n: nat): (s: seq<byte>)
    ensures |s| == n
  {
    if n == 0 then [] else [v % 256] + LeBytes(v / 256, n - 1)
  }

  function Pow256(n: nat): (p: nat)
    ensures p > 0
  {
    if n == 0 then 1 else 256 * Pow256(n - 1)
  }

  function Zeros(n: nat): (s: seq<byte>)
    ensures |s| == n && forall i :: 0 <= i < n ==> s[i] == 0
  {
    seq(n, _ => 0)
  }

  /** Four bytes, most significant first: Rust's `u32::to_be_bytes`. */
  function WordBe(w: word): (s: seq<byte>)
    ensures |s| == 4
  {
    [w / 0x100_0000, w / 0x1_0000 % 256, w / 0x100 % 256, w % 256]
  }

  lemma {:induction false} LeNatBound(s: seq<byte>)
    ensures LeNat(s) < Pow256(|s|)
  {
    if s != [] {
      LeNatBound(s[1..]);
    }
  }

  lemma {:induction false} LeNatConcat(a: seq<byte>, b: seq<byte>)
    ensures LeNat(a + b) == LeNat(a) + Pow256(|a|) * LeNat(b)
  {
    if a == [] {
      assert a + b == b;
    } else {
      LeNatConcat(a[1..], b);
      assert (a + b)[1..] == a[1..] + b;
      MulAssoc(256, Pow256(|a| - 1), LeNat(b));
    }
  }

  lemma MulAssoc(x: int, y: int, z: int)
    ensures x * (y * z) == (x * y) * z
  {
  }

  /** Writing a value that fits and reading it back gives the value. */
  lemma {:induction false} LeRoundTrip(v: nat, n: nat)
    requires v < Pow256(n)
    ensures LeNat(LeBytes(v, n)) == v
  {
    if n > 0 {
      LeRoundTrip(v / 256, n - 1);
      assert LeBytes(v, n)[1..] == LeBytes(v / 256, n - 1);
    }
  }

  /** Reading bytes and writing the value back gives the bytes. */
  lemma {:induction false} LeBytesRoundTrip(s: seq<byte>)
    ensures LeBytes(LeNat(s), |s|) == s
  {
    if s != [] {
      LeBytesRoundTrip(s[1..]);
      LowByte(s[0], LeNat(s[1..]));
    }
  }

  lemma LowByte(b: byte, n: nat)
    ensures (b + 256 * n) % 256 == b && (b + 256 * n) / 256 == n
  {
  }
}
