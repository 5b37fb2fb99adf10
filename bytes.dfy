/**
  Bytes of the log stream and the little-endian integer codings that the
  struct codes b, B, h, H, i, I, q and Q stand for (always with the `<`
  prefix, so no padding and no native byte order).
 */
module Bytes {

  /** One octet of the log stream. */
  type Byte = b: int | 0 <= b < 256

  /** 256 to the power n: how many values an n-byte field can hold. */
  function Pow256(n: nat): (p: nat)
    ensures p >= 1
    ensures n > 0 ==> p % 2 == 0 && p / 2 >= 1
  {
    if n == 0 then 1 else 256 * Pow256(n - 1)
  }

  /** The unsigned integer that b spells, least significant byte first. */
  function UIntLE(b: seq<Byte>): (r: nat)
    ensures r < Pow256(|b|)
  {
    if b == [] then 0 else b[0] + 256 * UIntLE(b[1..])
  }

  /** The two's-complement integer that b spells, least significant byte first. */
  function IntLE(b: seq<Byte>): (r: int)
    requires |b| > 0
    ensures -(Pow256(|b|) / 2) <= r < Pow256(|b|) / 2
    ensures r >= 0 ==> r == UIntLE(b)
    ensures r < 0 ==> r == UIntLE(b) - Pow256(|b|)
  {
    var u := UIntLE(b);
    if u >= Pow256(|b|) / 2 then u - Pow256(|b|) else u
  }

  /** The n bytes that spell v least significant byte first. */
  function EncodeLE(v: nat, n: nat): (b: seq<Byte>)
    requires v < Pow256(n)
    ensures |b| == n
  {
    if n == 0 then [] else [v % 256] + EncodeLE(v / 256, n - 1)
  }

  /** Decoding an encoding gives back the number. */
  lemma {:induction false} DecodeEncodeLE(v: nat, n: nat)
    requires v < Pow256(n)
    ensures UIntLE(EncodeLE(v, n)) == v
  {
    if n > 0 {
      var b := EncodeLE(v, n);
      assert b[1..] == EncodeLE(v / 256, n - 1);
      DecodeEncodeLE(v / 256, n - 1);
    }
  }

  /** Encoding a decoded field gives back its bytes: the coding is a bijection. */
  lemma {:induction false} EncodeDecodeLE(b: seq<Byte>)
    ensures EncodeLE(UIntLE(b), |b|) == b
  {
    if b != [] {
      var u := UIntLE(b);
      assert u % 256 == b[0] && u / 256 == UIntLE(b[1..]);
      EncodeDecodeLE(b[1..]);
    }
  }

  /** The unsigned number whose bytes are the two's-complement bytes of v, modulo p. */
  function TwosComplement(v: int, p: nat): (u: nat)
    requires 0 <= v + p && v < p
    ensures u < p && (u - v) % p == 0
  {
    if v < 0 then v + p else v
  }

  /** The two's-complement bytes of a signed v in range decode back to v. */
  lemma SignedRoundTrip(v: int, n: nat)
    requires n > 0 && -(Pow256(n) / 2) <= v < Pow256(n) / 2
    ensures IntLE(EncodeLE(TwosComplement(v, Pow256(n)), n)) == v
  {
    DecodeEncodeLE(TwosComplement(v, Pow256(n)), n);
  }
}
