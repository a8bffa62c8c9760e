/** Octets, fixed-width integers and their two byte orders. */
module Bytes {

  type byte = b: int | 0 <= b < 256

  type int32 = x: int | -0x8000_0000 <= x < 0x8000_0000

  const INT32_MODULUS := 0x1_0000_0000
  const INT_MAX := 0x7FFF_FFFF

  /** The number of values that `n` octets can hold. */
  function Capacity(n: nat): (c: nat)
    ensures c >= 1
  {
    if n == 0 then 1 else 256 * Capacity(n - 1)
  }

  /** The low `n` octets of `v`, most significant first: htons, htonl and htobe64 followed by memcpy. */
  function BigEndian(n: nat, v: nat): (s: seq<byte>)
    ensures |s| == n
  {
    if n == 0 then [] else BigEndian(n - 1, v / 256) + [v % 256]
  }

  function FromBigEndian(s: seq<byte>): (v: nat)
    ensures v < Capacity(|s|)
  {
    if s == [] then 0 else 256 * FromBigEndian(s[..|s| - 1]) + s[|s| - 1]
  }

  /** The low `n` octets of `v`, least significant first: a memcpy on the hosts the server is built for. */
  function LittleEndian(n: nat, v: nat): (s: seq<byte>)
    ensures |s| == n
  {
    if n == 0 then [] else [v % 256] + LittleEndian(n - 1, v / 256)
  }

  function FromLittleEndian(s: seq<byte>): (v: nat)
    ensures v < Capacity(|s|)
  {
    if s == [] then 0 else s[0] + 256 * FromLittleEndian(s[1..])
  }

  lemma {:induction false} BigEndianRoundTrip(n: nat, v: nat)
    requires v < Capacity(n)
    ensures FromBigEndian(BigEndian(n, v)) == v
  {
    if n > 0 {
      var s := BigEndian(n, v);
      assert s[..n - 1] == BigEndian(n - 1, v / 256);
      BigEndianRoundTrip(n - 1, v / 256);
    }
  }

  lemma {:induction false} LittleEndianRoundTrip(n: nat, v: nat)
    requires v < Capacity(n)
    ensures FromLittleEndian(LittleEndian(n, v)) == v
  {
    if n > 0 {
      var s := LittleEndian(n, v);
      assert s[1..] == LittleEndian(n - 1, v / 256);
      LittleEndianRoundTrip(n - 1, v / 256);
    }
  }

  /** `x` lies in the range of a signed integer of `n` octets. */
  predicate FitsSigned(n: nat, x: int)
  {
    0 - Capacity(n) <= 2 * x < Capacity(n)
  }

  /** The two's-complement bit pattern of a signed value, as an unsigned number. */
  function ToPattern(n: nat, x: int): (v: nat)
    requires FitsSigned(n, x)
    ensures v < Capacity(n)
  {
    if x < 0 then x + Capacity(n) else x
  }

  function FromPattern(n: nat, v: nat): (x: int)
    requires v < Capacity(n)
    ensures FitsSigned(n, x)
  {
    if 2 * v < Capacity(n) then v else v - Capacity(n)
  }

  /** A signed integer in network order. */
  function EncodeInt(n: nat, x: int): (s: seq<byte>)
    requires FitsSigned(n, x)
    ensures |s| == n
  {
    BigEndian(n, ToPattern(n, x))
  }

  function DecodeInt(s: seq<byte>): (x: int)
    ensures FitsSigned(|s|, x)
  {
    FromPattern(|s|, FromBigEndian(s))
  }

  lemma IntRoundTrip(n: nat, x: int)
    requires FitsSigned(n, x)
    ensures DecodeInt(EncodeInt(n, x)) == x
  {
    BigEndianRoundTrip(n, ToPattern(n, x));
  }

  lemma CapacityFour()
    ensures Capacity(1) == 0x100 && Capacity(2) == 0x1_0000 && Capacity(4) == INT32_MODULUS
  {
    assert Capacity(4) == 256 * (256 * (256 * (256 * Capacity(0))));
  }
}
