/** Fixed-width integers and the big/little-endian byte codecs the wire formats use. */
module Bytes {

  type byte = x: int | 0 <= x < 256
  type u32 = x: int | 0 <= x < 0x1_0000_0000
  type u64 = x: int | 0 <= x < 0x1_0000_0000_0000_0000
  type u128 = x: int | 0 <= x < 0x1_0000_0000_0000_0000_0000_0000_0000_0000

  const TWO_32: nat := 0x1_0000_0000
  const TWO_63: nat := 0x8000_0000_0000_0000
  const TWO_64: nat := 0x1_0000_0000_0000_0000
  const TWO_128: nat := 0x1_0000_0000_0000_0000_0000_0000_0000_0000

  /** A signed 64-bit integer (Rust `i64`). */
  predicate IsI64(x: int) { -(TWO_63 as int) <= x < TWO_63 as int }

  type i64 = x: int | IsI64(x) witness 0

  /** 256 to the power n: the number of values an n-byte field can hold. */
  function Pow256(n: nat): (r: nat)
    ensures r > 0
  {
    if n == 0 then 1 else 256 * Pow256(n - 1)
  }

  /** The n-byte big-endian encoding of v, as `to_be_bytes` writes it. */
  function BE(v: nat, n: nat): (r: seq<byte>)
    requires v < Pow256(n)
    ensures |r| == n
    decreases n
  {
    if n == 0 then [] else BE(v / 256, n - 1) + [v % 256]
  }

  /** Reads a big-endian unsigned integer back from its bytes. */
  function FromBE(s: seq<byte>): (v: nat)
    ensures v < Pow256(|s|)
  {
    if |s| == 0 then 0 else FromBE(s[..|s| - 1]) * 256 + s[|s| - 1]
  }

  lemma {:induction false} BERoundTrip(v: nat, n: nat)
    requires v < Pow256(n)
    ensures FromBE(BE(v, n)) == v
    decreases n
  {
    if n > 0 {
      var r := BE(v, n);
      assert r[..n - 1] == BE(v / 256, n - 1);
      BERoundTrip(v / 256, n - 1);
    }
  }

  lemma {:induction false} FromBERoundTrip(s: seq<byte>)
    ensures BE(FromBE(s), |s|) == s
  {
    if |s| > 0 {
      var p := s[..|s| - 1];
      FromBERoundTrip(p);
      assert (FromBE(p) * 256 + s[|s| - 1]) / 256 == FromBE(p);
      assert s == p + [s[|s| - 1]];
    }
  }

  /** The field widths used on the wire: 4, 8 and 16 bytes hold exactly u32, u64 and u128. */
  lemma PowWidths()
    ensures Pow256(4) == TWO_32
    ensures Pow256(8) == TWO_64
    ensures Pow256(16) == TWO_128
  {
    assert Pow256(2) == 65536;
    assert Pow256(4) == TWO_32;
    assert Pow256(8) == TWO_64;
    assert Pow256(16) == TWO_128;
  }

  /** `u32::to_be_bytes`. */
  function U32BE(v: u32): (r: seq<byte>)
    ensures |r| == 4
  {
    PowWidths();
    BE(v, 4)
  }

  /** `u64::to_be_bytes`. */
  function U64BE(v: u64): (r: seq<byte>)
    ensures |r| == 8
  {
    PowWidths();
    BE(v, 8)
  }

  /** `u128::to_be_bytes`. */
  function U128BE(v: u128): (r: seq<byte>)
    ensures |r| == 16
  {
    PowWidths();
    BE(v, 16)
  }

  /** Reads back a big-endian integer of the width the bytes give. */
  function ReadU32(s: seq<byte>): (v: u32)
    requires |s| == 4
  {
    PowWidths();
    FromBE(s)
  }

  function ReadU64(s: seq<byte>): (v: u64)
    requires |s| == 8
  {
    PowWidths();
    FromBE(s)
  }

  function ReadU128(s: seq<byte>): (v: u128)
    requires |s| == 16
  {
    PowWidths();
    FromBE(s)
  }

  /** The fixed-width big-endian codecs are mutually inverse. */
  lemma U32RoundTrip(v: u32, s: seq<byte>)
    ensures ReadU32(U32BE(v)) == v
    ensures |s| == 4 ==> U32BE(ReadU32(s)) == s
  {
    PowWidths();
    BERoundTrip(v, 4);
    FromBERoundTrip(s);
  }

  lemma U64RoundTrip(v: u64, s: seq<byte>)
    ensures ReadU64(U64BE(v)) == v
    ensures |s| == 8 ==> U64BE(ReadU64(s)) == s
  {
    PowWidths();
    BERoundTrip(v, 8);
    FromBERoundTrip(s);
  }

  lemma U128RoundTrip(v: u128, s: seq<byte>)
    ensures ReadU128(U128BE(v)) == v
    ensures |s| == 16 ==> U128BE(ReadU128(s)) == s
  {
    PowWidths();
    BERoundTrip(v, 16);
    FromBERoundTrip(s);
  }

  /** The n-byte little-endian encoding of v, as `to_le_bytes` writes it. */
  function LE(v: nat, n: nat): (r: seq<byte>)
    requires v < Pow256(n)
    ensures |r| == n
    decreases n
  {
    if n == 0 then [] else [v % 256] + LE(v / 256, n - 1)
  }

  /** Two's-complement bit pattern of a signed 64-bit value. */
  function I64Bits(x: int): (r: nat)
    requires IsI64(x)
    ensures r < TWO_64
    ensures r < Pow256(8)
  {
    assert Pow256(8) == TWO_64;
    if x >= 0 then x else x + TWO_64
  }

  /** `i64::to_le_bytes`. */
  function I64LE(x: int): (r: seq<byte>)
    requires IsI64(x)
    ensures |r| == 8
  {
    LE(I64Bits(x), 8)
  }

  /** Bytes of a 32-byte hash or key. */
  type Hash = s: seq<byte> | |s| == 32 witness Zeros(32)

  /** n zero bytes. */
  function Zeros(n: nat): (r: seq<byte>)
    ensures |r| == n
    ensures forall i :: 0 <= i < n ==> r[i] == 0
  {
    if n == 0 then [] else [0] + Zeros(n - 1)
  }

  /** The all-zero 32-byte value. */
  const ZERO_HASH: Hash := Zeros(32)
}
