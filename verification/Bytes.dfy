/**
 Machine integers as bounded mathematical integers, and the little-endian byte forms
 that every on-disk structure of the repository uses (`to_le_bytes`, `from_le_bytes`).
 */
module Bytes {
  const U16_LIMIT: nat := 0x1_0000
  const U32_LIMIT: nat := 0x1_0000_0000
  const U64_LIMIT: nat := 0x1_0000_0000_0000_0000

  type byte = x: int | 0 <= x < 256
  type u16 = x: int | 0 <= x < U16_LIMIT
  type u32 = x: int | 0 <= x < U32_LIMIT
  type u64 = x: int | 0 <= x < U64_LIMIT
  type i16 = x: int | -0x8000 <= x < 0x8000

  function Pow256(n: nat): (p: nat)
    ensures p > 0
  {
    if n == 0 then 1 else 256 * Pow256(n - 1)
  }

  /** The low `n` bytes of `v`, least significant first. */
  function LeBytes(v: nat, n: nat): (s: seq<byte>)
    ensures |s| == n
  {
    if n == 0 then [] else [v % 256] + LeBytes(v / 256, n - 1)
  }

  function FromLe(s: seq<byte>): (v: nat)
    ensures v < Pow256(|s|)
  {
    if s == [] then 0 else s[0] + 256 * FromLe(s[1..])
  }

  lemma {:induction false} LeRoundTrip(v: nat, n: nat)
    requires v < Pow256(n)
    ensures FromLe(LeBytes(v, n)) == v
  {
    if n > 0 {
      LeRoundTrip(v / 256, n - 1);
      assert LeBytes(v, n)[1..] == LeBytes(v / 256, n - 1);
    }
  }

  lemma {:induction false} BytesRoundTrip(s: seq<byte>)
    ensures LeBytes(FromLe(s), |s|) == s
  {
    if s != [] {
      BytesRoundTrip(s[1..]);
      assert FromLe(s) % 256 == s[0] && FromLe(s) / 256 == FromLe(s[1..]);
    }
  }

  lemma PowValues()
    ensures Pow256(1) == 0x100
    ensures Pow256(2) == U16_LIMIT
    ensures Pow256(4) == U32_LIMIT
    ensures Pow256(8) == U64_LIMIT
  {
    assert Pow256(4) == 256 * 256 * Pow256(2);
    assert Pow256(6) == 256 * 256 * Pow256(4);
    assert Pow256(8) == 256 * 256 * Pow256(6);
  }

  lemma U16RoundTrip(v: u16)
    ensures FromLe(LeBytes(v, 2)) == v
  {
    PowValues();
    LeRoundTrip(v, 2);
  }

  lemma U32RoundTrip(v: u32)
    ensures FromLe(LeBytes(v, 4)) == v
  {
    PowValues();
    LeRoundTrip(v, 4);
  }

  lemma U64RoundTrip(v: u64)
    ensures FromLe(LeBytes(v, 8)) == v
  {
    PowValues();
    LeRoundTrip(v, 8);
  }

  function U16At(s: seq<byte>, i: nat): u16
    requires i + 2 <= |s|
  {
    PowValues();
    FromLe(s[i..i + 2])
  }

  function U32At(s: seq<byte>, i: nat): u32
    requires i + 4 <= |s|
  {
    PowValues();
    FromLe(s[i..i + 4])
  }

  function U64At(s: seq<byte>, i: nat): u64
    requires i + 8 <= |s|
  {
    PowValues();
    FromLe(s[i..i + 8])
  }

  /** Two's-complement little-endian form of a signed 16-bit value. */
  function I16Bytes(v: i16): (s: seq<byte>)
    ensures |s| == 2
  {
    LeBytes(v % 0x1_0000, 2)
  }

  function I16Of(lo: byte, hi: byte): i16 {
    var u := lo + 256 * hi;
    if u < 0x8000 then u else u - 0x1_0000
  }

  lemma TwoBytes(u: u16)
    ensures LeBytes(u, 2) == [u % 256, u / 256]
  {
    assert LeBytes(u / 256, 1) == [u / 256 % 256] + LeBytes(u / 256 / 256, 0);
  }

  lemma I16RoundTrip(v: i16)
    ensures I16Of(I16Bytes(v)[0], I16Bytes(v)[1]) == v
  {
    TwoBytes(v % 0x1_0000);
  }

  // ----- 32-bit operations that drop what does not fit -----

  function WrapAdd32(a: u32, b: u32): u32 {
    (a as int + b) % U32_LIMIT
  }

  function WrapSub32(a: u32, b: u32): u32 {
    (a as int - b) % U32_LIMIT
  }

  function WrapMul32(a: u32, b: u32): u32 {
    (a as int * b) % U32_LIMIT
  }

  lemma NoWrap32(a: u32, b: u32)
    ensures a as int * b < U32_LIMIT ==> WrapMul32(a, b) == a as int * b
    ensures a as int + b < U32_LIMIT ==> WrapAdd32(a, b) == a as int + b
    ensures b <= a ==> WrapSub32(a, b) == a as int - b
  {
  }

  /** `(a << 8) | b`: the shift drops the high byte and leaves the low one to `b`. */
  function ShiftIn32(a: u32, b: byte): u32 {
    a as int * 256 % U32_LIMIT + b
  }
}
