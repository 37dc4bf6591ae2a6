/** Bytes of device memory and the little-endian integer fields stored in them. */
module Bytes {

  /** One byte of a frame or slot buffer (`AT_U8`). */
  type byte = b: int | 0 <= b < 256

  const TwoTo32: nat := 0x1_0000_0000
  const TwoTo64: nat := 0x1_0000_0000_0000_0000

  /** The unsigned 32-bit little-endian value of the four bytes at `off`. */
  function LeU32(s: seq<byte>, off: nat): (v: nat)
    requires off + 4 <= |s|
    ensures v < TwoTo32
  {
    var b0: int, b1: int, b2: int, b3: int := s[off], s[off + 1], s[off + 2], s[off + 3];
    b0 + 0x100 * b1 + 0x1_0000 * b2 + 0x100_0000 * b3
  }

  /** The value a C `*(int *)` read gives for the four bytes at `off` (two's complement). */
  function LeI32(s: seq<byte>, off: nat): (v: int)
    requires off + 4 <= |s|
    ensures -0x8000_0000 <= v < 0x8000_0000
  {
    var u := LeU32(s, off);
    if u < 0x8000_0000 then u else u - TwoTo32
  }

  /** The unsigned 64-bit little-endian value of the eight bytes at `off`. */
  function LeU64(s: seq<byte>, off: nat): (v: nat)
    requires off + 8 <= |s|
    ensures v < TwoTo64
  {
    LeU32(s, off) + TwoTo32 * LeU32(s, off + 4)
  }

  /** The four little-endian bytes of an unsigned 32-bit value. */
  function EncodeU32(v: nat): (s: seq<byte>)
    requires v < TwoTo32
    ensures |s| == 4
  {
    [v % 0x100, (v / 0x100) % 0x100, (v / 0x1_0000) % 0x100, v / 0x100_0000]
  }

  /** The four bytes a C `int` occupies in memory. */
  function EncodeI32(v: int): (s: seq<byte>)
    requires -0x8000_0000 <= v < 0x8000_0000
    ensures |s| == 4
  {
    EncodeU32(if v < 0 then v + TwoTo32 else v)
  }

  /** The eight little-endian bytes of an unsigned 64-bit value. */
  function EncodeU64(v: nat): (s: seq<byte>)
    requires v < TwoTo64
    ensures |s| == 8
  {
    EncodeU32(v % TwoTo32) + EncodeU32(v / TwoTo32)
  }

  lemma DecodeEncodeU32(s: seq<byte>, off: nat, v: nat)
    requires v < TwoTo32 && off + 4 <= |s|
    requires s[off..off + 4] == EncodeU32(v)
    ensures LeU32(s, off) == v
  {
    var e := EncodeU32(v);
    assert s[off] == e[0] && s[off + 1] == e[1] && s[off + 2] == e[2] && s[off + 3] == e[3];
    var q1 := v / 0x100;
    var q2 := q1 / 0x100;
    assert v == v % 0x100 + 0x100 * q1 && q1 == q1 % 0x100 + 0x100 * q2;
    assert v / 0x1_0000 == q2 && v / 0x100_0000 == q2 / 0x100;
  }

  lemma DecodeEncodeI32(s: seq<byte>, off: nat, v: int)
    requires -0x8000_0000 <= v < 0x8000_0000 && off + 4 <= |s|
    requires s[off..off + 4] == EncodeI32(v)
    ensures LeI32(s, off) == v
  {
    DecodeEncodeU32(s, off, if v < 0 then v + TwoTo32 else v);
  }

  lemma DecodeEncodeU64(s: seq<byte>, off: nat, v: nat)
    requires v < TwoTo64 && off + 8 <= |s|
    requires s[off..off + 8] == EncodeU64(v)
    ensures LeU64(s, off) == v
  {
    assert s[off..off + 4] == s[off..off + 8][..4];
    assert s[off + 4..off + 8] == s[off..off + 8][4..];
    DecodeEncodeU32(s, off, v % TwoTo32);
    DecodeEncodeU32(s, off + 4, v / TwoTo32);
  }
}
