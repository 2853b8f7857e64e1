/**
 * Bytes and the little-endian integer layouts of the status frame
 * (Python's `struct` formats "<H", "<h", "<I" and "<i").
 */
module Bytes {

  type byte = x: int | 0 <= x < 256

  const TWO_16: nat := 0x1_0000
  const TWO_32: nat := 0x1_0000_0000

  /** Unsigned 16-bit little-endian value at `off` ("<H"). */
  function U16(d: seq<byte>, off: nat): (v: nat)
    requires off + 2 <= |d|
    ensures v < TWO_16
  {
    d[off] as nat + 256 * (d[off + 1] as nat)
  }

  /** Unsigned 32-bit little-endian value at `off` ("<I"). */
  function U32(d: seq<byte>, off: nat): (v: nat)
    requires off + 4 <= |d|
    ensures v < TWO_32
  {
    U16(d, off) + TWO_16 * U16(d, off + 2)
  }

  /** Signed 16-bit little-endian (two's complement) value at `off` ("<h"). */
  function I16(d: seq<byte>, off: nat): (v: int)
    requires off + 2 <= |d|
    ensures -0x8000 <= v < 0x8000
    ensures (v < 0) == (d[off + 1] >= 0x80)
  {
    var u := U16(d, off);
    if u >= 0x8000 then u - TWO_16 else u
  }

  /** Signed 32-bit little-endian (two's complement) value at `off` ("<i"). */
  function I32(d: seq<byte>, off: nat): (v: int)
    requires off + 4 <= |d|
    ensures -0x8000_0000 <= v < 0x8000_0000
    ensures (v < 0) == (d[off + 3] >= 0x80)
  {
    var u := U32(d, off);
    if u >= 0x8000_0000 then u - TWO_32 else u
  }

  /** Byte `k` (0 = least significant) of the unsigned value `x`. */
  function ByteOf(x: nat, k: nat): byte
  {
    if k == 0 then x % 256 else ByteOf(x / 256, k - 1)
  }

  /** The 16-bit two's complement image of a signed value. */
  function Unsigned16(v: int): (u: nat)
    requires -0x8000 <= v < 0x8000
    ensures u < TWO_16
  {
    if v < 0 then v + TWO_16 else v
  }

  /** The 32-bit two's complement image of a signed value. */
  function Unsigned32(v: int): (u: nat)
    requires -0x8000_0000 <= v < 0x8000_0000
    ensures u < TWO_32
  {
    if v < 0 then v + TWO_32 else v
  }

  /** Writing `x` as two little-endian bytes at `off` and reading it back gives `x`. */
  lemma U16Of(d: seq<byte>, off: nat, x: nat)
    requires off + 2 <= |d| && x < TWO_16
    requires d[off] == ByteOf(x, 0) && d[off + 1] == ByteOf(x, 1)
    ensures U16(d, off) == x
  {
  }

  /** Writing `x` as four little-endian bytes at `off` and reading it back gives `x`. */
  lemma U32Of(d: seq<byte>, off: nat, x: nat)
    requires off + 4 <= |d| && x < TWO_32
    requires forall k :: 0 <= k < 4 ==> d[off + k] == ByteOf(x, k)
    ensures U32(d, off) == x
  {
    assert d[off] == ByteOf(x, 0) && d[off + 1] == ByteOf(x, 1);
    assert d[off + 2] == ByteOf(x, 2) && d[off + 3] == ByteOf(x, 3);
    assert ByteOf(x, 2) == ByteOf(x / TWO_16, 0) && ByteOf(x, 3) == ByteOf(x / TWO_16, 1);
    U16Of(d, off + 2, x / TWO_16);
  }
}
