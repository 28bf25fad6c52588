/** Bytes and the little-endian integer fields that `DataView.setUint16`
    and `DataView.setUint32` (with `littleEndian = true`) write. */
module Bytes {

  /** One octet of an `ArrayBuffer` / `Uint8Array`. */
  newtype byte = b: int | 0 <= b < 256

  const TWO_8: int := 0x100
  const TWO_16: int := 0x1_0000
  const TWO_32: int := 0x1_0000_0000

  /** ECMAScript ToUint8 of an integral number: reduction modulo 2^8 (the
      mathematical modulo, never negative). A `Uint8Array` element store and
      `DataView.setUint8` both apply it. */
  function ToUint8(v: int): (r: byte)
    ensures (v - r as int) % TWO_8 == 0
  {
    (v % TWO_8) as byte
  }

  lemma FitsUint32(v: int)
    requires 0 <= v < TWO_32
    ensures v % TWO_32 == v
  {
  }

  /** The byte stored for a character: its UTF-16 code unit (`charCodeAt`),
      reduced by ToUint8. */
  function CharByte(c: char): (r: byte)
    ensures (c as int) < TWO_8 ==> r as int == c as int
  {
    ToUint8(c as int)
  }

  /** The bytes that `DataView.setUint16(off, v, true)` writes: ToUint16(v),
      low byte first. */
  function Le16(v: int): (r: seq<byte>)
    ensures |r| == 2
  {
    var w := v % TWO_16;
    [(w % TWO_8) as byte, (w / TWO_8) as byte]
  }

  /** The bytes that `DataView.setUint32(off, v, true)` writes: ToUint32(v),
      low half first. */
  function Le32(v: int): (r: seq<byte>)
    ensures |r| == 4
  {
    var w := v % TWO_32;
    Le16(w % TWO_16) + Le16(w / TWO_16)
  }

  /** `DataView.getUint16(off, true)`. */
  function ReadLe16(s: seq<byte>, off: nat): int
    requires off + 2 <= |s|
  {
    s[off] as int + TWO_8 * s[off + 1] as int
  }

  /** `DataView.getUint32(off, true)`. */
  function ReadLe32(s: seq<byte>, off: nat): int
    requires off + 4 <= |s|
  {
    ReadLe16(s, off) + TWO_16 * ReadLe16(s, off + 2)
  }

  lemma ReadLe16Range(s: seq<byte>, off: nat)
    requires off + 2 <= |s|
    ensures 0 <= ReadLe16(s, off) < TWO_16
  {
  }

  lemma ReadLe32Range(s: seq<byte>, off: nat)
    requires off + 4 <= |s|
    ensures 0 <= ReadLe32(s, off) < TWO_32
  {
    ReadLe16Range(s, off);
    ReadLe16Range(s, off + 2);
  }

  /** Reading back a 16-bit field yields the value written, modulo 2^16. */
  lemma ReadLe16OfLe16(v: int)
    ensures ReadLe16(Le16(v), 0) == v % TWO_16
  {
  }

  /** Reading back a 32-bit field yields the value written, modulo 2^32. */
  lemma ReadLe32OfLe32(v: int)
    ensures ReadLe32(Le32(v), 0) == v % TWO_32
  {
    var w := v % TWO_32;
    var lo, hi := Le16(w % TWO_16), Le16(w / TWO_16);
    ReadLe16OfLe16(w % TWO_16);
    ReadLe16OfLe16(w / TWO_16);
    assert ReadLe16(Le32(v), 0) == ReadLe16(lo, 0);
    assert ReadLe16(Le32(v), 2) == ReadLe16(hi, 0);
  }

  /** Re-encoding a 16-bit field read from any bytes gives those bytes back. */
  lemma Le16OfReadLe16(s: seq<byte>, off: nat)
    requires off + 2 <= |s|
    ensures Le16(ReadLe16(s, off)) == s[off..off + 2]
  {
  }

  /** Re-encoding a 32-bit field read from any bytes gives those bytes back. */
  lemma Le32OfReadLe32(s: seq<byte>, off: nat)
    requires off + 4 <= |s|
    ensures Le32(ReadLe32(s, off)) == s[off..off + 4]
  {
    var lo, hi := ReadLe16(s, off), ReadLe16(s, off + 2);
    ReadLe16Range(s, off);
    ReadLe16Range(s, off + 2);
    var w := lo + TWO_16 * hi;
    assert w % TWO_32 == w;
    assert w % TWO_16 == lo && w / TWO_16 == hi;
    Le16OfReadLe16(s, off);
    Le16OfReadLe16(s, off + 2);
  }
}
