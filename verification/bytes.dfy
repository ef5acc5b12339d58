/**
 * The byte-level vocabulary shared by the binary writer of main.cpp and binary_read.py: bytes,
 * opaque 8-byte `double` payloads, and the 4-byte little-endian two's-complement `int`.
 */
module Bytes {

  type Byte = b: int | 0 <= b < 256

  /** The eight bytes of an IEEE-754 `double`, kept opaque. */
  type Word64 = s: seq<Byte> | |s| == 8 witness [0, 0, 0, 0, 0, 0, 0, 0]

  const Int32Min: int := -0x8000_0000
  const Int32Max: int := 0x7fff_ffff

  predicate IsInt32(x: int)
  {
    Int32Min <= x <= Int32Max
  }

  /** `fwrite(&x, sizeof(int), 1, fp)` on a little-endian host: least significant byte first. */
  function Int32Le(x: int): (r: seq<Byte>)
    requires IsInt32(x)
    ensures |r| == 4
  {
    var u: int := if x < 0 then x + 0x1_0000_0000 else x;
    var u1 := u / 256;
    var u2 := u1 / 256;
    [u % 256, u1 % 256, u2 % 256, u2 / 256]
  }

  /** `struct.unpack('=i', b)`: four bytes, least significant first, read as a signed int32. */
  function DecodeInt32(b: seq<Byte>): (x: int)
    requires |b| == 4
    ensures IsInt32(x)
  {
    var b0: int, b1: int, b2: int, b3: int := b[0], b[1], b[2], b[3];
    var u := b0 + 256 * (b1 + 256 * (b2 + 256 * b3));
    if u >= 0x8000_0000 then u - 0x1_0000_0000 else u
  }

  /** Every int32 survives being written and read back. */
  lemma DecodeInt32Le(x: int)
    requires IsInt32(x)
    ensures DecodeInt32(Int32Le(x)) == x
  {
    var u: int := if x < 0 then x + 0x1_0000_0000 else x;
    var u1 := u / 256;
    var u2 := u1 / 256;
    assert u2 == u2 % 256 + 256 * (u2 / 256);
    assert u1 == u1 % 256 + 256 * u2;
    assert u == u % 256 + 256 * u1;
  }

  /** Every four bytes are the encoding of the int32 they decode to. */
  lemma Int32LeDecode(b: seq<Byte>)
    requires |b| == 4
    ensures Int32Le(DecodeInt32(b)) == b
  {
    var b0: int, b1: int, b2: int, b3: int := b[0], b[1], b[2], b[3];
    var v2 := b2 + 256 * b3;
    var v1 := b1 + 256 * v2;
    var u := b0 + 256 * v1;
    assert v2 % 256 == b[2] && v2 / 256 == b[3];
    assert v1 % 256 == b[1] && v1 / 256 == v2;
    assert u % 256 == b[0] && u / 256 == v1;
  }

  /** The tag -1 of an internal record is written as four 0xff bytes. */
  lemma MinusOneBytes()
    ensures Int32Le(-1) == [255, 255, 255, 255]
  {
  }
}
