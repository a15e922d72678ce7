/** Bytes, 32-bit words and their little-endian layout, as the record header of the
    key-value log stores them. */
module Bytes {

  type byte = x: int | 0 <= x < 256
  type u32 = x: int | 0 <= x < 0x1_0000_0000
  type bytes = seq<byte>

  function Le32(x: u32): (b: bytes)
    ensures |b| == 4
  {
    [x % 256, x / 256 % 256, x / 65536 % 256, x / 16777216]
  }

  /** The value of a little-endian byte string of any length. */
  function FromLe(b: bytes): nat {
    if b == [] then 0 else b[0] as int + 256 * FromLe(b[1..])
  }

  /** Storing a word and loading it back is the identity. */
  lemma Le32RoundTrip(x: u32)
    ensures FromLe(Le32(x)) == x
  {
    var b := Le32(x);
    assert b[1..][1..] == b[2..] && b[2..][1..] == b[3..];
    assert FromLe(b[3..]) == x / 16777216;
    assert FromLe(b[2..]) == x / 65536;
    assert FromLe(b[1..]) == x / 256;
  }

  /** Four bytes are those of the word they make up. */
  lemma Le32OfBytes(b: bytes)
    requires |b| == 4
    ensures FromLe(b) < 0x1_0000_0000 && Le32(FromLe(b)) == b
  {
    assert b[1..][1..] == b[2..] && b[2..][1..] == b[3..] && b[3..][1..] == [];
    var x := FromLe(b);
    var b0: int, b1: int, b2: int, b3: int := b[0], b[1], b[2], b[3];
    assert FromLe(b[3..]) == b3;
    assert FromLe(b[2..]) == b2 + 256 * b3;
    assert FromLe(b[1..]) == b1 + 256 * (b2 + 256 * b3);
    assert x == b0 + 256 * (b1 + 256 * (b2 + 256 * b3));
    Digits(b0, b1, b2, b3, x);
  }

  lemma Digits(b0: byte, b1: byte, b2: byte, b3: byte, x: nat)
    requires x == b0 as int + 256 * (b1 as int + 256 * (b2 as int + 256 * b3 as int))
    ensures x % 256 == b0 && x / 256 % 256 == b1 && x / 65536 % 256 == b2 && x / 16777216 == b3
  {
    var z: int := b2 as int + 256 * b3 as int;
    var y: int := b1 as int + 256 * z;
    assert x / 256 == y && x / 65536 == y / 256 && y / 256 == z && x / 16777216 == z / 256;
  }
}
