/** Machine words as the harnesses see them: bytes, little-endian 32-bit
    fields assembled from a byte buffer, and the wrap-around of C's unsigned
    and size_t arithmetic written out on unbounded integers. */
module Bytes {

  /** One `uint8_t`. */
  type Byte = b: int | 0 <= b < 256

  const TWO_32: nat := 0x1_0000_0000
  const TWO_64: nat := 0x1_0000_0000_0000_0000

  /** A value of a C `uint32_t` / `unsigned`. */
  type U32 = x: int | 0 <= x < TWO_32

  /** Unsigned 32-bit addition: the result wraps modulo 2^32. */
  function Add32(a: int, b: int): (r: U32)
    requires 0 <= a && 0 <= b
    ensures a + b < TWO_32 ==> r == a + b
  {
    (a + b) % TWO_32
  }

  /** Unsigned 32-bit multiplication: the result wraps modulo 2^32. */
  function Mul32(a: int, b: int): (r: U32)
    requires 0 <= a && 0 <= b
  {
    (a * b) % TWO_32
  }

  /** The `uint32_t` stored little-endian in s[off..off+4]: what a
      `*(uint32_t*)(p + off)` load yields on a little-endian target. */
  function LE32(s: seq<Byte>, off: nat): (v: U32)
    requires off + 4 <= |s|
  {
    s[off] as int + 0x100 * s[off + 1] as int + 0x1_0000 * s[off + 2] as int
      + 0x100_0000 * s[off + 3] as int
  }

  /** The four bytes that a little-endian store of v writes, lowest first. */
  function EncodeLE32(v: U32): (s: seq<Byte>)
    ensures |s| == 4
  {
    [v % 0x100, (v / 0x100) % 0x100, (v / 0x1_0000) % 0x100, v / 0x100_0000]
  }

  /** Decoding what was encoded gives the value back, at any offset. */
  lemma DecodeEncode(v: U32, prefix: seq<Byte>, suffix: seq<Byte>)
    ensures LE32(prefix + EncodeLE32(v) + suffix, |prefix|) == v
  {
  }

  /** Reinterpreting a 32-bit pattern as a two's-complement `int`. */
  function ToInt32(u: U32): (i: int)
    ensures -0x8000_0000 <= i < 0x8000_0000
    ensures (i - u) % TWO_32 == 0
  {
    if u < 0x8000_0000 then u else u - TWO_32
  }

  /** Whether a mathematical integer fits a 32-bit `int`. */
  predicate InInt32(x: int) {
    -0x8000_0000 <= x < 0x8000_0000
  }

  /** Reducing the left operand first does not change a sum modulo 2^32. */
  lemma ModAddLeft(a: nat, b: nat)
    ensures (a % TWO_32 + b) % TWO_32 == (a + b) % TWO_32
  {
  }
}
