/**
 Fixed-width integers as the Go source uses them: conversions reduce modulo the
 width, and int16 is two's complement.
 */
module Wrap {
  type uint8 = x: int | 0 <= x < 0x100
  type uint16 = x: int | 0 <= x < 0x1_0000
  type uint32 = x: int | 0 <= x < 0x1_0000_0000

  datatype Option<+T> = None | Some(value: T)

  function U16(x: int): uint16 { x % 0x1_0000 }

  function U32(x: int): uint32 { x % 0x1_0000_0000 }

  /** int16(x): the representative of x modulo 2^16 in -32768 .. 32767. */
  function I16(x: int): (d: int)
    ensures -32768 <= d <= 32767 && (x - d) % 0x1_0000 == 0
  {
    var r := x % 0x1_0000;
    if r < 32768 then r else r - 0x1_0000
  }

  lemma AddModulo(a: int, d: int)
    ensures U32(U32(a) + d) == U32(a + d)
  {
  }
}
