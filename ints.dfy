/** Fixed-width integers of the C++ code, as subset types of int, and the
    modular conversions that C++'s static_cast performs between them. */
module Ints {

  const TWO_TO_THE_16: int := 0x1_0000
  const TWO_TO_THE_31: int := 0x8000_0000
  const TWO_TO_THE_32: int := 0x1_0000_0000
  const TWO_TO_THE_64: int := 0x1_0000_0000_0000_0000

  type byte = x: int | 0 <= x < 0x100
  type uint16 = x: int | 0 <= x < 0x1_0000
  type uint64 = x: int | 0 <= x < 0x1_0000_0000_0000_0000
  type int32 = x: int | -0x8000_0000 <= x < 0x8000_0000

  /** Conversion of any integer to uint64: reduction modulo 2^64. */
  function ToUint64(x: int): (r: uint64)
    ensures (x - r) % TWO_TO_THE_64 == 0
    ensures 0 <= x < TWO_TO_THE_64 ==> r == x
  {
    x % TWO_TO_THE_64
  }

  /** Conversion of any integer to uint16: reduction modulo 2^16. */
  function ToUint16(x: int): (r: uint16)
    ensures (x - r) % TWO_TO_THE_16 == 0
    ensures 0 <= x < TWO_TO_THE_16 ==> r == x
  {
    x % TWO_TO_THE_16
  }

  /** Conversion of any integer to a 32-bit int, two's complement wrap-around. */
  function ToInt32(x: int): (r: int32)
    ensures (x - r) % TWO_TO_THE_32 == 0
    ensures -TWO_TO_THE_31 <= x < TWO_TO_THE_31 ==> r == x
  {
    var m := x % TWO_TO_THE_32;
    if m >= TWO_TO_THE_31 then m - TWO_TO_THE_32 else m
  }
}
