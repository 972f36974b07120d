/** The bot's fixed-width integer types, with their wrap-around written out. */
module FixedWidth {

  const TWO_TO_32: int := 0x1_0000_0000

  type U8 = x: int | 0 <= x < 0x100
  type U32 = x: int | 0 <= x < 0x1_0000_0000
  type S32 = x: int | -0x8000_0000 <= x < 0x8000_0000

  /** Unsigned 32-bit addition: the sum is taken modulo 2^32. */
  function AddU32(a: U32, b: U32): (r: U32)
    ensures a + b < TWO_TO_32 ==> r == a + b
    ensures a + b >= TWO_TO_32 ==> r == a + b - TWO_TO_32
  {
    (a + b) % TWO_TO_32
  }

  /** `static_cast<U32>` of a signed 32-bit value: two's complement reinterpretation. */
  function S32ToU32(x: S32): (r: U32)
    ensures 0 <= x ==> r == x
    ensures x < 0 ==> r == x + TWO_TO_32
  {
    x % TWO_TO_32
  }
}
