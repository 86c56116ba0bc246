/** Fixed-width unsigned integers and single-bit tests on register values. */
module Bits {
  type uint8 = x: int | 0 <= x < 0x100
  type uint16 = x: int | 0 <= x < 0x1_0000
  type uint32 = x: int | 0 <= x < 0x1_0000_0000

  function Min(x: int, y: int): int {
    if x <= y then x else y
  }

  /** True if the bit with weight `weight` (a power of two) is on in `x`. */
  predicate HasBit(x: nat, weight: nat)
    requires weight > 0
  {
    x / weight % 2 == 1
  }

  /** `x` with the bit of weight `weight` on. */
  function SetBit(x: nat, weight: nat): nat
    requires weight > 0
  {
    if HasBit(x, weight) then x else x + weight
  }

  /** `x` with the bit of weight `weight` off. */
  function ClearBit(x: nat, weight: nat): nat
    requires weight > 0
  {
    if HasBit(x, weight) then x - weight else x
  }
}
