/** Go's fixed-width integer types and the Option wrapper used across the model. */
module Basics {

  /** A Go `byte`. */
  newtype byte = b: int | 0 <= b < 0x100

  /** A Go `uint64`, also the width of Go's `uint` on the 64-bit platforms the bridge runs on. */
  newtype uint64 = x: int | 0 <= x < 0x1_0000_0000_0000_0000

  /** A value that may be missing: a nil pointer, an absent option. */
  datatype Option<+T> = None | Some(value: T)

  /** Go's `int(x)` for a `uint` x on a 64-bit platform: the bit pattern is kept,
      so values of 2^63 and above wrap to negative numbers. */
  function GoInt(x: uint64): (r: int)
    ensures -0x8000_0000_0000_0000 <= r < 0x8000_0000_0000_0000
    ensures (r - x as int) % 0x1_0000_0000_0000_0000 == 0
    ensures x < 0x8000_0000_0000_0000 ==> r == x as int
    ensures x >= 0x8000_0000_0000_0000 ==> r < 0
  {
    if x < 0x8000_0000_0000_0000 then x as int else x as int - 0x1_0000_0000_0000_0000
  }
}
