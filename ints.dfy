/** The fixed-width integer types of Go that the core uses, as ranges of `int`. */
module Ints {

  /** Go's `byte` (uint8). */
  type Byte = b: int | 0 <= b < 0x100

  /** Go's `int64`, the width of Monkey integer literals and runtime integers. */
  type Int64 = x: int | -0x8000_0000_0000_0000 <= x < 0x8000_0000_0000_0000
}
