/** Machine integer ranges and the result types shared by the models. */
module Basics {
  const TWO_31: int := 0x8000_0000
  const TWO_32: int := 0x1_0000_0000
  const TWO_64: int := 0x1_0000_0000_0000_0000

  type u32 = x: int | 0 <= x < TWO_32
  type u64 = x: int | 0 <= x < TWO_64
  type byte = x: int | 0 <= x < 256

  datatype Option<+T> = None | Some(value: T)

  /** How a C++ call ends: with a value, with an exception, or with undefined behaviour
      (an unchecked out-of-range access or a signed overflow). */
  datatype Outcome<+T> = Ok(value: T) | Throws | Undefined
}
