/** Machine integers, wrapping arithmetic and the result types shared by every module. */
module Basics {

  type byte = x: int | 0 <= x < 0x100
  type u8 = x: int | 0 <= x < 0x100
  type u16 = x: int | 0 <= x < 0x1_0000
  type u64 = x: int | 0 <= x < 0x1_0000_0000_0000_0000

  type bytes = seq<byte>

  datatype Option<+T> = None | Some(value: T)

  datatype Result<+T, +E> = Ok(value: T) | Err(error: E)

  /** `u16::wrapping_add`. */
  function WrapAdd(a: u16, b: u16): u16 {
    (a + b) % 0x1_0000
  }

  /** `u16::wrapping_sub`. */
  function WrapSub(a: u16, b: u16): u16 {
    (a - b) % 0x1_0000
  }

  function Min(a: int, b: int): int {
    if a < b then a else b
  }

  function Max(a: int, b: int): int {
    if a < b then b else a
  }
}
