/** Vocabulary shared by every component: machine integers, optional values and results. */
module Common {
  type u3 = x: int | 0 <= x < 8
  type u8 = x: int | 0 <= x < 0x100
  type u16 = x: int | 0 <= x < 0x1_0000
  type u32 = x: int | 0 <= x < 0x1_0000_0000

  const U16_MAX: nat := 0xffff
  const U32_MAX: nat := 0xffff_ffff

  datatype Option<+T> = None | Some(value: T)

  datatype Result<+T, +E> = Ok(value: T) | Err(error: E)

  function Min(a: int, b: int): int {
    if a <= b then a else b
  }

  function Max(a: int, b: int): int {
    if a <= b then b else a
  }

  /** Subtraction that stops at zero, `saturating_sub`. */
  function SatSub(a: nat, b: nat): nat {
    if b <= a then a - b else 0
  }

  /** Addition that stops at `u32::MAX`, `saturating_add`. */
  function SatAdd32(a: u32, b: u32): u32 {
    if a + b <= U32_MAX then a + b else U32_MAX
  }
}
