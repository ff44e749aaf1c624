/** Machine integer widths of the Rust source, as subset types of `int`. */
module Ints {

  const I32_MAX: int := 0x7fff_ffff

  /** `u16`: terminal widths and heights. */
  type U16 = x: int | 0 <= x < 0x1_0000

  /** `i32`: block sizes and the console scroll offset. */
  type I32 = x: int | -0x8000_0000 <= x <= I32_MAX

  function Min(a: int, b: int): int { if a <= b then a else b }

  function Max(a: int, b: int): int { if a >= b then a else b }
}
