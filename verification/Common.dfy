/** Types and functions shared by the other modules. */
module Common {

  datatype Option<+T> = None | Some(value: T)

  /** An `unsigned char`. */
  type octet = x: int | 0 <= x < 0x100

  /** An unsigned 16-bit quantity. */
  type word = x: int | 0 <= x < 0x1_0000

  type u32 = x: int | 0 <= x < 0x1_0000_0000

  type u64 = x: int | 0 <= x < 0x1_0000_0000_0000_0000

  function Min(a: int, b: int): int { if a <= b then a else b }

  function Max(a: int, b: int): int { if a >= b then a else b }
}
