/** Fixed-width integer types of the Rust sources. */
module MachineInts {
  /** Rust `i32`. */
  newtype i32 = x: int | -0x8000_0000 <= x < 0x8000_0000

  /** Rust `usize` on a 64-bit target. */
  newtype usize = x: int | 0 <= x < 0x1_0000_0000_0000_0000

  const USIZE_LIMIT: int := 0x1_0000_0000_0000_0000
}
