/** Rust's `Option` and `Result`. */
module Wrappers {
  datatype Option<+T> = None | Some(value: T)

  datatype Result<+T, +E> = Ok(value: T) | Err(error: E)
}

/**
 * The fixed-width integer types of nezumi's Rust code, as bounded integers. Bytes
 * that only take part in arithmetic are `u8`; the battery protocol, which
 * masks bits, works on `bv8`.
 */
module Ints {
  type u8 = x: int | 0 <= x < 0x100

  type u16 = x: int | 0 <= x < 0x1_0000

  type i32 = x: int | -0x8000_0000 <= x < 0x8000_0000
}
