/** Option and Result: the error paths of the handlers, written as values. */
module Wrappers {

  datatype Option<+T> = None | Some(value: T)

  datatype Result<+R, +E> = Ok(value: R) | Err(error: E)

  /** An unsigned byte (`u8`). */
  type Byte = x: int | 0 <= x < 256

  /** 2^64, the number of `u64` values. */
  const U64_LIMIT: nat := 0x1_0000_0000_0000_0000

  /** An unsigned 64-bit word (`u64`). */
  type U64 = x: int | 0 <= x < U64_LIMIT
}
