/**
 * Bytes are the values of Rust's `u8` and C's `uint8_t`: the integers 0 to
 * 255. Bitwise work on them (the CRC) converts to and from bit-vectors.
 */
module Bytes {

  /** An unsigned 8-bit value. */
  newtype u8 = x: int | 0 <= x < 0x100
}
