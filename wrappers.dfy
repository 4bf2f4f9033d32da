/** Shared value types: optional values, results with an error message, and bytes. */
module Wrappers {

  datatype Option<T> = None | Some(value: T)

  /** An operation that either yields a value or fails the way the C++ code throws. */
  datatype Result<T> = Ok(value: T) | Err(msg: string)

  /** An unsigned 8-bit value (`uint8_t`, or a `char` read as unsigned). */
  type Byte = b: int | 0 <= b < 256

  /** `TShortId`: a 32-bit unsigned id. */
  type ShortId = x: nat | x < 0x1_0000_0000

  const TWO32: nat := 0x1_0000_0000
  const TWO64: nat := 0x1_0000_0000_0000_0000
}
