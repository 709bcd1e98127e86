/** Value types shared by every module: optional values, results, the
    fixed-width integers the ledger uses as identifiers, and byte strings. */
module Base {

  /** Rust's `Option<T>`. */
  datatype Option<+T> = None | Some(value: T)

  /** Rust's `Result<T, E>`. */
  datatype Result<+T, +E> = Ok(value: T) | Err(error: E)

  /** Rust's `Result<(), E>`: success carries no value. */
  datatype Outcome<+E> = Pass | Fail(error: E)

  /** Client identifiers are `u16`. */
  newtype u16 = x: int | 0 <= x < 0x1_0000

  /** Transaction identifiers are `u32`. */
  newtype u32 = x: int | 0 <= x < 0x1_0000_0000

  /** A field of a CSV row, as raw bytes. */
  type Bytes = seq<bv8>
}
