/** Small shared vocabulary: optional values, results and bytes. */
module Common {

  datatype Option<T> = None | Some(value: T)

  /** The outcome of an operation that can fail with an error of type E. */
  datatype Result<T, E> = Ok(value: T) | Err(error: E)

  /** An 8-bit unsigned value (Rust `u8`). */
  type byte = x: int | 0 <= x < 256
}
