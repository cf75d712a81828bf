/** Option and Result, used where the source returns Rust's Option/Result or TypeScript's null. */
module Wrappers {
  datatype Option<+T> = None | Some(value: T)
  datatype Result<+T, +E> = Ok(value: T) | Err(error: E)
}
