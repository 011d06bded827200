/** Option and Result, the two failure-carrying shapes used throughout the model. */
module Wrappers {

  datatype Option<+T> = None | Some(value: T)

  /** Rust's `Result<T, E>`; every error the model produces carries a message. */
  datatype Result<+T, +E> = Ok(value: T) | Err(error: E)
}
