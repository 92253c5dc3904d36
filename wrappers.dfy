/** Option and Result, the two failure-carrying types the modelled code returns. */
module Wrappers {

  datatype Option<+T> = None | Some(value: T)

  datatype Result<+T, +E> = Ok(value: T) | Err(error: E)

  /** Rust's unit type `()`, the success value of the header and superblock writes. */
  datatype Unit = Unit
}
