/** Failure-compatible result type used for the controller's fallible operations. */
module Wrappers {

  /** Rust's `Result<R, E>`: a value on success or an error. */
  datatype Result<+R, +E> = Success(value: R) | Failure(error: E)
}
