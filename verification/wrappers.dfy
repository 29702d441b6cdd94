/** Failure-carrying datatypes shared by every module of the model. */
module Wrappers {

  /** A value that may be missing (Go's nil, an absent cookie, JavaScript's null). */
  datatype Option<+T> = None | Some(value: T)

  /** Either a value or an error (Go's `(T, error)` pair with exactly one of them meaningful). */
  datatype Result<+T, +E> = Ok(value: T) | Err(error: E)
}
