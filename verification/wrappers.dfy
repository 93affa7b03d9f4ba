/** Option and Result datatypes shared by the participant directory model. */
module Wrappers {

  /** A value that may be absent, as a JSON field or a storage key may be. */
  datatype Option<+T> = None | Some(value: T)

  /** The outcome of an operation that either yields a value or fails with an error. */
  datatype Result<+R, +E> = Success(value: R) | Failure(error: E)
}
