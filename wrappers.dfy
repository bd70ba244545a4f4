/** Failure-carrying wrappers shared by every module of the model. */
module Wrappers {

  /** A value that may be absent: the model's stand-in for a null pointer. */
  datatype Option<+T> = None | Some(value: T)

  /** The outcome of an operation that may throw: `Failure` carries the exception. */
  datatype Result<+R, +E> = Success(value: R) | Failure(error: E)
}
