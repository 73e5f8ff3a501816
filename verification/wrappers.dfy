/** Failure-carrying datatypes shared by the model. */
module Wrappers {

  /** A value that may be absent: a nullable column or an optional argument. */
  datatype Option<+T> = None | Some(value: T)

  /** The outcome of an operation that can fail with an error of type E. */
  datatype Result<+R, +E> = Success(value: R) | Failure(error: E)
}
