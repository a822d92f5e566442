/** The Option and Result datatypes used by the cart model. */
module Wrappers {

  /** A value that may be absent: the model of `undefined` / `null`. */
  datatype Option<+T> = None | Some(value: T)

  /** The outcome of an operation that may throw. */
  datatype Result<+R, +E> = Success(value: R) | Failure(error: E)
}
