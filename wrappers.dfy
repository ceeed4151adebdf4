/** The Option and Result datatypes the model uses for absent values and error paths. */
module Wrappers {

  datatype Option<+T> = None | Some(value: T)

  /** The outcome of an operation that the source ends with an exception or an early return. */
  datatype Result<+R, +E> = Success(value: R) | Failure(error: E)
}
