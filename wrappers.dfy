/** Option and Result types shared by the converters. */
module Wrappers {

  datatype Option<+T> = None | Some(value: T)

  /** The outcome of a computation that can fail the way the Python code raises. */
  datatype Result<+R, +E> = Success(value: R) | Failure(error: E)
}
