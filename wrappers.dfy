/** Option and Result, as used by the other modules. */
module Wrappers {

  /** A value that may be absent: Python's `None` or a value. */
  datatype Option<+T> = None | Some(value: T)

  /** The outcome of an operation that either produces a value or raises an error. */
  datatype Result<+R, +E> = Success(value: R) | Failure(error: E)
}
