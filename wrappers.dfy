/** Option and Result, used for Python's `None` and for raised errors. */
module Wrappers {

  /** A value or Python's `None`. */
  datatype Option<+T> = None | Some(value: T)

  /** The value an operation returns, or the error it raises instead. */
  datatype Result<+T, +E> = Success(value: T) | Failure(error: E)
}
