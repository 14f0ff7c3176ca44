/** Option and Result values for absent data and for the errors the pipeline raises. */
module Wrappers {

  /** A value that may be absent (Python's `None`). */
  datatype Option<+T> = None | Some(value: T)

  /** The outcome of an operation that may raise. */
  datatype Result<+R, +E> = Success(value: R) | Failure(error: E)

  /** The one exception class the core raises: `ValueError(message)`. */
  datatype Error = ValueError(message: string)
}
