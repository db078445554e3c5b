/** Option and Result, used for PHP's nullable values and for the exception a lookup throws. */
module Wrappers {

  /** A PHP value that may be `null`: `None` is `null`, `Some(v)` is `v`. */
  datatype Option<+T> = None | Some(value: T)

  /** The outcome of an operation that either returns a value or throws. */
  datatype Result<+R, +E> = Success(value: R) | Failure(error: E)
}
