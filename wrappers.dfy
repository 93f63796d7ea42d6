/** Option and Result, used for PHP's nullable returns and for exceptions. */
module Wrappers {

  datatype Option<+T> = None | Some(value: T)

  /** `Failure(e)` stands for an exception (or rejected call) carrying message `e`. */
  datatype Result<+R, +E> = Success(value: R) | Failure(error: E)
}
