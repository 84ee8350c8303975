/** Option and Result, the two failure-carrying shapes the rest of the model uses. */
module Wrappers {

  /** Python's `None` or a present value. */
  datatype Option<+T> = None | Some(value: T)

  /** A value, or the error an operation raises instead of returning one. */
  datatype Result<+R, +E> = Success(value: R) | Failure(error: E)
}
