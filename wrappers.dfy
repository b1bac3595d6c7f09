/** Tagged absence and failure values used throughout the model. */
module Wrappers {

  /** Python's `None` / a present value. */
  datatype Option<+T> = None | Some(value: T)

  /** A normal return, or the exception that aborts the operation. */
  datatype Result<+R, +E> = Success(value: R) | Failure(error: E)
}
