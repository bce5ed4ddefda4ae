/** Optional values and success/failure results shared by every module. */
module Wrappers {

  /** An optional value: `None` stands for a JavaScript `undefined`. */
  datatype Option<+T> = None | Some(value: T)

  /** The outcome of an operation that may throw: `Failure` carries the exception. */
  datatype Result<+R, +E> = Success(value: R) | Failure(error: E)
}
