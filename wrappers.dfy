/** Optional values, used for JavaScript's null / undefined / NaN and for columns a row may lack. */
module Wrappers {

  datatype Option<+T> = None | Some(value: T)

  /** The outcome of a call that either throws (Failure) or returns a value. */
  datatype Result<+R, +E> = Success(value: R) | Failure(error: E)
}
