/** Optional values and results with an error, used for JavaScript's possibly
    missing record fields and for the outcome of validation and lookup. */
module Wrappers {

  /** A value that may be absent (`undefined` in the original program). */
  datatype Option<+T> = None | Some(value: T)

  /** A value or an error. */
  datatype Result<+R, +E> = Success(value: R) | Failure(error: E)
}
