/** Optional values and results shared by every module of the model. */
module Wrappers {

  /** A value that may be absent: a missing JSON property, a null reference, no match. */
  datatype Option<+T> = None | Some(value: T) {

    /** The value if present, otherwise `default` (C#'s `x ?? default`). */
    function GetOr(default: T): T {
      match this
      case Some(v) => v
      case None => default
    }
  }

  /** The outcome of an operation that either succeeds with a value or fails with an error. */
  datatype Result<+R, +E> = Success(value: R) | Failure(error: E)
}
