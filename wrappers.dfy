/** Optional values and results with an error side, used across the model. */
module Wrappers {

  /** A value that may be missing: JavaScript's `null` or `undefined`. */
  datatype Option<+T> = None | Some(value: T) {
    function GetOr(default: T): T {
      match this
      case Some(v) => v
      case None => default
    }
  }

  /** The normal completion of an operation, or the error it throws. */
  datatype Result<+R, +E> = Success(value: R) | Failure(error: E)
}
