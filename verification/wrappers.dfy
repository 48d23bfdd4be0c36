/** Optional values and success/failure results, used where the source has
    `null`, `undefined` or a thrown error. */
module Wrappers {

  /** A value that may be absent (`null` / `undefined` in the source). */
  datatype Option<+T> = None | Some(value: T) {

    /** The value, or `default` when absent. */
    function GetOr(default: T): T {
      match this
      case Some(v) => v
      case None => default
    }
  }

  /** The outcome of an operation that may throw: either a value or the
      message of the error it raises. */
  datatype Result<+R, +E> = Success(value: R) | Failure(error: E)
}
