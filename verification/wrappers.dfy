/** Optional values and results, shared by the rest of the model. */
module Wrappers {

  /** A value that may be missing: Python's `None` versus a present value. */
  datatype Option<+T> = None | Some(value: T) {

    /** The value, or `default` when missing (Python's `d.get(key, default)`). */
    function GetOr(default: T): T {
      match this
      case Some(v) => v
      case None => default
    }
  }

  /** A computation that either succeeds with a value or fails with an error. */
  datatype Result<+R, +E> = Success(value: R) | Failure(error: E)
}
