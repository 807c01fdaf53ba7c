/** Optional values (`T | null | undefined` in the source) and results of
    operations that may throw. */
module Wrappers {

  datatype Option<+T> = None | Some(value: T) {
    /** The value, or `default` when absent (the source's `x || default`). */
    function GetOr(default: T): T {
      match this
      case Some(v) => v
      case None => default
    }
  }

  /** A value returned normally, or the error object that was thrown. */
  datatype Result<+T, +E> = Success(value: T) | Failure(error: E)
}
