/** Optional values and success-or-error results, the two shapes the form-copy
    script expresses with `None` defaults and with `sys.exit`. */
module Wrappers {

  /** A value that may be missing, as a dictionary key that may be absent. */
  datatype Option<+T> = None | Some(value: T) {

    /** The held value, or `default` when there is none. */
    function GetOr(default: T): T
    {
      match this
      case Some(v) => v
      case None => default
    }
  }

  /** The outcome of an operation that either produces a value or stops with an error. */
  datatype Result<+R, +E> = Success(value: R) | Failure(error: E)
}
