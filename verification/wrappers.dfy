/** Optional values and results with an error message, used wherever the
    source returns `undefined` or throws an `Error`. */
module Wrappers {

  /** A value that may be absent (`undefined` / `null` in the source). */
  datatype Option<+T> = None | Some(value: T) {

    /** Returns the value, or `default` when absent. */
    function GetOr(default: T): T {
      match this
      case Some(v) => v
      case None => default
    }
  }

  /** The outcome of an operation that may throw `new Error(message)`. */
  datatype Result<+T> = Ok(value: T) | Err(message: string)
}
