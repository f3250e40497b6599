/** Optional values and results with an error, as the governor needs them. */
module Wrappers {

  /** A sensor reading or a timestamp that may be missing (Python's `None`). */
  datatype Option<+T> = None | Some(value: T) {

    /** The held value, or `default` when there is none (`x or default`). */
    function GetOr(default: T): T {
      match this
      case Some(v) => v
      case None => default
    }
  }

  /** The value a Python function returns, or the exception it raises. */
  datatype Result<+T, +E> = Ok(value: T) | Err(error: E)
}
