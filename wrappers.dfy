/** Optional values and results with an error, the two shapes the Python code
    expresses with `dict.get` defaults and with exceptions. */
module Wrappers {

  /** A value that may be absent, such as a missing dictionary key. */
  datatype Option<+T> = None | Some(value: T) {

    /** The value, or `default` when absent (`dict.get(key, default)`). */
    function GetOr(default: T): T {
      match this
      case Some(v) => v
      case None => default
    }
  }

  /** The outcome of an operation that either yields a value or raises an error. */
  datatype Result<+T, +E> = Ok(value: T) | Err(error: E)
}
