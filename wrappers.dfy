/** Optional values and results with an error, used where the Python code returns
    `None` or raises an exception. */
module Wrappers {

  datatype Option<+T> = None | Some(value: T) {
    /** `value` if present, otherwise `default`: a keyword argument's default. */
    function GetOr(default: T): T {
      match this
      case Some(v) => v
      case None => default
    }
  }

  datatype Result<+T, +E> = Ok(value: T) | Err(error: E)
}
