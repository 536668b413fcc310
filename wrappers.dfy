/** Optional values and error-carrying results used throughout the model. */
module Wrappers {

  /** A JSON field that may be missing or null (`None`), or a value that may be absent. */
  datatype Option<+T> = None | Some(value: T) {
    function GetOr(default: T): T {
      match this
      case Some(v) => v
      case None => default
    }
  }

  /** The answer of an operation: a value, or the error it failed with. */
  datatype Result<+T, +E> = Ok(value: T) | Err(error: E)
}
