/** Optional values and error-carrying results, shared by every module. */
module Wrappers {

  /** A value that may be missing: SQL NULL, a Python `None`, a dictionary miss. */
  datatype Option<+T> = None | Some(value: T) {
    function GetOr(default: T): T {
      match this
      case Some(v) => v
      case None => default
    }
  }

  /** Either a value or the error the source would have raised or returned. */
  datatype Result<+R, +E> = Ok(value: R) | Err(error: E)
}
