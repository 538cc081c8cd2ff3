/** Optional values and results with an error, shared by the other modules. */
module Wrappers {

  /** A keyword argument that the caller may leave out. */
  datatype Option<+T> = None | Some(value: T) {
    /** The supplied value, or `default` when the argument was left out. */
    function GetOr(default: T): T {
      match this
      case Some(v) => v
      case None => default
    }
  }

  /** A value, or the error the Python code would raise instead. */
  datatype Result<+R, +E> = Ok(value: R) | Err(error: E)
}
