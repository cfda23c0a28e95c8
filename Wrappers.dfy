/** Option and Result: absent values and error outcomes of the tracker's operations. */
module Wrappers {

  datatype Option<+T> = None | Some(value: T) {
    /** The value, or a default when there is none (Python's `x or default` on nullable fields). */
    function GetOr(default: T): T {
      match this
      case Some(v) => v
      case None => default
    }
  }

  datatype Result<+T, +E> = Ok(value: T) | Err(error: E)
}
