/** Option and Result: absent values and the error paths of the modelled code. */
module Wrappers {

  datatype Option<+T> = None | Some(value: T) {
    /** Python's `x if x is not None else default`. */
    function GetOr(default: T): T {
      match this
      case Some(v) => v
      case None => default
    }
  }

  datatype Result<+R, +E> = Ok(value: R) | Err(error: E)
}
