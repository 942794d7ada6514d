/** Option and Result values used for the source's `None` returns and its error paths. */
module Wrappers {

  datatype Option<+T> = None | Some(value: T) {
    /** `x or default`, `d.get(key, default)` */
    function GetOr(default: T): T {
      match this
      case Some(v) => v
      case None => default
    }
  }

  datatype Result<+R, +E> = Ok(value: R) | Err(error: E)
}
