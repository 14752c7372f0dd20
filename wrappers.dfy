/** Rust's `Option`, as the editor uses it for the file path and the last error. */
module Wrappers {

  datatype Option<+T> = None | Some(value: T) {

    /** `Option::unwrap_or` */
    function UnwrapOr(default: T): (r: T)
      ensures Some? ==> r == value
      ensures None? ==> r == default
    {
      match this
      case Some(v) => v
      case None => default
    }
  }
}
