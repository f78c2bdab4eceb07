/** Option and Result, shared by every component. */
module Wrappers {

  datatype Option<+T> = None | Some(value: T) {
    function GetOr(default: T): T {
      match this
      case Some(v) => v
      case None => default
    }
  }

  /** `Raised` stands for any Python exception that leaves the call. */
  datatype Result<+T> = Ok(value: T) | Raised
}
