/** The usual Option datatype, standing for JavaScript's `null`/`undefined` alternatives. */
module Wrappers {
  datatype Option<+T> = None | Some(value: T) {
    function GetOr(default: T): T {
      match this
      case Some(v) => v
      case None => default
    }
  }
}
