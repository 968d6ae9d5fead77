/** The optional value used wherever the JavaScript code returns `null`,
    reads an `undefined` property or leaves a field out. */
module Wrappers {

  datatype Option<+T> = None | Some(value: T) {

    /** `x || fallback` for an optional value. */
    function GetOr(fallback: T): T
    {
      match this
      case Some(v) => v
      case None => fallback
    }
  }
}
