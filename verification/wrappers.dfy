/** The optional value returned by lookups (`Array.prototype.find`,
    `parseInt`) that may find nothing. */
module Wrappers {

  datatype Option<+T> = None | Some(value: T) {

    /** `x ?? fallback`. */
    function GetOr(fallback: T): T {
      match this
      case Some(v) => v
      case None => fallback
    }
  }
}
