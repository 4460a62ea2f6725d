/** The optional value used for JavaScript's `undefined`-or-value fields and storage keys. */
module Wrappers {

  datatype Option<+T> = None | Some(value: T) {

    /** `x || fallback` on an optional value: the value when present, otherwise the fallback. */
    function GetOr(default: T): T {
      match this
      case Some(v) => v
      case None => default
    }
  }
}
