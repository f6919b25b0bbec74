/** Option, the stock wrapper for a value that may be absent (a DOM
    attribute that is not set, a URL that does not parse). */
module Wrappers {

  datatype Option<+T> = None | Some(value: T) {

    /** The value, or `default` when there is none. */
    function GetOr(default: T): T {
      match this
      case Some(v) => v
      case None => default
    }
  }
}
