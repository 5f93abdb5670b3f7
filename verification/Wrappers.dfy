/** Optional values. */
module Wrappers {

  datatype Option<+T> = None | Some(value: T) {

    function GetOr(default: T): T {
      match this
      case Some(v) => v
      case None => default
    }

    /** The ?? operator. */
    function OrElse(other: Option<T>): Option<T> {
      if Some? then this else other
    }
  }
}
