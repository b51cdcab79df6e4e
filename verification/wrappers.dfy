/** Optional values, used for Python dictionary look-ups that may raise KeyError. */
module Wrappers {

  datatype Option<+T> = None | Some(value: T) {

    /** The value held by Some, or the given default when None. */
    function GetOr(default: T): T {
      match this
      case Some(v) => v
      case None => default
    }
  }
}
