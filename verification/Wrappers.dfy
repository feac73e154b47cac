/** Optional values: Go's nil references, SQL's NULL columns and JSON members left out by omitempty. */
module Wrappers {

  datatype Option<+T> = None | Some(value: T) {

    function GetOr(default: T): T {
      match this
      case Some(v) => v
      case None => default
    }
  }
}
