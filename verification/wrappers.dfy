/** Optional values, used for the Go idiom of "value or nothing" (a nil document,
    a failed parse, a missing map entry). */
module Wrappers {

  datatype Option<+T> = None | Some(value: T) {

    /** The value, or `default` when there is none (Go's zero-value idiom). */
    function GetOr(default: T): T {
      match this
      case Some(v) => v
      case None => default
    }
  }
}
