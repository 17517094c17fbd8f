/** Optional values: the model's stand-in for Java's `null` and `Optional`. */
module Wrappers {

  datatype Option<+T> = None | Some(value: T) {

    /** `Optional.orElse`: the held value, or `default` when there is none. */
    function GetOr(default: T): T {
      match this
      case Some(v) => v
      case None => default
    }
  }
}
