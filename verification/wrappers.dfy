/** Optional values shared by the whole model. */
module Wrappers {

  /** A value that may be absent: PHP's `null` / an option that was never stored. */
  datatype Option<+T> = None | Some(value: T) {

    /** The carried value, or `default` when absent. */
    function GetOr(default: T): T {
      match this
      case Some(v) => v
      case None => default
    }
  }
}
