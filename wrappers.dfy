/** Optional values: Python's `None` versus a present value, and SQL NULL versus a stored value. */
module Wrappers {

  datatype Option<T> = None | Some(value: T) {

    /** The value, or `default` when absent (Python's `d.get(k, default)` once the lookup is done). */
    function GetOr(default: T): T {
      match this
      case Some(v) => v
      case None => default
    }
  }
}
