/** Optional values: the model's stand-in for SQL NULL and Python None. */
module Wrappers {

  /** `None` is SQL NULL / Python None; `Some(v)` carries a present value. */
  datatype Option<+T> = None | Some(value: T) {

    /** The carried value, or `default` when absent (SQL `COALESCE(x, default)`). */
    function GetOr(default: T): T {
      match this
      case Some(v) => v
      case None => default
    }
  }
}
