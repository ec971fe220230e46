/** Optional values, for Python attributes and lookups that may be `None`. */
module Wrappers {

  /** A value that may be absent: Python's `None` versus a present object. */
  datatype Option<+T> = None | Some(value: T) {

    /** The value, or `default` when absent (Python's `d.get(key, default)`). */
    function GetOr(default: T): T {
      match this
      case Some(v) => v
      case None => default
    }

    /** Python's `a or b` where `a` is either `None` or an always-truthy object. */
    function Or(other: Option<T>): Option<T> {
      if Some? then this else other
    }
  }
}
