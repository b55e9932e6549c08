/** Optional values: the model's stand-in for a JSON field that may be absent
    (Python's `dict.get(key)` returning None) and for Python's `Optional` returns. */
module Wrappers {

  datatype Option<+T> = None | Some(value: T) {

    /** `dict.get(key, default)`: the stored value, or the default when absent. */
    function GetOr(default: T): (r: T)
      ensures Some? ==> r == value
      ensures None? ==> r == default
    {
      match this
      case Some(v) => v
      case None => default
    }
  }
}
