/** Optional values: JavaScript's `undefined` for a missing field or a failed lookup. */
module Wrappers {

  datatype Option<T> = None | Some(value: T) {

    /** The value, or `default` when there is none (the `x || default` and `x ?? default` idioms). */
    function GetOr(default: T): T
    {
      match this
      case Some(v) => v
      case None => default
    }
  }
}
