/** Optional values: `None` stands for a JavaScript `undefined` (or a key left out of an object). */
module Wrappers {

  datatype Option<+T> = None | Some(value: T) {

    /** Returns the wrapped value, or `default` when there is none. */
    function GetOr(default: T): T {
      match this
      case Some(v) => v
      case None => default
    }
  }
}
