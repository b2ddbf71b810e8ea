/** Optional values shared by every handler of the model. */
module Wrappers {

  /** `undefined`/`null`-or-value: None is the absent case. */
  datatype Option<+T> = None | Some(value: T) {

    /** The value, or `default` when absent. */
    function GetOr(default: T): T {
      match this
      case Some(v) => v
      case None => default
    }
  }
}
