/** Optional values: `None` stands for JavaScript's `null`, `undefined` or `NaN`,
    whichever the surrounding member says. */
module Wrappers {

  datatype Option<+T> = None | Some(value: T) {

    /** The value, or `default` when absent. */
    function GetOr(default: T): T {
      match this
      case Some(v) => v
      case None => default
    }
  }
}
