/** A minimal optional-value datatype, used wherever the source has an absent
    value (`null`/`undefined` in JavaScript, `None` in Python) or produces `NaN`. */
module Wrappers {

  datatype Option<+T> = None | Some(value: T) {

    /** Returns the value carried by Some, or `default` if None. */
    function GetOr(default: T): T {
      match this
      case Some(v) => v
      case None() => default
    }
  }
}
