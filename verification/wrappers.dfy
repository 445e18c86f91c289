/** A minimal optional-value datatype shared by every module of the model. */
module Wrappers {

  /** `None` stands for Python's `None` (or a dictionary key that is absent). */
  datatype Option<+T> = None | Some(value: T) {

    /** The value, or `default` when there is none: `d.get(key, default)`. */
    function GetOr(default: T): T {
      match this
      case Some(v) => v
      case None => default
    }
  }
}
