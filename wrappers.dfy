/** The Option datatype shared by every module of the model. */
module Wrappers {

  /** `None` stands for JavaScript's `null` or `undefined`, `Some(v)` for a present value. */
  datatype Option<+T> = None | Some(value: T) {

    /** The value, or `default` when there is none (JavaScript's `x ?? default`). */
    function GetOr(default: T): T {
      match this
      case Some(v) => v
      case None => default
    }
  }
}
