/** Failure-compatible helper datatypes shared by every module of the model. */
module Wrappers {

  /** A value that may be absent: JavaScript's `undefined`/`null` or a missing key. */
  datatype Option<+T> = None | Some(value: T) {

    /** The value, or `default` when absent (the source's `x || default` on non-falsy values). */
    function GetOr(default: T): T {
      match this
      case Some(v) => v
      case None => default
    }
  }
}
