/** Optional values and pass/fail outcomes, used where the source returns
    `null`/`undefined` or throws an error. */
module Wrappers {

  datatype Option<+T> = None | Some(value: T) {
    function GetOr(default: T): T {
      match this
      case Some(v) => v
      case None => default
    }
  }

  /** The outcome of an operation that either completes or fails with an error. */
  datatype Outcome<+E> = Pass | Fail(error: E)
}
