/** Failure-compatible wrappers shared by the storefront model: a value that may be
    missing (JavaScript's `null`/`undefined`), a computation that may throw, and an
    action that may throw without producing a value. */
module Wrappers {

  datatype Option<+T> = None | Some(value: T) {
    function GetOr(default: T): T {
      match this
      case Some(v) => v
      case None => default
    }
  }

  datatype Result<+R, +E> = Success(value: R) | Failure(error: E)

  datatype Outcome<+E> = Pass | Fail(error: E)
}
