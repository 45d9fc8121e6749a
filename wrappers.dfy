/** Failure-carrying values shared by every module: a JavaScript value that may be
    missing (`Option`), an operation that returns a value or throws (`Result`), and one
    that returns nothing or throws (`Outcome`). */
module Wrappers {

  datatype Option<+T> = None | Some(value: T) {
    function GetOr(default: T): T {
      match this
      case Some(v) => v
      case None => default
    }
  }

  datatype Result<+R, +E> = Success(value: R) | Failure(error: E)

  datatype Outcome<+E> = Pass | Fail(error: E)
}
