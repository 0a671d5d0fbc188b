/** Option and Result, the shapes used for JavaScript's nullable values and
    for functions that either return a value or throw. */
module Wrappers {

  datatype Option<+T> = None | Some(value: T) {
    function GetOr(default: T): T {
      match this
      case Some(v) => v
      case None => default
    }
  }

  /** A function that returns `value`, or throws `error`. */
  datatype Result<+R, +E> = Success(value: R) | Failure(error: E)
}
