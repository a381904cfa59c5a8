/** Option and result types shared by every module of the model. */
module Wrappers {

  /** A value that may be absent: the model's stand-in for a .NET null reference. */
  datatype Option<+T> = None | Some(value: T) {
    function GetOr(default: T): T {
      match this
      case Some(v) => v
      case None => default
    }
  }

  /** The value a .NET call returns, or the exception it throws. */
  datatype Result<+T, +E> = Success(value: T) | Failure(error: E)

  /** A call that returns nothing, or throws. */
  datatype Outcome<+E> = Pass | Fail(error: E)
}
