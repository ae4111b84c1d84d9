/** Optional values (Java references that may be null) and results of operations that may throw. */
module Wrappers {

  /** A Java reference that may be null: `None` stands for null. */
  datatype Option<+T> = None | Some(value: T) {
    function GetOr(default: T): T {
      match this
      case Some(v) => v
      case None => default
    }
  }

  /** The exceptions the library throws. */
  datatype Error =
    | IllegalArgument
    | NullPointer
    | IndexOutOfBounds
    | IllegalState

  /** The outcome of a Java call that either returns a value or throws. */
  datatype Result<+R> = Success(value: R) | Failure(error: Error)
}
