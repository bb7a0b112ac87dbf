/** Small failure-carrying datatypes shared by the other modules. */
module Wrappers {

  /** A value that may be missing (a null reference, or a parse that failed). */
  datatype Option<+T> = None | Some(value: T) {

    /** The carried value, or `default` when there is none. */
    function GetOr(default: T): T {
      match this
      case Some(v) => v
      case None => default
    }
  }

  /** A value, or the error that replaced it (an exception the source throws). */
  datatype Result<+T, +E> = Success(value: T) | Failure(error: E)
}
