/** Result types shared by the model. */
module Wrappers {
  /** `undefined`/`null` is None. */
  datatype Option<+T> = None | Some(value: T) {
    function GetOr(default: T): T {
      match this
      case Some(v) => v
      case None => default
    }
  }

  /** A thrown error is Failure. */
  datatype Result<+T, +E> = Success(value: T) | Failure(error: E)
}
