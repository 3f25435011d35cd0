/** Option and Result: the absent value and the thrown error of the modelled code. */
module Wrappers {

  /** `undefined` (or a value that is not there) versus a present value. */
  datatype Option<+T> = None | Some(value: T) {
    function GetOr(default: T): T {
      match this
      case Some(v) => v
      case None => default
    }
  }

  /** A call that either returns a value or throws an error. */
  datatype Result<+T, +E> = Success(value: T) | Failure(error: E)
}
