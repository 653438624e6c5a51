/** Optional values and success/failure results shared by every module.
    `Option` models a JavaScript value that may be `undefined`/`null`;
    `Result` models an operation that either returns or throws. */
module Wrappers {

  datatype Option<+T> = None | Some(value: T) {
    /** JavaScript `x ?? d`: the value when present, `d` otherwise. */
    function OrElse(d: T): T {
      match this
      case Some(v) => v
      case None => d
    }
  }

  datatype Result<+T, +E> = Success(value: T) | Failure(error: E)
}
