/** Optional values and results shared by every module of the model. */
module Base {

  /** A value that may be absent: a JavaScript property that is `undefined`
      or `null`, or a parse that produced `NaN`. */
  datatype Option<+T> = None | Some(value: T) {
    function GetOr(default: T): T {
      match this
      case Some(v) => v
      case None => default
    }
  }

  /** The outcome of an operation that may throw. */
  datatype Result<+T, +E> = Success(value: T) | Failure(error: E)
}
