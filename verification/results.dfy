/** Optional values and success-or-error results, used where the source returns null or throws. */
module Results {

  /** A value that may be missing (PHP's `null`). */
  datatype Option<+T> = None | Some(value: T) {

    /** The value, or `default` when missing (PHP's `??`). */
    function GetOr(default: T): T {
      match this
      case Some(v) => v
      case None => default
    }
  }

  /** Either a computed value or the error the source would have thrown. */
  datatype Result<+T, +E> = Success(value: T) | Failure(error: E)
}
