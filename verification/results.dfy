/** Wrappers used throughout the model: the Go program
    signals absence with nil pointers and failure with log.Fatal or a panic;
    here both become values. */
module Results {

  /** A value that may be absent (a Go pointer that may be nil). */
  datatype Option<+T> = None | Some(value: T) {

    /** The wrapped value, or `default` when absent. */
    function GetOr(default: T): T {
      match this
      case Some(v) => v
      case None => default
    }
  }

  /** Either a value or the error that stopped its computation. */
  datatype Result<+T, +E> = Success(value: T) | Failure(error: E)
}
