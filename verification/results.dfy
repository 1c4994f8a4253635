/** Failure-carrying values shared by the timer model: an optional value, and
    a value-or-error result standing in for a raised ValueError. */
module Results {

  /** A present value or nothing (a regex group that did not participate, say). */
  datatype Option<+T> = None | Some(value: T) {

    /** The value, or `default` when absent (Python's `x or default` on a group). */
    function GetOr(default: T): T {
      match this
      case Some(v) => v
      case None => default
    }
  }

  /** A successful value or an error describing why there is none. */
  datatype Result<+T, +E> = Ok(value: T) | Err(error: E)
}
