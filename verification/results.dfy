/** Option and Result values used for the source's `None` returns and raised exceptions. */
module Results {

  datatype Option<+T> = None | Some(value: T) {
    /** Python's `x if x is not None else default`. */
    function GetOr(default: T): T {
      match this
      case Some(v) => v
      case None => default
    }
  }

  /** A computation that either returns a value or raises an error carrying a message. */
  datatype Result<+T, +E> = Ok(value: T) | Err(error: E)
}
