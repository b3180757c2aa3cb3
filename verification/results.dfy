/** Kotlin's nullable values and thrown exceptions, as plain datatypes. */
module Results {

  /** A nullable value: `None` is Kotlin's `null`. */
  datatype Option<+T> = None | Some(value: T) {

    /** Kotlin's elvis operator `x ?: fallback`. */
    function GetOr(fallback: T): T
    {
      if Some? then value else fallback
    }
  }

  /** The outcome of a call that either returns a value or throws an error. */
  datatype Result<+T, +E> = Success(value: T) | Failure(error: E)
}
