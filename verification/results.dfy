/** Failure-carrying results for the environment's answers and the
    watcher's own errors. A Go `error` is modelled as its message text. */
module Results {

  /** The outcome of a call that returns only a Go `error`:
      `Pass` for a nil error, `Fail(cause)` otherwise. */
  datatype Outcome = Pass | Fail(cause: string)

  /** A value, or the text of the error that replaced it. */
  datatype Result<+T> = Ok(value: T) | Err(cause: string)

  datatype Option<+T> = None | Some(value: T)
}
