/** Failure-carrying wrappers shared by the capture model. */
module Results {

  /** A value that may be missing: Python's `None` or a raised lookup error. */
  datatype Option<T> = None | Some(value: T)

  /** The outcome of an operation that may raise: `Err` carries the fault. */
  datatype Result<T, E> = Ok(value: T) | Err(error: E)
}
