/** Failure-carrying values shared by every module of the model. */
module Results {

  /** A value that may be absent; `None` stands for JavaScript's `undefined` or `NaN`. */
  datatype Option<+T> = None | Some(value: T)

  /** The outcome of an operation that either succeeds or stops with a failure. */
  datatype Result<+T, +E> = Ok(value: T) | Err(error: E)
}
