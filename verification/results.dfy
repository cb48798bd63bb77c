/** Failure-carrying datatypes shared by the models: Go's `(value, error)`
    returns become a `Result`, and a bare `error` return becomes an `Outcome`. */
module Results {

  /** An optional value. */
  datatype Option<+T> = None | Some(value: T)

  /** A value or the error that replaced it. */
  datatype Result<+T, +E> = Success(value: T) | Failure(error: E)

  /** Success without a value, or an error: Go's lone `error` result. */
  datatype Outcome<+E> = Pass | Fail(error: E)
}
