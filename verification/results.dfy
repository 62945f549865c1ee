/** Failure-carrying values shared by the store, the event model and the handlers. */
module Results {

  /** A value that may be missing: Go's nil pointer or an absent error. */
  datatype Option<+T> = None | Some(value: T)

  /** Go's `(value, error)` pair where exactly one side is meaningful. */
  datatype Result<+T, +E> = Success(value: T) | Failure(error: E)
}
