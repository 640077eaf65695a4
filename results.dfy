/** Option and Result values shared by the whole model. */
module Results {

  /** A value that may be missing (a JavaScript `null`). */
  datatype Option<+T> = None | Some(value: T)

  /** The outcome of an operation that either succeeds or throws. */
  datatype Result<+R, +E> = Success(value: R) | Failure(error: E)
}
