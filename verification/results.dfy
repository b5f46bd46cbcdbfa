/** Failure-carrying return values shared by the rest of the model. */
module Results {

  datatype Option<T> = None | Some(value: T)

  /** The outcome of an operation that can fail with an error of type E. */
  datatype Result<T, E> = Success(value: T) | Failure(error: E)
}
