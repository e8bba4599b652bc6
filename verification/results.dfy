/** Failure-carrying wrappers: Go's `(value, error)` pairs and optional errors. */
module Results {

  datatype Option<+T> = None | Some(value: T)

  datatype Result<+T, +E> = Ok(value: T) | Err(error: E)
}
