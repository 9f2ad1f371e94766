/** Small value wrappers shared by every module of the model. */
module Common {

  /** An optional value: Go's nil pointer, TypeScript's undefined. */
  datatype Option<+T> = None | Some(value: T)

  /** A value or an error: Go's (value, err) pairs and thrown exceptions. */
  datatype Result<+T, +E> = Success(value: T) | Failure(error: E)
}
