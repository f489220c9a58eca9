/** Value wrappers shared by the two models: a nullable value and a value-or-exception. */
module Wrappers {

  /** A reference that may be null (a boxed Java field, a JavaScript `null`). */
  datatype Option<+T> = None | Some(value: T)

  /** A method call that either returns a value or throws. */
  datatype Result<+T, +E> = Success(value: T) | Failure(error: E)
}
