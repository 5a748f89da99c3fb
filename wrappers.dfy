/** Option and Result values, used where the Python code returns None or raises. */
module Wrappers {

  datatype Option<+T> = None | Some(value: T)

  /** Success carries the returned value; Failure carries the message of the raised exception. */
  datatype Result<+T, +E> = Success(value: T) | Failure(error: E)
}
