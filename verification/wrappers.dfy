/** Failure-carrying datatypes shared by the tokenizer and the session model. */
module Wrappers {

  /** A value that may be absent; the tokenizer uses it for the nullable
      current-token priority. */
  datatype Option<+T> = None | Some(value: T)

  /** The outcome of an operation that may throw: either its value or the
      exception it raises. */
  datatype Result<+R, +E> = Success(value: R) | Failure(error: E)
}
