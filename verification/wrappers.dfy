/** Failure-carrying datatypes shared by the model: an optional value and a
    success-or-error result. */
module Wrappers {

  /** A value that may be absent, as an omitted request field or a missing record. */
  datatype Option<+T> = None | Some(value: T)

  /** The outcome of a handler: a reply value, or an error kind. */
  datatype Result<+T, +E> = Success(value: T) | Failure(error: E)
}
