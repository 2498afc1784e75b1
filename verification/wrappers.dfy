/** The optional-value and success-or-error datatypes shared by every
    module of the model. */
module Wrappers {

  /** A value that may be absent: JavaScript's `undefined`, a falsy
      response, or `NaN` where the source parses a number. */
  datatype Option<+T> = None | Some(value: T)

  /** The outcome of a handler that can throw: `Failure` stands for the
      exception the source raises (or catches and only logs). */
  datatype Result<+T, +E> = Success(value: T) | Failure(error: E)
}
