/** Option and Result types used for JavaScript's `undefined`/`false`
    values and for the exceptions the modelled code can throw. */
module Wrappers {

  /** A value that may be absent (`undefined` or `false` in the source). */
  datatype Option<+T> = None | Some(value: T)

  /** The outcome of an operation that can throw. */
  datatype Result<+R, +E> = Success(value: R) | Failure(error: E)
}
