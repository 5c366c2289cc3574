/** Option and Result: missing request fields and the handlers' early returns. */
module Wrappers {

  /** A field of a JSON body or query string that may be absent. */
  datatype Option<+T> = None | Some(value: T)

  /** The outcome of a validation chain: the accepted value, or the first failure. */
  datatype Result<+R, +E> = Success(value: R) | Failure(error: E)

  /** A check that either passes or names the error it shows. */
  datatype Outcome<+E> = Pass | Fail(error: E)
}
