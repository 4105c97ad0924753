/** Optional values: an absent storage key, a JSON text that does not parse. */
module Wrappers {

  datatype Option<+T> = None | Some(value: T)

  /** The outcome of a handler: a value, or the error it reports to the user. */
  datatype Outcome<+T, +E> = Success(value: T) | Failure(error: E)
}
