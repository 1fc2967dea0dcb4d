/** Failure-carrying values used for the error returns of the command line
    front end. */
module Wrappers {

  /** A value or an error, as a Go function returning `(T, error)`. */
  datatype Result<T, E> = Ok(value: T) | Err(error: E)

  /** Success without a value, or an error, as a Go function returning only `error`. */
  datatype Outcome<E> = Pass | Fail(error: E)
}
