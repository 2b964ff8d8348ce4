/** Failure-carrying datatypes shared by every service of the model. */
module Wrappers {

  /** A value that may be missing: `null`/`undefined` in the services. */
  datatype Option<+T> = None | Some(value: T)

  /** The outcome of a service call that may throw: `Failure` carries the
      exception the call would raise. */
  datatype Result<+T, +E> = Success(value: T) | Failure(error: E)
}
