/** Failure-carrying datatypes used in place of the source's thrown errors and
    `undefined` fields. */
module Results {

  /** A value that may be absent, like an optional field of a TypeScript interface. */
  datatype Option<+T> = None | Some(value: T)

  /** The outcome of an operation that either succeeds or throws. */
  datatype Result<+R, +E> = Success(value: R) | Failure(error: E)
}
