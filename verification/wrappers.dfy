/** Failure-carrying result types shared by the models of the DTN daemon,
    the outbox tool and the Android services. */
module Wrappers {

  /** A value that may be absent (a null pointer, a missing map entry). */
  datatype Option<+T> = None | Some(value: T)

  /** The outcome of an operation that either produces a value or stops
      with an error (an exception, an early exit). */
  datatype Result<+R, +E> = Ok(value: R) | Err(error: E)
}
