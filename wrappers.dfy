/** Failure-aware wrappers: a Java `null` becomes `None`, a thrown exception becomes `Failure`/`Fail`. */
module Wrappers {

  datatype Option<T> = None | Some(value: T)

  /** The value a Java method returns, or the exception it throws. */
  datatype Result<T, E> = Success(value: T) | Failure(error: E)

  /** The outcome of a Java `void` method: it returns normally or throws. */
  datatype Outcome<E> = Pass | Fail(error: E)
}
