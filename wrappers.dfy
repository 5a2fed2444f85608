/** Failure-carrying return values: the model's stand-in for Python's
    `None` and for raised exceptions. */
module Wrappers {

  datatype Option<T> = None | Some(value: T)

  /** The value of a call that either returns normally or raises. */
  datatype Result<T, E> = Ok(value: T) | Err(error: E)

  /** The value of a call that returns nothing or raises. */
  datatype Outcome<E> = Pass | Fail(error: E)
}
