/** The outcome of an operation that the source aborts with a panic. */
module Wrappers {

  datatype Result<T, E> = Ok(value: T) | Err(error: E)
}
