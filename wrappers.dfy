/** Failure-carrying return values: the model's stand-in for the exceptions the
    program raises or the values it may lack. */
module Wrappers {

  datatype Option<T> = None | Some(value: T)

  datatype Result<T, E> = Ok(value: T) | Err(error: E)
}
