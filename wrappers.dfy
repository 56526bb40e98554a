/** Option and Result values standing in for the source's "falsy" sentinel
    returns and for the exceptions the engine can raise. */
module Wrappers {

  datatype Option<T> = None | Some(value: T)

  datatype Result<T, E> = Ok(value: T) | Err(error: E)
}
