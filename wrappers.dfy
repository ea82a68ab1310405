/** Optional values and results with an error, for `undefined` and for
    operations that throw. */
module Wrappers {

  datatype Option<T> = None | Some(value: T)

  datatype Result<T, E> = Ok(value: T) | Err(error: E)
}
