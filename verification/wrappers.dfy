/** Optional values and results with an error, used where the source returns
    `undefined`/`null` or aborts an operation. */
module Wrappers {

  datatype Option<+T> = None | Some(value: T)

  datatype Result<+T, +E> = Ok(value: T) | Err(error: E)
}
