/** Optional values and results with an error, used wherever the source has
    `null`/`undefined` or reports a failure instead of a value. */
module Wrappers {

  datatype Option<+T> = None | Some(value: T)

  datatype Result<+T, +E> = Ok(value: T) | Err(error: E)
}
