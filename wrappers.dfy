/** Optional values and results: JavaScript's `null`/`undefined` as `None`, and a thrown
    exception as `Err`. */
module Wrappers {

  datatype Option<+T> = None | Some(value: T)

  datatype Result<+T, +E> = Ok(value: T) | Err(error: E)
}
