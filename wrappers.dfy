/** Optional values (Python's `None`) and validation outcomes (a value or a `ValidationError` message). */
module Wrappers {

  datatype Option<T> = None | Some(value: T)

  datatype Result<T> = Success(value: T) | Failure(error: string)
}
