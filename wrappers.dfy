/** Optional values and error results: the `null`/`NaN` cells, the `?.` lookups
    and the raised exceptions of the modelled code. */
module Wrappers {

  datatype Option<+T> = None | Some(value: T)

  datatype Result<+R, +E> = Success(value: R) | Failure(error: E)
}
