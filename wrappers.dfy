/** Optional values and results with an error, used wherever the modelled code
    returns a null pointer, an empty std::optional, Python's None, or throws. */
module Wrappers {

  datatype Option<+T> = None | Some(value: T)

  datatype Result<+R, +E> = Success(value: R) | Failure(error: E)
}
