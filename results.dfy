/** Option and Result, used for Python's "no value" and for the exception a frame can raise. */
module Results {

  datatype Option<T> = None | Some(value: T)

  datatype Result<T, E> = Success(value: T) | Failure(error: E)
}
