/** Optional values and success/failure outcomes, standing in for Python's None and raised exceptions. */
module Results {

  datatype Option<T> = None | Some(value: T)

  datatype Result<T, E> = Ok(value: T) | Err(error: E)
}
