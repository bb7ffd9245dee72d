/** Optional values and success/failure outcomes shared by the other modules. */
module Results {

  datatype Option<+T> = None | Some(value: T)

  datatype Result<+R, +E> = Success(value: R) | Failure(error: E)
}
