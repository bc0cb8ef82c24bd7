/** Optional values and fallible results, used wherever the system returns an
    optional value or throws on a failed precondition it checks at run time. */
module Results {

  datatype Option<T> = None | Some(value: T)

  /** A successful value, or the message of the error the system would raise. */
  datatype Result<T> = Success(value: T) | Failure(error: string)
}
