/** Optional values and fallible results, as used by every handler of the backend. */
module Results {

  datatype Option<+T> = None | Some(value: T) {
    /** The value, or `default` when absent (Python's `dict.get(key, default)`). */
    function GetOr(default: T): T {
      match this
      case Some(v) => v
      case None => default
    }
  }

  /** A handler either answers with a value or raises an error. */
  datatype Result<+T, +E> = Ok(value: T) | Err(error: E)
}
