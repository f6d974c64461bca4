/** Optional values and success-or-error results, used where the source has an
    optional field (`memoryUsage?`), an optional option (`iterations?`) or a thrown error. */
module Results {

  /** A value that may be absent (`undefined` in the source). */
  datatype Option<+T> = None | Some(value: T) {

    /** The value if present, otherwise `default`; the meaning of a destructuring default. */
    function GetOr(default: T): T
    {
      match this
      case Some(v) => v
      case None => default
    }
  }

  /** Either a value (the promise resolves) or an error (the promise rejects). */
  datatype Result<+R, +E> = Success(value: R) | Failure(error: E)
}
