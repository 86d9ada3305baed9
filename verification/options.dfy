/** Optional values and results, used for the missing fields of an occurrence
    record and for the pipeline's fatal error. */
module Options {

  /** A value that may be absent: `None` stands for a JSON `null`, a missing
      key, or a pandas NaN. */
  datatype Option<+T> = None | Some(value: T) {

    /** The wrapped value, or `default` when absent (pandas `fillna`). */
    function GetOr(default: T): T {
      match this
      case Some(v) => v
      case None => default
    }
  }

  /** The outcome of a run that can fail as a whole. */
  datatype Result<+T, +E> = Success(value: T) | Failure(error: E)
}
