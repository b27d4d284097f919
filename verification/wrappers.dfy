/** Optional values, standing in for pandas' missing (NaN/None) cells. */
module Wrappers {

  datatype Option<+T> = None | Some(value: T) {

    /** The wrapped value, or `default` when there is none. */
    function GetOr(default: T): T {
      match this
      case Some(v) => v
      case None => default
    }
  }

  /** Either a computed value or the error a Python call would have raised. */
  datatype Result<+T, +E> = Success(value: T) | Failure(error: E)
}
