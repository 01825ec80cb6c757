/** Small failure-carrying datatypes shared by the other modules. */
module Wrappers {

  /** A value that may be absent: a NULL column, a missing form field, a lookup that found nothing. */
  datatype Option<+T> = None | Some(value: T) {
    function GetOr(default: T): T {
      match this
      case Some(v) => v
      case None => default
    }
  }

  /** Either a value or an error, for handlers that answer with an error code instead of a result. */
  datatype Result<+T, +E> = Ok(value: T) | Err(error: E)
}
