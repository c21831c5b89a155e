/** Nullable values and error results shared by the salary model and the request handlers. */
module Wrappers {

  /** A nullable column or an optional request field: None stands for Python's None. */
  datatype Option<+T> = None | Some(value: T) {

    /** The held value, or `default` when there is none. */
    function GetOr(default: T): T {
      match this
      case Some(v) => v
      case None => default
    }
  }

  /** The outcome of an operation that the source can abort by raising. */
  datatype Result<+R, +E> = Success(value: R) | Failure(error: E)
}
