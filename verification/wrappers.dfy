/** Failure-carrying datatypes shared by the whole model. */
module Wrappers {

  /** A value that may be missing: JavaScript's `undefined`/`null` next to a real value. */
  datatype Option<+T> = None | Some(value: T) {

    /** The wrapped value, or `default` when there is none. */
    function GetOr(default: T): T {
      match this
      case Some(v) => v
      case None => default
    }
  }

  /** An optional string is truthy in JavaScript exactly when it is present and not empty. */
  predicate Given(q: Option<string>) {
    q.Some? && q.value != []
  }

  /** Either a result or the error an operation threw. */
  datatype Result<+T, +E> = Ok(value: T) | Err(error: E)
}
