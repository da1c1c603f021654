/** Optional values and results, as JavaScript's `undefined` and thrown errors are modelled here. */
module Wrappers {

  /** `None` stands for a JavaScript `undefined` (an absent request field, a query that found nothing). */
  datatype Option<+T> = None | Some(value: T) {
    function GetOr(default: T): T {
      match this
      case Some(v) => v
      case None => default
    }
  }

  /** The outcome of an operation that may be refused, such as a schema validation. */
  datatype Result<+T, +E> = Success(value: T) | Failure(error: E)
}
