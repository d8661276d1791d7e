/** Optional values and success/failure results, used wherever the
    TypeScript code returns `null`/`undefined` or throws. */
module Wrappers {

  /** `null` / `undefined` versus a present value. */
  datatype Option<+T> = None | Some(value: T) {

    /** The value, or `default` when absent (the `??` / `.catch(() => d)` idiom). */
    function GetOr(default: T): (r: T)
      ensures Some? ==> r == value
      ensures None? ==> r == default
    {
      match this
      case Some(v) => v
      case None => default
    }
  }

  /** The outcome of an awaited call: the resolved value or the rejection. */
  datatype Result<+T, +E> = Success(value: T) | Failure(error: E) {

    /** Drops the error, keeping only whether a value arrived. */
    function ToOption(): (r: Option<T>)
      ensures r.Some? <==> Success?
      ensures Success? ==> r.value == value
    {
      match this
      case Success(v) => Some(v)
      case Failure(_) => None
    }
  }
}
