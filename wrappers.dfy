/** Optional values and the outcome of one network round trip. */
module Wrappers {

  /** A value that may be absent (JavaScript's `null`/`undefined`). */
  datatype Option<+T> = None | Some(value: T) {
    function GetOr(default: T): T {
      match this
      case Some(v) => v
      case None => default
    }
  }

  /** What one `fetch` produced: either it failed (the promise rejected, or
      the caller threw on a non-success status) or it delivered a value. */
  datatype Fetched<+T> = Failed | Loaded(value: T)
}
