/** Optional values and the settlement of one asynchronous fetch. */
module Wrappers {

  /** A value that may be absent: `undefined` or `null` in the source. */
  datatype Option<+T> = None | Some(value: T) {

    /** The value, or `default` when absent (the source's `??` operator). */
    function GetOr(default: T): T {
      match this
      case Some(v) => v
      case None => default
    }
  }

  /** How one fetch settled: fulfilled with a value, or rejected. */
  datatype Outcome<+T> = Ok(value: T) | Fail
}
