/** Optional values: a JavaScript `null`/`undefined` field or variable is `None`. */
module Wrappers {

  datatype Option<+T> = None | Some(value: T) {

    /** The value, or `default` when absent (JavaScript `x || default` for non-empty values). */
    function GetOr(default: T): T {
      match this
      case Some(v) => v
      case None => default
    }
  }

  /** A JavaScript string is truthy when present and non-empty. */
  predicate IsTruthy(s: Option<string>) {
    s.Some? && s.value != ""
  }
}
