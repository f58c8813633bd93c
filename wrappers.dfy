/** Absent-or-present values: NaN cells, unresolved labels and unparsed dates are `None`. */
module Wrappers {

  datatype Option<+T> = None | Some(value: T) {

    /** The value, or `default` when absent (pandas `sum` skips NaN, which is `GetOr(0)`). */
    function GetOr(default: T): T {
      match this
      case Some(v) => v
      case None => default
    }
  }
}
