/** A value that may be absent: JavaScript's `undefined` for an optional
    property of a request, a session record or an order document. */
module Wrappers {

  datatype Option<+T> = None | Some(value: T) {

    /** The value, or `default` when absent. It stands for JavaScript's
        `x || default` where every falsy value `x` can take equals `default`,
        as for a body that may be "" with default "" or a total that may be 0
        with default 0. */
    function GetOr(default: T): T {
      match this
      case Some(v) => v
      case None => default
    }
  }
}
