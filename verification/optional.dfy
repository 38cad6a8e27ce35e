/** An order or shift cell that may be missing, or a parse that may fail:
    `None` stands for JavaScript's `undefined`, `null` or NaN. */
module Optional {

  datatype Option<+T> = None | Some(value: T) {

    /** The cell when it is there, otherwise `default`, as a JavaScript
        default parameter stands in for an `undefined` argument. */
    function GetOr(default: T): T {
      match this
      case Some(v) => v
      case None => default
    }

    /** JavaScript's `a || b` on values that are objects when present:
        an object is always truthy, so the first present value wins. */
    function OrElse(other: Option<T>): Option<T> {
      match this
      case Some(_) => this
      case None => other
    }
  }
}
