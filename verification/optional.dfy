/** The usual Some/None wrapper, for values that may be absent; it supports
    `:-` so that a chain of steps stops at the first `None`. */
module Optional {
  datatype Option<+T> = None | Some(value: T) {
    predicate IsFailure() {
      None?
    }

    function PropagateFailure<U>(): Option<U>
      requires None?
    {
      None
    }

    function Extract(): T
      requires Some?
    {
      value
    }
  }
}
