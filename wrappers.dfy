/** The optional value used for Go's `v, ok := ...` idiom and for parsers. */
module Wrappers {

  datatype Option<+T> = None | Some(value: T) {

    predicate IsFailure() {
      None?
    }

    function PropagateFailure<U>(): (r: Option<U>)
      requires None?
    {
      None
    }

    function Extract(): (v: T)
      requires Some?
    {
      value
    }
  }
}
