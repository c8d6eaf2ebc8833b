/**
 A pointer that may be NULL, for every component of the model.

 A `string` stands for the bytes of a C string, one `char` per byte.
 */
module Wrappers {

  /** A pointer that may be NULL, or a result that may be missing. */
  datatype Option<+T> = None | Some(value: T) {
    predicate IsFailure() {
      None?
    }

    function PropagateFailure<U>(): Option<U>
      requires None?
    {
      None
    }

    function Extract(): T
      requires Some?
    {
      value
    }
  }
}
