/** Failure-compatible wrappers used where the modelled code returns null or throws. */
module Wrappers {

  /** `None` stands for a .NET null reference (or, for results, a thrown exception). */
  datatype Option<+T> = None | Some(value: T) {

    predicate IsFailure() {
      None?
    }

    function PropagateFailure<U>(): Option<U>
      requires None?
    {
      None
    }

    function Extract(): T
      requires Some?
    {
      value
    }
  }
}
