/** The optional value used for every step that can raise in the worker. */
module Wrappers {

  /** `None` stands for "this step raised"; `:-` propagates it. */
  datatype Option<+T> = None | Some(value: T) {

    predicate IsFailure() {
      None?
    }

    function PropagateFailure<U>(): Option<U>
      requires None?
    {
      None
    }

    function Extract(): T
      requires Some?
    {
      value
    }
  }
}
