/** Failure-compatible wrappers shared by the model. */
module Wrappers {

  datatype Option<+T> = None | Some(value: T)

  /** The outcome of a step that either completes or raises. */
  datatype Outcome<+E> = Pass | Fail(error: E) {
    predicate IsFailure() { Fail? }
  }
}
