/** Optional values and the two exceptions the core can raise, as values. */
module Outcomes {

  datatype Option<+T> = None | Some(value: T)

  /** The Python exceptions raised by the modelled code. */
  datatype Error =
    | IndexError(index: nat)     // a list subscript past the end of the list
    | KeyError(key: string)      // a dict subscript with a key the dict lacks

  datatype Result<+T> = Success(value: T) | Failure(error: Error) {
    predicate IsFailure() { Failure? }

    function PropagateFailure<U>(): Result<U>
      requires Failure?
    {
      Failure(error)
    }

    function Extract(): T
      requires Success?
    {
      value
    }
  }
}
