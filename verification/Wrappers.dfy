/** Results shared by the modules. */
module Wrappers {
  datatype Option<+T> = None | Some(value: T)

  /** A value, or the Go panic (index out of range) that ends the computation. */
  datatype Result<+T> = Ok(value: T) | Panic {
    predicate IsFailure() { Panic? }

    function PropagateFailure<U>(): Result<U>
      requires Panic?
    {
      Panic
    }

    function Extract(): T
      requires Ok?
    {
      value
    }
  }
}
