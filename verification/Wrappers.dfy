/** Result types shared by the modules of the model. */
module Wrappers {

  datatype Option<+T> = None | Some(value: T)

  /** How a Go call ends: with a value, with a returned error, or in a nil-pointer panic. */
  datatype Outcome<+T> = Ok(value: T) | Error | Panic {

    predicate IsFailure() {
      !Ok?
    }

    function PropagateFailure<U>(): Outcome<U>
      requires IsFailure()
    {
      if Error? then Outcome<U>.Error else Outcome<U>.Panic
    }

    function Extract(): T
      requires !IsFailure()
    {
      value
    }
  }
}
