/** How an operation of the program ends: with a value, or by throwing on an argument it refuses.
    A throw that the program labels as an internal error, and that can be shown never to happen, has no
    outcome of its own: the branch that would throw it holds `assert false`. */
module Outcomes {

  datatype Option<+T> = None | Some(value: T)

  datatype Result<+T> = Ok(value: T) | Refused
  {
    predicate IsFailure() {
      Refused?
    }

    function PropagateFailure<U>(): Result<U>
      requires Refused?
    {
      Refused
    }

    function Extract(): T
      requires Ok?
    {
      value
    }
  }
}
