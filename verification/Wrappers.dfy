/** What calls return, and what stands at a position of some input. */
module Wrappers {
  datatype Option<+T> = None | Some(value: T)

  /** Go's value and error. */
  datatype ResultOf<+T, +E> = Success(value: T) | Failure(error: E) {
    predicate IsFailure() { Failure? }

    function PropagateFailure<U>(): ResultOf<U, E>
      requires Failure?
    {
      Failure(error)
    }

    function Extract(): T
      requires Success?
    {
      value
    }
  }

  /** A value and the position after it, or an error. */
  datatype ParseOf<+T, +E> = Ok(value: T, next: nat) | Fail(error: E) {
    predicate IsFailure() { Fail? }

    function PropagateFailure<U>(): ParseOf<U, E>
      requires Fail?
    {
      Fail(error)
    }

    function Extract(): (T, nat)
      requires Ok?
    {
      (value, next)
    }
  }

  /** A call that started where `p` was parsed returned `r` and left the cursor at `at`. */
  ghost predicate Agrees<T, E>(p: ParseOf<T, E>, r: ResultOf<T, E>, at: nat) {
    match p
    case Ok(v, next) => r == Success(v) && at == next
    case Fail(e) => r == Failure(e)
  }
}
