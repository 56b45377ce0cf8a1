/** Failure-carrying datatypes shared by the model. */
module Wrappers {

  /** Rust's `Option`. */
  datatype Option<+T> = None | Some(value: T)

  /** Rust's `Result`: a value or an error the caller can inspect. */
  datatype Result<+T, +E> = Ok(value: T) | Err(error: E)

  /** What a Rust call produces: it returns a `Result`, or it panics and the
      process never sees a value. Failure-compatible, so that `:-` threads a
      chain of calls that stops at the first `Err` or panic. */
  datatype Outcome<+T, +E> = Returns(result: Result<T, E>) | Panics {

    predicate IsFailure() {
      Panics? || result.Err?
    }

    function PropagateFailure<U>(): Outcome<U, E>
      requires IsFailure()
    {
      if Panics? then Panics else Returns(Err(result.error))
    }

    function Extract(): T
      requires !IsFailure()
    {
      result.value
    }
  }
}
