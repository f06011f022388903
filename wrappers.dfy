/** Option and Result, the shapes of Rust's `Option<T>` and `Result<T, E>`.
    `Result` is failure-compatible, so decoders can be written with `:-`
    the way the Rust code uses `?`. */
module Wrappers {

  datatype Option<+T> = None | Some(value: T)

  datatype Result<+T, +E> = Ok(value: T) | Err(error: E) {

    predicate IsFailure() {
      Err?
    }

    function PropagateFailure<U>(): Result<U, E>
      requires Err?
    {
      Err(error)
    }

    function Extract(): T
      requires Ok?
    {
      value
    }
  }
}
