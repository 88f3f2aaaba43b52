/** Optional values and the error-carrying result that the parsers return
    in place of Rust's `Option` and `Result<_, ParseErr>`. */
module Results {

  datatype Option<+T> = None | Some(value: T)

  /** `Err` carries the message that the program reports on its error stream. */
  datatype Result<+T> = Ok(value: T) | Err(error: string) {
    predicate IsFailure() {
      Err?
    }

    function PropagateFailure<U>(): Result<U>
      requires Err?
    {
      Err(error)
    }

    function Extract(): T
      requires Ok?
    {
      value
    }
  }
}
