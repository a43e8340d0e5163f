/** Optional values and results shared by every module of the model. */
module Common {

  /** A nullable value: `None` stands for a C `NULL` pointer. */
  datatype Option<+T> = None | Some(value: T)

  /** The outcome of a callback: a value, or the fault that stops the process. */
  datatype Result<+T, +E> = Ok(value: T) | Err(error: E) {

    predicate IsFailure() {
      Err?
    }

    function PropagateFailure<U>(): Result<U, E>
      requires Err?
    {
      Err(error)
    }

    function Extract(): T
      requires Ok?
    {
      value
    }
  }
}
