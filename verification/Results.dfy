/** Optional values and error-carrying results, used wherever the TypeScript code returns `undefined` or throws. */
module Results {

  datatype Option<+T> = None | Some(value: T)

  /** A value, or the error the source would have thrown. Usable with `:-`. */
  datatype Result<+T, +E> = Ok(value: T) | Err(error: E) {
    predicate IsFailure() {
      Err?
    }

    function PropagateFailure<U>(): Result<U, E>
      requires Err?
    {
      Err(error)
    }

    function Extract(): T
      requires Ok?
    {
      value
    }
  }
}
