/** Failures the script can raise, and the Result type that carries them.
    Every exception of the pipeline aborts the run; the model returns it. */
module Results {

  /** The exceptions the pipeline can raise, named after their cause. */
  datatype Failure =
    | MalformedTimestamp(text: string)  // datetime.strptime raises ValueError
    | PopFromEmptyList                  // list.pop() on an empty list raises IndexError
    | IndexOutOfRange                   // indexing an empty list raises IndexError
    | DivisionByZero                    // a division whose divisor is zero
    | EmptyArgument                     // min() or max() of an empty sequence raises ValueError

  datatype Result<+T> = Ok(value: T) | Err(error: Failure) {
    predicate IsFailure() { Err? }

    function PropagateFailure<U>(): Result<U>
      requires Err?
    {
      Err(error)
    }

    function Extract(): T
      requires Ok?
    {
      value
    }
  }
}
