/** Results of the checker's front end.  The program ends with a message where a
    result here is a failure. */
module Outcomes {
  datatype Error =
    | TooLongSymbol        // a token does not fit in its buffer
    | PrimedVariable       // a CTL formula mentions a primed variable
    | UndeclaredVariable   // a CTL formula mentions a variable the model has not
    | NewVariable          // the expected states mention a variable the model has not
    | Malformed            // the postfix expression does not leave exactly one value
    | Underflow            // an operator finds too few operands; the program has no defined result
    | Unpaired             // the numbers of primed and unprimed variables differ
    | MissingCounterpart   // an unprimed variable has no primed one; the program has no defined result

  datatype Option<+T> = None | Some(value: T)

  datatype Result<+T> = Ok(value: T) | Err(error: Error) {
    predicate IsFailure() { Err? }

    function PropagateFailure<U>(): Result<U>
      requires Err?
    {
      Err(error)
    }

    function Extract(): T
      requires Ok?
    {
      value
    }
  }
}
