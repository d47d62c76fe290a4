/** How a call of the engines ends: with a value, with an error value the
    source returns (`Err(String)` in Rust), or abnormally (a Rust panic, a
    JavaScript or Python exception). */
module Outcomes {

  /** The abnormal ends the sources can reach. */
  datatype Fault =
    | DivisionByZero     // Rust `%` with a zero divisor
    | IndexOutOfBounds   // Rust `children[i]` past the end of the vector
    | TypeError          // JavaScript: a property of `undefined`, or calling `undefined`
    | ValueError         // Python: `random.randint` on an empty range
    | AttributeError     // Python: an attribute of `None`

  datatype Outcome<+T> = Ok(value: T) | Err(message: string) | Raised(fault: Fault)
  {
    predicate IsFailure() {
      !Ok?
    }

    function PropagateFailure<U>(): Outcome<U>
      requires IsFailure()
    {
      if Err? then Err(message) else Raised(fault)
    }

    function Extract(): T
      requires Ok?
    {
      value
    }
  }
}
