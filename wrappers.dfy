/** Python's optional values and exceptions, as Dafny values. */
module Wrappers {

  /** An attribute or argument that may be Python's `None`. */
  datatype Maybe<+T> = None | Some(value: T)

  /** The Python exceptions that the modelled code can raise. */
  datatype PyError =
    | ZeroDivisionError   // a float divided by 0.0
    | UnboundLocalError   // a local read before any branch assigned it
    | IndexError          // a list indexed past its end
    | TypeError           // arithmetic or ordering on None
    | ValueError          // date.fromisoformat on a malformed string

  /** The outcome of an operation that either returns a value or raises. */
  datatype Result<+T> = Ok(value: T) | Err(error: PyError)

  /** The outcome of an operation that returns nothing or raises. */
  datatype Outcome = Pass | Fail(error: PyError)
}
