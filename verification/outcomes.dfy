/** Option and Outcome: the two sum types the model uses in place of Python's
    `None` and of exceptions raised across a call boundary. */
module Outcomes {

  /** A Python value that may be `None`. */
  datatype Option<+T> = None | Some(value: T)

  /** The result of an operation that either returns a value or raises an
      exception whose `str(e)` is `msg`. */
  datatype Outcome<+T> = Ok(value: T) | Err(msg: string)
}
