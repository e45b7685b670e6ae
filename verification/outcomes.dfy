/** Python-level results: optional values, the exceptions the modelled code
    raises, and the state an in-place operation leaves behind. */
module Outcomes {

  datatype Option<+T> = None | Some(value: T)

  /** The built-in exceptions raised (or let through) by the modelled code. */
  datatype PyError = ValueError | KeyError | TypeError | IndexError

  /** The value a call returns, or the exception it raises. */
  datatype Result<+T> = Ok(value: T) | Raised(error: PyError)

  /** A call that updates an object in place: the object's state afterwards,
      and the exception the call raised, if any. */
  datatype Mutation<+S> = Mutation(state: S, raised: Option<PyError>)
}
