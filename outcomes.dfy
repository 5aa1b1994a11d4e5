/** Values shared by the channel and the enumerator models: optional values,
    the exceptions the core raises, and the outcome of a call that may throw. */
module Outcomes {

  datatype Option<+T> = None | Some(value: T)

  /** The exceptions raised by the modelled code. `Raised` stands for any
      exception thrown by user code (a selector), identified by a code. */
  datatype Error =
    | ArgumentNull(paramName: string)
    | NotSupported
    | InvalidOperation(message: string)
    | Raised(code: int)

  /** The outcome of a call that either returns a value or throws. */
  datatype Attempt<+R> = Returned(value: R) | Threw(error: Error)
}
