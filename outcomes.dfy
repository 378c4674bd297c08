/** Failure-carrying values shared by the pipeline's modules. */
module Outcomes {

  /** A value that may be absent. */
  datatype Option<+T> = None | Some(value: T)

  /** The outcome of a call that either returns a value or raises an exception
      whose `str(e)` is `message`. */
  datatype Try<+T> = Ok(value: T) | Raised(message: string)
}
