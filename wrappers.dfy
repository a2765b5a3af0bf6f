/** Failure-carrying values shared by the modules of the model. */
module Wrappers {

  datatype Option<+T> = None | Some(value: T)

  /** The outcome of a call into the repository backend: a value, or the
      IOException / GitAPIException that the call threw. */
  datatype Fallible<+T> = Ok(value: T) | IoFailure
}
