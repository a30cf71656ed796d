/** Failure-compatible return values shared by the model: Go's `(value, error)`
    pairs become `Result`, and a nil-or-error return becomes `Option`. */
module Wrappers {

  datatype Option<+T> = None | Some(value: T)

  /** `Err` carries the text of the Go error that the command would report. */
  datatype Result<+T> = Ok(value: T) | Err(msg: string)
}
