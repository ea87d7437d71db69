/**
 * The structured error of the `cfnerr` package, reduced to what this model
 * reads: a code string, a message and the wrapped cause, if any.
 */
module CfnErr {
  import opened Wrappers

  /** A plain Go `error` value, identified by its text. */
  datatype Fault = Fault(text: string)

  /** `cfnerr.New(code, message, cause)`; a nil cause is `None`. */
  datatype CfnError = CfnError(code: string, message: string, cause: Option<Fault>)
}
