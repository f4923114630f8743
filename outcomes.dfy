/**
 * Optional values, results and the Python exceptions the fitting code can
 * raise. An exception aborts the whole call in the source, so every
 * operation that can raise returns a `Result` whose failure names the
 * exception instead of requiring its inputs to avoid it.
 */
module Outcomes {

  datatype Option<+T> = None | Some(value: T)

  /** The Python exceptions raised by the modelled code. */
  datatype Error =
    | IndexError(what: string)         // indexing past the end of a list
    | ValueError(what: string)         // numpy shape errors, min of an empty array
    | AssertionError(what: string)     // a failed `assert`
    | AttributeError(what: string)     // reading an attribute that was never assigned
    | UnboundLocalError(what: string)  // reading a local that was never bound
    | UnknownCriterion(name: string)   // the generic `Exception` of generate_weights

  datatype Result<+T> = Success(value: T) | Failure(error: Error)
}
