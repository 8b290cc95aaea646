/** Option and Result, the shapes of the exporter's optional fields and fallible
    calls, and a mark that keeps large definitions folded in proofs. */
module Wrappers {

  datatype Option<+T> = None | Some(value: T)

  datatype Result<+T, +E> = Ok(value: T) | Err(error: E)

  /** Stands before definitions that most proofs only pass on. Asserting it makes
      such a definition available in full. */
  predicate Unfold(b: bool) { true }
}

