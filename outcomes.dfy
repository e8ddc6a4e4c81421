/**
 * Failure-compatible wrappers shared by the whole model.
 *
 * The resolvers report trouble in two ways: some propagate a store error with
 * `?`, most call `unwrap` and panic. Either way the query produces no value,
 * so both become `Err(fault)`; the `Fault` says which step failed.
 */
module Outcomes {

  datatype Option<T> = None | Some(value: T)

  /** Why a resolver produced no value. */
  datatype Fault =
    | NoMatchingKey(pattern: string)  // KEYS returned nothing, so GET was sent without a key
    | MissingValue(key: string)       // GET/MGET answered nil for a key
    | Undecodable                     // the stored payload is not the JSON the caller expects
    | EmptyBatch                      // MGET was sent without any key
    | SliceOutOfRange                 // `characters[start..end]` with start > end or end > len

  datatype Result<T> = Ok(value: T) | Err(fault: Fault) {
    predicate IsFailure() { Err? }

    function PropagateFailure<U>(): Result<U>
      requires Err?
    {
      Err(fault)
    }

    function Extract(): T
      requires Ok?
    {
      value
    }
  }
}
