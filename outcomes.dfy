/** Result shapes shared by the two contracts: every call either succeeds
    (possibly with a value) or fails with an error kind, and a read of an
    absent entity yields None rather than an error. */
module Outcomes {

  /** A caller identity; the contracts compare principals only for equality. */
  type Principal = string

  datatype Option<+T> = None | Some(value: T)

  /** Outcome of a pure state transition: the new store, or the error. */
  datatype Result<+T, +E> = Ok(value: T) | Err(error: E)

  /** What a state-changing call hands back to its caller. */
  datatype Reply<+E> = Pass | Fail(error: E)
}
