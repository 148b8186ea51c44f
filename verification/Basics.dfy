/** Shared value types: the absent value and the two-way result of an operation that can raise. */
module Basics {

  datatype Option<+T> = None | Some(value: T)

  datatype Result<+T, +E> = Ok(value: T) | Err(error: E)

  /** The event name kept for the rows that open a file after a rotation, in the audit log and in the ledger. */
  const ANCHOR: string := "chain_anchor"

  function Max(a: int, b: int): int {
    if a < b then b else a
  }
}
