/** Failure-compatible wrappers shared by the parsers, the index builders and the queries. */
module Wrappers {

  /** A value that may be absent: a parse that failed, a file that was skipped. */
  datatype Option<+T> = None | Some(value: T)

  /** The errors a query can raise once the tables are loaded. */
  datatype QueryError =
    | NoMatch   // `.values[0]` on an empty filtered table raises IndexError

  /** The outcome of a single-result query. */
  datatype Result<+T> = Ok(value: T) | Err(error: QueryError)
}
