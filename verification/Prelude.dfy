/** Types shared by every module of the model. */
module Prelude {

  /** An identifier string, represented by its rank in the canonical string order. */
  type Key = int

  /** An instant: an ISO-8601 timestamp as the milliseconds `Date.parse` gives. */
  type Time = int

  datatype Option<+T> = None | Some(value: T)

  /** The outcome of one atomic mutation: a refusal leaves the store as it was. */
  datatype Result<+T, +E> = Success(value: T) | Refused(error: E)
}
