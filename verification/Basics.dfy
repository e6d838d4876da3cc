/** Shared vocabulary: optional values, instants and the identifiers of database rows. */
module Basics {

  datatype Option<+T> = None | Some(value: T)

  /** An instant, in nanoseconds since Go's zero time. Go's zero time and SQL NULL are `None`. */
  type Time = int

  /** A row identifier (a uuid in the database). */
  type Id = nat

  const MINUTE: int := 60_000_000_000

  /** The lease length of delivery and report claims: fifteen minutes. */
  const LEASE: int := 900_000_000_000

  /** The number of claims a delivery or report gets before it is given up. */
  const MAX_ATTEMPTS: nat := 3

  /** GREATEST(COALESCE(a, '-infinity'), b) */
  function Greatest(a: Option<Time>, b: Time): Time {
    match a
    case None => b
    case Some(t) => if t < b then b else t
  }
}
