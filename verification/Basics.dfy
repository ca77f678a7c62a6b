/** Absent values and failures. */
module Basics {
  datatype Option<+T> = None | Some(value: T)

  datatype Result<+T> = Ok(value: T) | Err

  /**
   A create-only name: creating succeeds when nothing is stored under it, and what is
   stored is never replaced or removed.
   */
  function Create<T>(slot: Option<T>, value: T): Option<T> {
    if slot.None? then Some(value) else slot
  }

  predicate Persists<T(==)>(before: Option<T>, after: Option<T>) {
    before.Some? ==> after == before
  }
}
