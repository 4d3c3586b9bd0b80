/** What every module shares. */
module Basics {

  datatype Option<+T> = None | Some(value: T)

  /** An identifier, ordered by its key as the source orders strings. */
  datatype Id = Id(key: nat)

  /** A durable age: when something became ready, and the identity that breaks a tie. */
  datatype Age = Age(at: int, tie: Id)
}
