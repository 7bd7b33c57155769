/** Option and Result values standing in for java.util.OptionalInt and for the
  * exceptions the simulator throws. */
module Wrappers {
  datatype Option<T> = None | Some(value: T)

  /** The two failures of the core: a floor outside the building and an
    * elevator id that no car carries (the Java code throws for both). */
  datatype Error =
    | InvalidFloor(floor: int)
    | NoElevatorWithId(id: int)

  datatype Result<T> = Ok(value: T) | Err(error: Error)

  /** The outcome of an operation that returns nothing but may throw. */
  datatype Outcome = Pass | Fail(error: Error)
}
