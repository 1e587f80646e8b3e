/** Values that stand in for .NET's null references and for the two kinds of
    exception the graph library throws. */
module Wrappers {

  /** A possibly-null argument: `None` is the null reference. */
  datatype Option<+T> = None | Some(value: T)

  /** The two exception types thrown by the library. */
  datatype Error = ArgumentNullException | ArgumentException

  /** The outcome of a member that returns a value or throws. */
  datatype Result<+T> = Ok(value: T) | Err(error: Error)

  /** The outcome of a `void` member that may throw. */
  datatype Outcome = Pass | Fail(error: Error)
}
