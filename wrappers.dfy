/** Small result types shared by the model. */
module Wrappers {

  /** A value that may be absent (an SQL NULL, a missing row). */
  datatype Option<+T> = None | Some(value: T)

  /**
   * How an operation ended. `Fatal` is what the C program does through
   * `sqlite_check`: it raises SIGTERM and the process terminates.
   */
  datatype Outcome = Ok | Fatal(reason: string)
}
