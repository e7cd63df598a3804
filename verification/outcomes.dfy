/**
 The daemon has a crash-only error policy: every failure it detects ends the
 process through `log.Fatal`. This module gives those failures a name, so that
 each operation of the model can return them instead of exiting.
 */
module Outcomes {

  /** The fatal conditions the scaling loop can reach. */
  datatype Failure =
    | UnexpectedStatus(expected: int, actual: int)  // the director answered with another HTTP status
    | TaskFailed(taskId: string)                    // a followed task ended in state `error`
    | MissingPort                                   // the `-port` flag was left at zero
    | MissingFlag                                   // a mandatory string flag was left empty

  /** Either a value or the failure that would have ended the process. */
  datatype Result<+T> = Ok(value: T) | Fatal(failure: Failure) {

    predicate IsFailure() {
      Fatal?
    }

    function PropagateFailure<U>(): Result<U>
      requires Fatal?
    {
      Fatal(failure)
    }

    function Extract(): T
      requires Ok?
    {
      value
    }
  }
}
