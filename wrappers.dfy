/** Failure-compatible Option and Result, and the shape of one handler invocation. */
module Wrappers {

  datatype Option<+T> = None | Some(value: T) {
    predicate IsFailure() { None? }

    function PropagateFailure<U>(): Option<U>
      requires None?
    {
      None
    }

    function Extract(): T
      requires Some?
    {
      value
    }
  }

  datatype Result<+T, +E> = Ok(value: T) | Err(error: E) {
    predicate IsFailure() { Err? }

    function PropagateFailure<U>(): Result<U, E>
      requires Err?
    {
      Err(error)
    }

    function Extract(): T
      requires Ok?
    {
      value
    }
  }

  /** A failure reported by a remote service (Pinpoint, Athena), passed on unchanged. */
  datatype ServiceError = ServiceError(message: string)

  /**
   * What one invocation of a Lambda handler does: the service requests it
   * issues, in order, and the value its promise resolves to (or the error it
   * rejects with).
   */
  datatype Invocation<+Call, +T, +E> = Invocation(calls: seq<Call>, outcome: Result<T, E>)
}
