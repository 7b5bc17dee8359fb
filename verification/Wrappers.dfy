/** Failure-compatible wrappers shared by every module. */
module Wrappers {

  datatype Option<+T> = None | Some(value: T) {
    predicate IsFailure() {
      None?
    }

    function PropagateFailure<U>(): Option<U>
      requires None?
    {
      None
    }

    function Extract(): T
      requires Some?
    {
      value
    }
  }

  /** The reasons the validators distinguish. One constructor per kind of exception text. */
  datatype Error =
    | Malformed
    | WrongNetwork
    | WrongToken
    | SequenceGap
    | NotTheTip
    | NotTheOwner
    | TimestampNotIncreasing
    | TimestampInFuture
    | DailyLimit
    | BadKey
    | BadSignature
    | NotEncodable
    | DisplayIdMismatch
    | UntrustedGenesis
    | EmptySegment
    | HashMismatch
    | MissingPrevious
    | NotConnected
    | NotAtGenesis
    | RangeMismatch
    | CheckpointMismatch
    | RecursionLimit
    | RecursionCycle
    | BadRoot
    | BadInclusion
    | BadSpendProof
    | ValueMismatch
    | NotAConflict
    | RangeOverlap
    | SupplyExceeded
    | NotCovered

  datatype Result<+T> = Ok(value: T) | Err(error: Error) {
    predicate IsFailure() {
      Err?
    }

    function PropagateFailure<U>(): Result<U>
      requires Err?
    {
      Err(error)
    }

    function Extract(): T
      requires Ok?
    {
      value
    }
  }

  datatype Outcome = Pass | Fail(error: Error) {
    predicate IsFailure() {
      Fail?
    }

    function PropagateFailure<U>(): Result<U>
      requires Fail?
    {
      Err(error)
    }
  }

  /** `:- Require(condition, e);` raises `e` unless the condition holds. */
  function Require(condition: bool, error: Error): Outcome {
    if condition then Pass else Fail(error)
  }
}
