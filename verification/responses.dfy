/**
 The response envelopes a handler can emit, and the short-circuiting
 pipeline the handlers are written in.
 */
module Responses {
  import opened BlogModel

  /** A request field that express-validator checks. */
  datatype Field = Title | Description

  /** Why a request was refused as invalid: the failed fields, or a malformed id. */
  datatype Problem = FieldErrors(fields: seq<Field>) | InvalidId

  /** What a successful response carries. `EmptyObject` is the `{}` payload. */
  datatype Payload =
    | Records(docs: seq<Entry>)
    | View(data: BlogData)
    | EmptyObject

  datatype Outcome =
    | SuccessData(payload: Payload)
    | SuccessEmpty
    | ValidationError(problem: Problem)
    | NotFound
    | Unauthorized
    | ServerError
  {
    predicate IsError()
    {
      !SuccessData? && !SuccessEmpty?
    }
  }

  /**
   One stage of a handler: either the handler goes on with a value, or it has
   already answered with `out`. Used with `:-`, the first halting stage decides
   the response.
   */
  datatype Gate<+T> = Pass(value: T) | Halt(out: Outcome)
  {
    predicate IsFailure()
    {
      Halt?
    }

    function PropagateFailure<U>(): Gate<U>
      requires Halt?
    {
      Halt(out)
    }

    function Extract(): T
      requires Pass?
    {
      value
    }
  }

  /** Goes on when `cond` holds, answers `out` otherwise. */
  function Need(cond: bool, out: Outcome): Gate<()>
  {
    if cond then Pass(()) else Halt(out)
  }
}
