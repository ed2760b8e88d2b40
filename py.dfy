/** Python-level outcomes shared by every backend module: a value that may be
    absent (`None`) and a call that either returns or raises. */
module Py {

  datatype Option<+T> = None | Some(value: T) {
    function GetOr(default: T): T {
      match this
      case Some(v) => v
      case None => default
    }
  }

  /** The exceptions the modelled code can raise. `HttpError` is FastAPI's
      `HTTPException(status_code, detail)`; `ValidationError` is the 422 reply
      pydantic produces before a route body runs. */
  datatype PyError =
    | AttributeError
    | TypeError
    | ValueError
    | KeyError
    | ValidationError
    | HttpError(status: nat, detail: string)

  /** Either the call returned `value` or it raised `error`. */
  datatype Result<+T> = Ok(value: T) | Raise(error: PyError) {
    predicate IsFailure() {
      Raise?
    }

    function PropagateFailure<U>(): Result<U>
      requires Raise?
    {
      Raise(error)
    }

    function Extract(): T
      requires Ok?
    {
      value
    }
  }
}
