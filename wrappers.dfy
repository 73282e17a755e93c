/** Small shared datatypes: optional values and the firmware's error codes. */
module Wrappers {
  datatype Option<T> = None | Some(value: T)
  {
    predicate IsSome() { Some? }

    function GetOr(default: T): (r: T)
      ensures Some? ==> r == value
      ensures None? ==> r == default
    {
      match this
      case Some(v) => v
      case None => default
    }
  }
}

/**
 * The `esp_err_t` codes the modelled firmware returns, by name. The numeric
 * values are not needed by the model; `Other` stands for any code the
 * modelled functions do not name.
 */
module EspErrors {
  datatype EspErr =
    | Ok
    | Fail
    | InvalidArg
    | InvalidState
    | InvalidSize
    | NotFound
    | Timeout
    | InvalidResponse
    | AppInvalidPage
    | AppMutexFail
    | AppMutexRelease
    | AppUnhandled
    | AppLostMark
    | AppUninitialized
    | Other(code: int)
}
