/**
 The error side of the JSON envelope `{ success: false, message, details }`
 that every handler answers with, and the HTTP status each error carries.
 */
module Responses {
  import opened Validation

  datatype ApiError =
    | ValidationFailed(details: seq<FieldError>)
    | BadRequest(message: string)
    | Unauthorized(message: string)
    | Forbidden(message: string)
    | NotFound(message: string)
    | ServerError(message: string)
  {
    function Status(): nat {
      match this
      case ValidationFailed(_) => 400
      case BadRequest(_) => 400
      case Unauthorized(_) => 401
      case Forbidden(_) => 403
      case NotFound(_) => 404
      case ServerError(_) => 500
    }
  }
}
