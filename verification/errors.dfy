/** The error value of src/utils/apiError.js and the raw errors the store and mail transport throw. */
module Errors {
  import opened Wrappers

  /** The structured `details` an ApiError may carry. */
  datatype Details =
    | Reason(reason: string)              // the message of the error that caused it
    | FieldErrors(messages: seq<string>)  // the request validator's field messages; that validator is not modelled, so nothing here builds one

  /** An HTTP-classified error; `isOperational` is false for wrapped unexpected failures. */
  datatype ApiError = ApiError(statusCode: int, message: string, isOperational: bool, details: Option<Details>)

  /** Anything an operation throws: an ApiError, or a raw error (store, mail transport) that is not one. */
  datatype Thrown =
    | Api(error: ApiError)
    | Raw(statusCode: Option<int>, message: string)

  /** `new ApiError(statusCode, message)`: operational, no details. */
  function Raise(statusCode: int, message: string): (t: Thrown)
    ensures t.Api? && t.error.isOperational && t.error.details.None?
    ensures t.error.statusCode == statusCode && t.error.message == message
  {
    Api(ApiError(statusCode, message, true, None))
  }
}
