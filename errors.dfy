/**
 * The exceptions the services throw, as values. ResourceNotFound, Forbidden,
 * Conflict and UnprocessableEntity are the application's own exception
 * classes; ValidationFailed stands for a rejected request body,
 * IllegalArgument for java.lang.IllegalArgumentException and Internal for
 * any other exception (for instance a unique-column violation in the store).
 */
module Errors {
  import opened Wrappers

  datatype Failure =
    | ResourceNotFound(message: string)
    | Forbidden(message: string)
    | Conflict(message: string)
    | UnprocessableEntity(message: string)
    | ValidationFailed(fieldMessages: seq<string>)
    | IllegalArgument(message: string)
    | Internal(cause: string)

  /** The outcome of a service call: its value, or the exception it throws. */
  type Outcome<T> = Result<T, Failure>
}
