/**
 * The error kinds of the notification module (errors.go).  Each Go error is
 * an `errcode` value with a numeric code and an HTTP status; here only the
 * kind is kept, plus the wrapped cause where the source wraps one.
 */
module Errors {

  datatype Error =
    | TriggerNotFound
    | TemplateNotFound
    | TemplateExists
    | TemplateDisabled          // declared by the source, never raised
    | TemplateRender(cause: string)
    | NoRecipient
    | SendFailed(cause: string)
    | InvalidInput
    | DatabaseError(cause: string)
    | NotImplemented
    | SendLogNotFound
    | ServiceNotAvailable
}
