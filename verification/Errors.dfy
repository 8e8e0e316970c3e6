/** Exceptions, as far as the message pipeline tells them apart. */
module Errors {

  /** The nearest of the classes that are asked for by name. */
  datatype ErrorClass =
    | AckRequest
    | NackRequest
    | RejectRequest
    | SkipRequest
    | OtherHandlerException
    | OtherIgnored
    | Ordinary
    | Cancelled
    | OtherBase

  /** `derived` holds of an instance of a proper subclass of the class that `kind` names. */
  datatype Error = Error(kind: ErrorClass, derived: bool, name: string)
  {
    predicate IsHandlerException() {
      kind.AckRequest? || kind.NackRequest? || kind.RejectRequest? || kind.SkipRequest? || kind.OtherHandlerException?
    }

    predicate IsIgnored() {
      IsHandlerException() || kind.OtherIgnored?
    }

    /** Caught by `except Exception`. */
    predicate IsException() {
      !kind.Cancelled? && !kind.OtherBase?
    }
  }

  datatype Outcome<+T> = Done(value: T) | Raised(error: Error)
}
