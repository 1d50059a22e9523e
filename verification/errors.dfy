/** The exception classes of `beanstream/errors.py`, as plain kinds.
    The classes are not related by subclassing here: the HTTP-status
    classes derive from `Error` directly, not from `BeanstreamApiException`. */
module Errors {

  datatype ErrorKind =
    | BaseError        // Error
    | Configuration    // ConfigurationException
    | Validation       // ValidationException
    | BeanstreamApi    // BeanstreamApiException
    | Redirection      // RedirectionException
    | InvalidRequest   // InvalidRequestException
    | UnAuthorized     // UnAuthorizedException
    | BusinessRule     // BusinessRuleException
    | Forbidden        // ForbiddenException
    | InternalServer   // InternalServerException

  /** How a call that may raise ended: it returned, or it raised `kind`. */
  datatype Outcome = Returned | Raised(kind: ErrorKind)

  /** The status codes whose exception class the library's test pins down.
      The classifier itself (`getMappedException`) is not part of this
      model, so it is a parameter of the operations that use it. */
  const TestedStatusKinds: map<int, ErrorKind> := map[
    302 := Redirection,
    400 := InvalidRequest,
    405 := InvalidRequest,
    415 := InvalidRequest,
    401 := UnAuthorized,
    402 := BusinessRule,
    403 := Forbidden
  ]

  /** `classify` returns, at every tested code, the class the test expects;
      elsewhere it is unconstrained. */
  predicate AgreesWithTests(classify: int -> ErrorKind)
  {
    forall status :: status in TestedStatusKinds ==> classify(status) == TestedStatusKinds[status]
  }
}
