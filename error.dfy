/**
 * The library's error value: a category (ErrorType), an application code and
 * the list of issues, with one factory per category.
 */
module Errors {
  import opened Clr

  /**
   * ErrorType. A C# enum is stored as an Int32 and may hold values that are
   * not declared, so the type is the whole Int32 range and the five declared
   * categories are constants.
   */
  newtype ErrorType = x: int | -0x8000_0000 <= x < 0x8000_0000
  {
    static const RequestInvalid: ErrorType := 400
    static const RequestNotAllowed: ErrorType := 403
    static const ResourceNotFound: ErrorType := 404
    static const ResourceConflict: ErrorType := 409
    static const Failure: ErrorType := 500

    /** Enum.IsDefined: one of the five declared categories. */
    predicate IsDefined()
    {
      this == RequestInvalid || this == RequestNotAllowed || this == ResourceNotFound
      || this == ResourceConflict || this == Failure
    }
  }

  /** Error: the category, the code and the issues, stored as given. */
  datatype Error = Error(errorType: ErrorType, code: string, issues: seq<string>)
  {
    /** Error.RequestInvalid(code, issues). */
    static function RequestInvalid(code: string, issues: seq<string>): (e: Error)
      ensures e.errorType == ErrorType.RequestInvalid && e.code == code && e.issues == issues
    {
      Error(ErrorType.RequestInvalid, code, issues)
    }

    /** Error.RequestInvalid(code, validationResult): the issues are the validation messages, in rule order. */
    static function RequestInvalidFromValidation(code: string, validationResult: ValidationResult): (e: Error)
      ensures e.errorType == ErrorType.RequestInvalid && e.code == code
      ensures |e.issues| == |validationResult.errors|
      ensures forall i :: 0 <= i < |e.issues| ==> e.issues[i] == validationResult.errors[i].errorMessage
    {
      Error(ErrorType.RequestInvalid, code, ErrorMessages(validationResult.errors))
    }

    /** Error.RequestNotAllowed(code, issues). */
    static function RequestNotAllowed(code: string, issues: seq<string>): (e: Error)
      ensures e.errorType == ErrorType.RequestNotAllowed && e.code == code && e.issues == issues
    {
      Error(ErrorType.RequestNotAllowed, code, issues)
    }

    /** Error.ResourceNotFound(code, issues). */
    static function ResourceNotFound(code: string, issues: seq<string>): (e: Error)
      ensures e.errorType == ErrorType.ResourceNotFound && e.code == code && e.issues == issues
    {
      Error(ErrorType.ResourceNotFound, code, issues)
    }

    /** Error.ResourceConflict(code, issues). */
    static function ResourceConflict(code: string, issues: seq<string>): (e: Error)
      ensures e.errorType == ErrorType.ResourceConflict && e.code == code && e.issues == issues
    {
      Error(ErrorType.ResourceConflict, code, issues)
    }

    /** Error.Failure(code, issues). */
    static function Failure(code: string, issues: seq<string>): (e: Error)
      ensures e.errorType == ErrorType.Failure && e.code == code && e.issues == issues
    {
      Error(ErrorType.Failure, code, issues)
    }
  }

  /** validationResult.Errors.Select(e => e.ErrorMessage). */
  function ErrorMessages(failures: seq<ValidationFailure>): (messages: seq<string>)
    ensures |messages| == |failures|
    ensures forall i :: 0 <= i < |failures| ==> messages[i] == failures[i].errorMessage
  {
    if |failures| == 0 then [] else ErrorMessages(failures[..|failures| - 1]) + [failures[|failures| - 1].errorMessage]
  }

  /**
   * The declared categories carry the HTTP status codes 400, 403, 404, 409 and
   * 500, and the five factories cover exactly the errors of a declared
   * category: each such error is what the factory of its category builds.
   */
  lemma EveryDefinedErrorComesFromAFactory(e: Error)
    requires e.errorType.IsDefined()
    ensures e.errorType as int in {400, 403, 404, 409, 500}
    ensures e.errorType == ErrorType.RequestInvalid ==> e == Error.RequestInvalid(e.code, e.issues)
    ensures e.errorType == ErrorType.RequestNotAllowed ==> e == Error.RequestNotAllowed(e.code, e.issues)
    ensures e.errorType == ErrorType.ResourceNotFound ==> e == Error.ResourceNotFound(e.code, e.issues)
    ensures e.errorType == ErrorType.ResourceConflict ==> e == Error.ResourceConflict(e.code, e.issues)
    ensures e.errorType == ErrorType.Failure ==> e == Error.Failure(e.code, e.issues)
  {
  }
}
