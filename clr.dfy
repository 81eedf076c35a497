/**
 * Stand-ins for the .NET runtime and library types that the core consumes:
 * nullable references, exceptions, 32-bit integers, System.Type, character
 * classes and FluentValidation's validation results.
 */
module Clr {

  /** A nullable reference: `None` is `null`. */
  datatype Option<+T> = None | Some(value: T)

  /** The exceptions the core throws itself. */
  datatype Exception =
    | ArgumentNullException(paramName: string)
    | ArgumentException(paramName: string)
    | ArgumentOutOfRangeException(paramName: string, actualValue: int)
    | InvalidOperationException(message: string)
      /** A query that the database provider refuses to run. */
    | QueryRejected(reason: string)

  /** The outcome of a call that either returns a value or throws. */
  datatype Outcome<+T> = Done(value: T) | Raised(exception: Exception)

  /** System.Int32. */
  newtype int32 = x: int | -0x8000_0000 <= x < 0x8000_0000

  /** System.Int64. */
  newtype int64 = x: int | -0x8000_0000_0000_0000 <= x < 0x8000_0000_0000_0000

  /** C#'s unchecked 32-bit arithmetic: the two's-complement truncation of `x`. */
  function Wrap32(x: int): (r: int32)
    ensures (r as int - x) % 0x1_0000_0000 == 0
    ensures -0x8000_0000 <= x < 0x8000_0000 ==> r as int == x
  {
    var m := x % 0x1_0000_0000;
    if m < 0x8000_0000 then m as int32 else (m - 0x1_0000_0000) as int32
  }

  /** A point in time, in ticks (DateTime.UtcNow is passed in by the caller). */
  type DateTime = int

  /** An opaque cancellation signal, passed through unchanged. */
  datatype CancellationToken = CancellationToken(id: nat)

  /**
   * A System.Type: the namespace-qualified name of its (generic) definition and
   * its generic type arguments. A non-generic type has no arguments; a generic
   * type definition such as `IRequest<>` is written with its own generic
   * parameters as arguments.
   */
  datatype Ty = Ty(name: string, args: seq<Ty>)

  /** Type.IsGenericType. */
  predicate IsGenericType(t: Ty)
  {
    |t.args| > 0
  }

  /**
   * The identity of Type.GetGenericTypeDefinition(): .NET encodes the arity in
   * a generic definition's name (IRequest`1), so two types share a definition
   * exactly when they share a name and an arity.
   */
  function GenericTypeDefinition(t: Ty): (d: (string, nat))
    requires IsGenericType(t)
    ensures d.1 > 0
  {
    (t.name, |t.args|)
  }

  /** Type.FullName, as the model prints it in exception messages. */
  function FullName(t: Ty): string
  {
    t.name
  }

  /** Char.IsWhiteSpace: the Unicode separators and the control characters 9-13, 0x85. */
  predicate IsWhiteSpace(c: char)
  {
    || ('\U{0009}' <= c <= '\U{000D}')
    || c == ' ' || c == '\U{0085}' || c == '\U{00A0}' || c == '\U{1680}'
    || ('\U{2000}' <= c <= '\U{200A}')
    || c == '\U{2028}' || c == '\U{2029}' || c == '\U{202F}' || c == '\U{205F}' || c == '\U{3000}'
  }

  /** String.IsNullOrWhiteSpace. */
  predicate IsNullOrWhiteSpace(s: Option<string>)
  {
    s.None? || forall i :: 0 <= i < |s.value| ==> IsWhiteSpace(s.value[i])
  }

  /** A FluentValidation ValidationFailure: the property that failed and the rule's message. */
  datatype ValidationFailure = ValidationFailure(propertyName: string, errorMessage: string)

  /** A FluentValidation ValidationResult: the failures, in rule order. */
  datatype ValidationResult = ValidationResult(errors: seq<ValidationFailure>)
  {
    /** ValidationResult.IsValid. */
    predicate IsValid()
    {
      |errors| == 0
    }
  }
}
