/**
 * Error.ToHttpResponse(): an error becomes an RFC 7807 problem response whose
 * status, title and type follow the error's category, with the error's code
 * and issues in an `error` extension member.
 */
module ErrorExtensions {
  import opened Clr
  import opened AspNet
  import opened Errors

  /** The reason phrases of section 6.1 of RFC 7231, for the statuses the mapping uses. */
  function ReasonPhrase(status: int): string
  {
    match status
    case 400 => "Bad Request"
    case 403 => "Forbidden"
    case 404 => "Not Found"
    case 409 => "Conflict"
    case 500 => "Internal Server Error"
    case _ => ""
  }

  /** The section of RFC 7231 that defines each of these statuses. */
  function Rfc7231Section(status: int): string
  {
    match status
    case 400 => "6.5.1"
    case 403 => "6.5.3"
    case 404 => "6.5.4"
    case 409 => "6.5.8"
    case 500 => "6.6.1"
    case _ => ""
  }

  const Rfc7231Uri := "https://tools.ietf.org/html/rfc7231#section-"

  /** The status switch: a declared category gives its own numeric value, anything else 500. */
  function Status(errorType: ErrorType): (status: int)
    ensures errorType.IsDefined() ==> status == errorType as int
    ensures !errorType.IsDefined() ==> status == 500
  {
    match errorType
    case 400 => 400
    case 403 => 403
    case 404 => 404
    case 409 => 409
    case _ => 500
  }

  /** The title switch: the RFC 7231 reason phrase of the status. */
  function Title(errorType: ErrorType): (title: string)
    ensures title == ReasonPhrase(Status(errorType))
    ensures |title| > 0
  {
    match errorType
    case 400 => "Bad Request"
    case 403 => "Forbidden"
    case 404 => "Not Found"
    case 409 => "Conflict"
    case _ => "Internal Server Error"
  }

  /** The type switch: a link to the RFC 7231 section that defines the status. */
  function TypeUri(errorType: ErrorType): (uri: string)
    ensures uri == Rfc7231Uri + Rfc7231Section(Status(errorType))
    ensures |uri| > |Rfc7231Uri|
  {
    match errorType
    case 400 => "https://tools.ietf.org/html/rfc7231#section-6.5.1"
    case 403 => "https://tools.ietf.org/html/rfc7231#section-6.5.3"
    case 404 => "https://tools.ietf.org/html/rfc7231#section-6.5.4"
    case 409 => "https://tools.ietf.org/html/rfc7231#section-6.5.8"
    case _ => "https://tools.ietf.org/html/rfc7231#section-6.6.1"
  }

  /** Issues.ToArray(), as the JSON array it is serialised to. */
  function IssuesJson(issues: seq<string>): (items: seq<Json>)
    ensures |items| == |issues|
    ensures forall i :: 0 <= i < |issues| ==> items[i] == JString(issues[i])
  {
    if |issues| == 0 then [] else IssuesJson(issues[..|issues| - 1]) + [JString(issues[|issues| - 1])]
  }

  /** The `error` extension member: an object with the code and the issues. */
  function ErrorExtension(error: Error): map<string, Json>
  {
    map["error" := JObject(map["code" := JString(error.code), "issues" := JArray(IssuesJson(error.issues))])]
  }

  /** ErrorExtensions.ToHttpResponse(error). */
  function ToHttpResponse<V>(error: Option<Error>): (r: Outcome<HttpResult<V>>)
    ensures error.None? <==> r.Raised?
    ensures error.None? ==> r.exception == ArgumentNullException("error")
    ensures error.Some? ==> r.value.Problem?
    ensures error.Some? ==>
              var details := r.value.details;
              && details.status == Some(Status(error.value.errorType))
              && details.title == Some(ReasonPhrase(Status(error.value.errorType)))
              && details.problemType == Some(Rfc7231Uri + Rfc7231Section(Status(error.value.errorType)))
              && details.extensions.Keys == {"error"}
              && DecodeErrorExtension(details.extensions) == Some((error.value.code, error.value.issues))
  {
    if error.None? then
      Raised(ArgumentNullException("error"))
    else
      var e := error.value;
      ErrorExtensionRoundTrip(e);
      Done(Problem(ProblemDetails(Some(Status(e.errorType)), Some(Title(e.errorType)), Some(TypeUri(e.errorType)), ErrorExtension(e))))
  }

  /** Reads a JSON array of strings back; `None` if some item is not a string. */
  function DecodeStrings(items: seq<Json>): (strings: Option<seq<string>>)
    ensures strings.Some? ==> |strings.value| == |items|
  {
    if |items| == 0 then Some([])
    else
      match (DecodeStrings(items[..|items| - 1]), items[|items| - 1])
      case (Some(front), JString(last)) => Some(front + [last])
      case _ => None
  }

  /** A client's reading of the `error` extension member: the code and the issues, if present and well formed. */
  function DecodeErrorExtension(extensions: map<string, Json>): Option<(string, seq<string>)>
  {
    if "error" !in extensions || !extensions["error"].JObject? then None
    else
      var members := extensions["error"].members;
      if "code" !in members || !members["code"].JString? || "issues" !in members || !members["issues"].JArray? then None
      else
        match DecodeStrings(members["issues"].items)
        case Some(issues) => Some((members["code"].text, issues))
        case None => None
  }

  /** The issues array decodes back to the issues, in order. */
  lemma {:induction false} IssuesRoundTrip(issues: seq<string>)
    ensures DecodeStrings(IssuesJson(issues)) == Some(issues)
  {
    if |issues| > 0 {
      var front := issues[..|issues| - 1];
      IssuesRoundTrip(front);
      assert IssuesJson(issues)[..|issues| - 1] == IssuesJson(front);
      assert front + [issues[|issues| - 1]] == issues;
    }
  }

  /** The `error` extension member carries the error's code and issues unchanged. */
  lemma ErrorExtensionRoundTrip(error: Error)
    ensures DecodeErrorExtension(ErrorExtension(error)) == Some((error.code, error.issues))
  {
    IssuesRoundTrip(error.issues);
  }
}
