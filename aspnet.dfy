/**
 * Stand-ins for the ASP.NET Core values the HTTP mapping builds: a JSON value,
 * an RFC 7807 problem-details object and the three IResult kinds the library
 * produces.
 */
module AspNet {
  import opened Clr

  /** The JSON values the problem-details extensions are serialised from. */
  datatype Json = JString(text: string) | JArray(items: seq<Json>) | JObject(members: map<string, Json>)

  /**
   * ProblemDetails (section 3.1 of RFC 7807: status, title, type) with its
   * extension members (section 3.2 of RFC 7807).
   */
  datatype ProblemDetails = ProblemDetails(
    status: Option<int>,
    title: Option<string>,
    problemType: Option<string>,
    extensions: map<string, Json>)

  /** Results.NoContent(), Results.Ok(value) and Results.Problem(details). */
  datatype HttpResult<+V> = NoContent | Ok(value: V) | Problem(details: ProblemDetails)
}
