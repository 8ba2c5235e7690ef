/**
 * The Bing Webmaster client's logic: reading the API key from the
 * environment and classifying an HTTP status into success or an error.
 */
module BingClient {
  import opened Wrappers
  import opened PyText

  const BodyPreviewLength: nat := 200

  /** The `RuntimeError`s of the Bing client; `context` names the call. */
  datatype BingError =
    | MissingApiKey
    | InvalidApiKey(context: string)
    | AccessDenied(context: string)
    | RateLimitExceeded(context: string)
    | NotFound(context: string)
    | ApiError(status: int, context: string, message: string)

  /** `get_bing_api_key`, given the value of `BING_API_KEY` (`None` when unset). */
  function GetBingApiKey(env: Option<string>): (r: Result<string, BingError>)
    ensures r.Failure? <==> env.None? || AllSpace(env.value)
    ensures r.Failure? ==> r.error == MissingApiKey
    ensures r.Success? ==> r.value != "" && IsStripped(r.value)
  {
    var key := Strip(env.GetOr(""));
    if key == "" then Failure(MissingApiKey) else Success(key)
  }

  /** A key surrounded by whitespace is returned without it. */
  lemma ApiKeyLosesSurroundingSpace(lead: string, key: string, trail: string)
    requires AllSpace(lead) && AllSpace(trail) && IsStripped(key) && key != ""
    ensures GetBingApiKey(Some(lead + key + trail)) == Success(key)
  {
    StripSurrounded(lead, key, trail);
  }

  /**
   * The response body as `response.json()` sees it: `None` when it is not
   * a JSON object (parsing fails, or `.get` does not exist on the value);
   * otherwise its string-valued fields.
   */
  type JsonBody = Option<map<string, string>>

  /** `error_data.get(key)` is a non-empty string. */
  predicate HasText(json: JsonBody, key: string)
  {
    json.Some? && key in json.value && json.value[key] != ""
  }

  /** `error_data.get("Message") or error_data.get("message") or response.text[:200]`. */
  function ErrorMessage(body: string, json: JsonBody): (m: string)
    ensures HasText(json, "Message") ==> m == json.value["Message"]
    ensures !HasText(json, "Message") && HasText(json, "message") ==> m == json.value["message"]
    ensures !HasText(json, "Message") && !HasText(json, "message") ==>
              |m| == (if |body| < BodyPreviewLength then |body| else BodyPreviewLength) && m == body[..|m|]
  {
    var preview := Take(body, BodyPreviewLength);
    match json
    case None => preview
    case Some(fields) =>
      if "Message" in fields && fields["Message"] != "" then fields["Message"]
      else if "message" in fields && fields["message"] != "" then fields["message"]
      else preview
  }

  /** `_handle_response_error`: `None` when the call succeeded, else the error raised. */
  function HandleResponseError(status: int, body: string, json: JsonBody, context: string): (r: Option<BingError>)
    ensures r.None? <==> status == 200
    ensures status == 401 ==> r == Some(InvalidApiKey(context))
    ensures status == 403 ==> r == Some(AccessDenied(context))
    ensures status == 429 ==> r == Some(RateLimitExceeded(context))
    ensures status == 404 ==> r == Some(NotFound(context))
    ensures status !in {200, 401, 403, 404, 429} ==>
              r == Some(ApiError(status, context, ErrorMessage(body, json)))
  {
    if status == 200 then None
    else if status == 401 then Some(InvalidApiKey(context))
    else if status == 403 then Some(AccessDenied(context))
    else if status == 429 then Some(RateLimitExceeded(context))
    else if status == 404 then Some(NotFound(context))
    else Some(ApiError(status, context, ErrorMessage(body, json)))
  }

  /** The four statuses with a fixed meaning give four different kinds of error. */
  lemma DistinctErrorKinds(body: string, json: JsonBody, context: string)
    ensures var kinds := [
              HandleResponseError(401, body, json, context), HandleResponseError(403, body, json, context),
              HandleResponseError(429, body, json, context), HandleResponseError(404, body, json, context)];
            forall i, j :: 0 <= i < j < 4 ==> kinds[i] != kinds[j]
  {
  }
}
