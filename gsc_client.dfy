/**
 * The Search Console client's two pieces of logic: the classification of an
 * HTTP status into success or an error, and the request payload of a
 * Search Analytics query. The requests themselves are not modelled.
 */
module GscClient {
  import opened Wrappers
  import opened PyText

  /** The largest `rowLimit` a Search Analytics request asks for. */
  const MaxRowLimit: int := 25000

  /** How much of an unexpected response body an error keeps. */
  const BodyPreviewLength: nat := 200

  /** The `RuntimeError`s `_handle_response_error` raises; `context` names the call. */
  datatype GscError =
    | SessionExpired(context: string)
    | AccessDenied(context: string)
    | RateLimited(context: string)
    | NotFound(context: string)
    | ApiError(status: int, context: string, preview: string)

  /** `_handle_response_error`: `None` when the call succeeded, else the error raised. */
  function HandleResponseError(status: int, body: string, context: string): (r: Option<GscError>)
    ensures r.None? <==> status == 200
    ensures status == 401 ==> r == Some(SessionExpired(context))
    ensures status == 403 ==> r == Some(AccessDenied(context))
    ensures status == 429 ==> r == Some(RateLimited(context))
    ensures status == 404 ==> r == Some(NotFound(context))
    ensures status !in {200, 401, 403, 404, 429} ==>
              && r.Some? && r.value.ApiError? && r.value.status == status && r.value.context == context
              && |r.value.preview| == (if |body| < BodyPreviewLength then |body| else BodyPreviewLength)
              && r.value.preview == body[..|r.value.preview|]
  {
    if status == 200 then None
    else if status == 401 then Some(SessionExpired(context))
    else if status == 403 then Some(AccessDenied(context))
    else if status == 429 then Some(RateLimited(context))
    else if status == 404 then Some(NotFound(context))
    else Some(ApiError(status, context, Take(body, BodyPreviewLength)))
  }

  /** For 200, 401, 403, 404 and 429 the outcome is the same whatever the body says. */
  lemma ClassificationIgnoresBody(status: int, body1: string, body2: string, context: string)
    requires status in {200, 401, 403, 404, 429}
    ensures HandleResponseError(status, body1, context) == HandleResponseError(status, body2, context)
  {
  }

  /** One filter of a `dimensionFilterGroups` entry, passed through unchanged. */
  datatype DimensionFilter = DimensionFilter(dimension: string, operator: string, expression: string)

  datatype FilterGroup = FilterGroup(groupType: string, filters: seq<DimensionFilter>)

  /** The JSON body of a Search Analytics query; an absent key is `None`. */
  datatype SearchAnalyticsPayload = SearchAnalyticsPayload(
    startDate: string,
    endDate: string,
    dimensions: seq<string>,
    rowLimit: int,
    startRow: int,
    aggregationType: string,
    dimensionFilterGroups: Option<seq<FilterGroup>>)

  /** The payload `query_search_analytics` posts. */
  function QueryPayload(
    startDate: string, endDate: string, dimensions: Option<seq<string>>, rowLimit: int,
    startRow: int, filterGroups: Option<seq<FilterGroup>>, aggregationType: string)
    : (p: SearchAnalyticsPayload)
    ensures p.rowLimit <= MaxRowLimit
    ensures rowLimit <= MaxRowLimit ==> p.rowLimit == rowLimit
    ensures rowLimit >= MaxRowLimit ==> p.rowLimit == MaxRowLimit
    ensures dimensions.None? ==> p.dimensions == ["query"]
    ensures dimensions.Some? ==> p.dimensions == dimensions.value
    ensures p.dimensionFilterGroups.Some? <==> filterGroups.Some? && filterGroups.value != []
    ensures p.dimensionFilterGroups.Some? ==> p.dimensionFilterGroups == filterGroups
    ensures p.startDate == startDate && p.endDate == endDate
    ensures p.startRow == startRow && p.aggregationType == aggregationType
  {
    var dims := dimensions.GetOr(["query"]);
    var payload := SearchAnalyticsPayload(
      startDate, endDate, dims, if rowLimit < MaxRowLimit then rowLimit else MaxRowLimit,
      startRow, aggregationType, None);
    if filterGroups.Some? && filterGroups.value != [] then payload.(dimensionFilterGroups := filterGroups)
    else payload
  }
}
