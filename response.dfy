/**
 * API Gateway response envelopes (shared/response.py). Bodies are kept as
 * structured values rather than JSON text.
 */
module Response {
  import opened Wrappers

  type Headers = map<string, string>

  /** What `body` holds: a payload, the `{error, errorType}` object, or the empty string. */
  datatype Body<+P> = Json(payload: P) | ErrorJson(fields: map<string, string>) | Empty

  datatype Response<+P> = Response(statusCode: int, headers: Headers, body: Body<P>)

  const ContentType := "Content-Type"
  const AllowOrigin := "Access-Control-Allow-Origin"
  const AllowCredentials := "Access-Control-Allow-Credentials"

  /** Default headers of the JSON-bodied responses. */
  const JsonHeaders: Headers := map[ContentType := "application/json", AllowOrigin := "*", AllowCredentials := "true"]

  /** Default headers of the 204 response: no Content-Type. */
  const CorsHeaders: Headers := map[AllowOrigin := "*", AllowCredentials := "true"]

  /** `default_headers.update(headers)` performed only when `headers` is truthy (present and non-empty). */
  function MergeHeaders(defaults: Headers, custom: Option<Headers>): (r: Headers)
    ensures custom.Some? ==> forall k :: k in custom.value ==> k in r && r[k] == custom.value[k]
    ensures forall k :: k in defaults && (custom.None? || k !in custom.value) ==> k in r && r[k] == defaults[k]
    ensures forall k :: k in r ==> k in defaults || (custom.Some? && k in custom.value)
  {
    if custom.Some? && |custom.value| > 0 then defaults + custom.value else defaults
  }

  /** True when the custom headers leave `key` to its default. */
  predicate KeepsDefault(custom: Option<Headers>, key: string) {
    custom.None? || key !in custom.value
  }

  function SuccessResponse<P>(statusCode: int, body: P, headers: Option<Headers>): (r: Response<P>)
    ensures r.statusCode == statusCode && r.body == Json(body)
    ensures r.headers == MergeHeaders(JsonHeaders, headers)
  {
    Response(statusCode, MergeHeaders(JsonHeaders, headers), Json(body))
  }

  /** `if error_type:` */
  predicate ErrorTypeGiven(errorType: Option<string>) {
    errorType.Some? && errorType.value != ""
  }

  /** The error body: always `error`, `errorType` exactly when one was given, nothing else. */
  function ErrorBody(message: string, errorType: Option<string>): (fields: map<string, string>)
    ensures "error" in fields && fields["error"] == message
    ensures "errorType" in fields <==> ErrorTypeGiven(errorType)
    ensures "errorType" in fields ==> fields["errorType"] == errorType.value
    ensures fields.Keys <= {"error", "errorType"}
  {
    var base := map["error" := message];
    if ErrorTypeGiven(errorType) then base["errorType" := errorType.value] else base
  }

  function ErrorResponse<P>(statusCode: int, message: string, errorType: Option<string>, headers: Option<Headers>): (r: Response<P>)
    ensures r.statusCode == statusCode
    ensures r.headers == MergeHeaders(JsonHeaders, headers)
    ensures r.body == ErrorJson(ErrorBody(message, errorType))
  {
    Response(statusCode, MergeHeaders(JsonHeaders, headers), ErrorJson(ErrorBody(message, errorType)))
  }

  function NoContentResponse<P>(headers: Option<Headers>): (r: Response<P>)
    ensures r.statusCode == 204 && r.body == Empty
    ensures KeepsDefault(headers, ContentType) ==> ContentType !in r.headers
    ensures r.headers == MergeHeaders(CorsHeaders, headers)
  {
    Response(204, MergeHeaders(CorsHeaders, headers), Empty)
  }

  /** All three builders send `Access-Control-Allow-Origin: *` unless the caller overrides it. */
  lemma CorsAlwaysPresent<P>(statusCode: int, body: P, message: string, errorType: Option<string>, headers: Option<Headers>)
    requires KeepsDefault(headers, AllowOrigin)
    ensures SuccessResponse(statusCode, body, headers).headers[AllowOrigin] == "*"
    ensures ErrorResponse<P>(statusCode, message, errorType, headers).headers[AllowOrigin] == "*"
    ensures NoContentResponse<P>(headers).headers[AllowOrigin] == "*"
  {
    assert AllowOrigin in JsonHeaders && AllowOrigin in CorsHeaders;
  }

  /** Without custom headers every builder sends exactly its defaults. */
  lemma DefaultHeadersOnly<P>(statusCode: int, body: P, message: string, errorType: Option<string>)
    ensures SuccessResponse(statusCode, body, None).headers == JsonHeaders
    ensures ErrorResponse<P>(statusCode, message, errorType, Some(map[])).headers == JsonHeaders
    ensures NoContentResponse<P>(None).headers == CorsHeaders
  {
  }
}
