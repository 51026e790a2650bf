/**
 * What the request handlers receive and return: the parts of the API Gateway
 * event they read, the parsed request body, the payloads of their success
 * responses, and the error responses they share.
 */
module Api {
  import opened Wrappers
  import opened Validation
  import opened DynamoClient
  import opened Response
  import opened Store

  /** The request body after `json.loads`. `NotAnObject` stands for a raw `None` body and for JSON
      that is not an object; either makes the handler's `.get` raise, which the outer handler turns into a 500. */
  datatype RequestBody = InvalidJson | NotAnObject | JsonObject(fields: map<string, PyValue>)

  /** The event fields the handlers read: `pathParameters.movieId`, `body` (missing means `'{}'`)
      and `requestContext.authorizer.claims.sub`; `None` wherever the lookup raises KeyError or TypeError. */
  datatype Event = Event(movieIdParam: Option<MovieId>, body: Option<RequestBody>, sub: Option<UserId>)

  /** `json.loads(event.get('body', '{}'))` */
  function ParseBody(e: Event): RequestBody {
    e.body.GetOr(JsonObject(map[]))
  }

  /** `body.get(name)` */
  function Field(fields: map<string, PyValue>, name: string): PyValue {
    if name in fields then fields[name] else PyNone
  }

  /** One row of the movie listing: the stored movie with `createdBy` resolved to a name and `interestedUsers` added. */
  datatype EnrichedMovie = EnrichedMovie(movieId: MovieId, title: string, status: string, createdBy: string,
                                         createdAt: Option<int>, updatedAt: int, interestedUsers: seq<string>)

  /** One row of the interested-users listing: only the id when no user pool is configured. */
  datatype UserEntry =
    | IdOnly(userId: UserId)
    | Detailed(userId: UserId, username: Option<string>, email: Option<string>)

  datatype Payload =
    | MovieItem(movie: Movie)
    | InterestItem(interest: Interest)
    | MovieList(movies: seq<EnrichedMovie>)
    | UserList(users: seq<UserEntry>)

  type ApiResponse = Response<Payload>

  function ValidationError(message: string): ApiResponse {
    ErrorResponse(400, message, Some("ValidationError"), None)
  }

  const MissingMovieId: ApiResponse := ValidationError("Missing movieId in path")
  const InvalidJsonBody: ApiResponse := ValidationError("Invalid JSON in request body")
  const Unauthorized: ApiResponse := ErrorResponse(401, "Unauthorized - missing user context", Some("AuthError"), None)
  const NotFound: ApiResponse := ErrorResponse(404, "Movie not found", Some("NotFoundError"), None)
  const ServerError: ApiResponse := ErrorResponse(500, InternalServerError, Some("ServerError"), None)

  /** `handle_client_error(e)` wrapped as a DatabaseError response. */
  function DatabaseError(o: StoreOutcome): (r: ApiResponse)
    requires o.IsClientError()
    ensures r.statusCode in {400, 404, 409, 500, 503}
    ensures r.statusCode == 503 <==> IsThrottlingError(ErrorCode(o))
  {
    var (status, message) := HandleClientError(ErrorCode(o));
    ErrorResponse(status, message, Some("DatabaseError"), None)
  }

  /** A failed store call: `except ClientError` gives the DatabaseError response, any other
      exception reaches the handler's outer `except Exception`. */
  function StoreFailure(o: StoreOutcome): (r: ApiResponse)
    requires !o.Ok?
    ensures o.Unexpected? ==> r == ServerError
    ensures o.IsClientError() ==> r == DatabaseError(o)
    ensures r.statusCode in {400, 404, 409, 500, 503}
  {
    if o.Unexpected? then ServerError else DatabaseError(o)
  }
}
