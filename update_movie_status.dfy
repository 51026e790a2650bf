/**
 * PUT /movies/{movieId}/status (update_movie_status.py): validate the new
 * status, then set it (and `updatedAt`) with a conditional `update_item`
 * that fails when the movie does not exist.
 */
module UpdateMovieStatus {
  import opened Wrappers
  import opened Validation
  import opened DynamoClient
  import opened Response
  import opened Store
  import opened Api

  function StatusOf(e: Event): PyValue
    requires ParseBody(e).JsonObject?
  {
    Field(ParseBody(e).fields, "status")
  }

  /** The request reaches the store: a movie id, an object body with a valid status, client settings. */
  predicate ReadyToUpdate(e: Event, env: Settings) {
    && e.movieIdParam.Some?
    && ParseBody(e).JsonObject?
    && ValidateMovieStatus(StatusOf(e)).isValid
    && CheckSettings(env).Success?
  }

  /** The response for a request rejected before the update: id, then body, then status, then settings. */
  function Rejection(e: Event, env: Settings): (r: Option<ApiResponse>)
    ensures r.None? <==> ReadyToUpdate(e, env)
    ensures e.movieIdParam.None? ==> r == Some(MissingMovieId)
    ensures e.movieIdParam.Some? && ParseBody(e).InvalidJson? ==> r == Some(InvalidJsonBody)
    ensures e.movieIdParam.Some? && ParseBody(e).NotAnObject? ==> r == Some(ServerError)
    ensures e.movieIdParam.Some? && ParseBody(e).JsonObject? && !ValidateMovieStatus(StatusOf(e)).isValid ==>
              r == Some(ValidationError(ValidateMovieStatus(StatusOf(e)).errorMessage.value))
    ensures (e.movieIdParam.Some? && ParseBody(e).JsonObject? && ValidateMovieStatus(StatusOf(e)).isValid &&
             CheckSettings(env).Failure?) ==> r == Some(ServerError)
    ensures r.Some? ==> r.value.statusCode in {400, 500}
  {
    if e.movieIdParam.None? then Some(MissingMovieId)
    else match ParseBody(e)
      case InvalidJson => Some(InvalidJsonBody)
      case NotAnObject => Some(ServerError)
      case JsonObject(fields) =>
        var check := ValidateMovieStatus(Field(fields, "status"));
        if !check.isValid then Some(ValidationError(check.errorMessage.value))
        else if CheckSettings(env).Failure? then Some(ServerError)
        else None
  }

  /** How a failed `update_item` is reported: a failed condition means the movie does not exist. */
  function UpdateFailure(o: StoreOutcome): (r: ApiResponse)
    requires !o.Ok?
    ensures o.ConditionalCheckFailed? ==> r == NotFound
    ensures o.Unexpected? ==> r == ServerError
    ensures o.IsClientError() && ErrorCode(o) == ConditionalCheckFailedException ==> r == NotFound
    // every other ClientError goes through the shared error table (throttling gives 503)
    ensures o.IsClientError() && ErrorCode(o) != ConditionalCheckFailedException ==> r == DatabaseError(o)
    ensures r.statusCode in {400, 404, 500, 503}
  {
    if o.Unexpected? then ServerError
    else if ErrorCode(o) == ConditionalCheckFailedException then NotFound
    else DatabaseError(o)
  }

  /** The handler as a function of the tables before the call, the event, the settings, the clock
      and the backend's answer to `update_item`. */
  function UpdateStatusSpec(t: Tables, e: Event, env: Settings, now: int, fault: StoreOutcome)
    : (out: (Tables, ApiResponse))
    requires WellKeyed(t)
    ensures WellKeyed(out.0)
    ensures out.0.interests == t.interests
    ensures !ReadyToUpdate(e, env) ==> out == (t, Rejection(e, env).value)
    ensures out.1.statusCode != 200 ==> out.0 == t
    // a failed `update_item` changes nothing and is reported by UpdateFailure
    ensures ReadyToUpdate(e, env) && !fault.Ok? ==> out == (t, UpdateFailure(fault))
    // a movie that does not exist is reported as 404
    ensures ReadyToUpdate(e, env) && fault.Ok? && e.movieIdParam.value !in t.movies ==> out == (t, NotFound)
    // success rewrites exactly the status and updatedAt of that one movie and returns the new record
    ensures ReadyToUpdate(e, env) && fault.Ok? && e.movieIdParam.value in t.movies ==>
              var id := e.movieIdParam.value;
              var m := t.movies[id].(status := StatusOf(e).s, updatedAt := now);
              && out.0.movies == t.movies[id := m]
              && out.1 == SuccessResponse(200, MovieItem(m), None)
  {
    var rejected := Rejection(e, env);
    if rejected.Some? then (t, rejected.value)
    else
      var call := UpdateStatusCall(t, e.movieIdParam.value, StatusOf(e).s, now, fault);
      if call.1.Ok? then (call.0, SuccessResponse(200, MovieItem(call.2.value), None))
      else (t, UpdateFailure(call.1))
  }

  /** `lambda_handler`; `now` is `int(time.time())`. */
  method LambdaHandler(db: Store, e: Event, env: Settings, now: int, fault: StoreOutcome) returns (r: ApiResponse)
    requires db.Valid()
    modifies db
    ensures db.Valid()
    ensures (db.Snapshot(), r) == UpdateStatusSpec(old(db.Snapshot()), e, env, now, fault)
  {
    if e.movieIdParam.None? {
      return MissingMovieId;
    }
    var movieId := e.movieIdParam.value;
    var body := ParseBody(e);
    if body.InvalidJson? {
      return InvalidJsonBody;
    }
    if body.NotAnObject? {
      return ServerError;
    }
    var newStatus := Field(body.fields, "status");
    var check := ValidateMovieStatus(newStatus);
    if !check.isValid {
      return ValidationError(check.errorMessage.value);
    }
    if CheckSettings(env).Failure? {
      return ServerError;
    }
    var res, updated := db.UpdateStatus(movieId, newStatus.s, now, fault);
    if res.Ok? {
      return SuccessResponse(200, MovieItem(updated.value), None);
    }
    r := UpdateFailure(res);
  }

  // ---------------------------------------------------------------------------
  // Status transitions

  /** A request setting movie `id` to `status`. */
  function StatusRequest(id: MovieId, status: string, sub: Option<UserId>): Event {
    Event(Some(id), Some(JsonObject(map["status" := PyStr(status)])), sub)
  }

  function Opposite(status: string): string {
    if status == Wishlist then Downloaded else Wishlist
  }

  /** Moving a movie to the other status and back succeeds twice and restores its status; only
      `updatedAt` moves, to the time of the second call, so it never decreases when the clock does not. */
  lemma ToggleRoundTrip(t: Tables, id: MovieId, env: Settings, now1: int, now2: int, sub: Option<UserId>)
    requires WellKeyed(t) && id in t.movies && t.movies[id].status in {Wishlist, Downloaded}
    requires CheckSettings(env).Success?
    ensures var first := UpdateStatusSpec(t, StatusRequest(id, Opposite(t.movies[id].status), sub), env, now1, Ok);
            var second := UpdateStatusSpec(first.0, StatusRequest(id, t.movies[id].status, sub), env, now2, Ok);
            && first.1.statusCode == 200 && second.1.statusCode == 200
            && first.0.movies[id].status != t.movies[id].status
            && second.0.movies == t.movies[id := t.movies[id].(updatedAt := now2)]
            && second.0.interests == t.interests
            && (t.movies[id].updatedAt <= now1 <= now2 ==>
                  t.movies[id].updatedAt <= first.0.movies[id].updatedAt <= second.0.movies[id].updatedAt)
  {
    var s0 := t.movies[id].status;
    var e1 := StatusRequest(id, Opposite(s0), sub);
    assert StatusOf(e1) == PyStr(Opposite(s0));
    var first := UpdateStatusSpec(t, e1, env, now1, Ok);
    assert first.0.movies[id] == t.movies[id].(status := Opposite(s0), updatedAt := now1);
    var e2 := StatusRequest(id, s0, sub);
    assert StatusOf(e2) == PyStr(s0);
    var second := UpdateStatusSpec(first.0, e2, env, now2, Ok);
    assert first.0.movies[id := first.0.movies[id].(status := s0, updatedAt := now2)]
        == t.movies[id := t.movies[id].(updatedAt := now2)];
  }

  /** Setting the status a movie already has still succeeds and still rewrites `updatedAt`. */
  lemma SameStatusRewritesUpdatedAt(t: Tables, id: MovieId, env: Settings, now: int, sub: Option<UserId>)
    requires WellKeyed(t) && id in t.movies && t.movies[id].status in {Wishlist, Downloaded}
    requires CheckSettings(env).Success?
    ensures var out := UpdateStatusSpec(t, StatusRequest(id, t.movies[id].status, sub), env, now, Ok);
            && out.1.statusCode == 200
            && out.0.movies == t.movies[id := t.movies[id].(updatedAt := now)]
  {
    assert StatusOf(StatusRequest(id, t.movies[id].status, sub)) == PyStr(t.movies[id].status);
  }
}
