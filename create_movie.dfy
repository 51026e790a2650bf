/**
 * POST /movies (create_movie.py): validate the title, then store the movie and
 * the creator's interest with two separate, non-atomic puts.
 */
module CreateMovie {
  import opened Wrappers
  import opened PyStr
  import opened Validation
  import opened DynamoClient
  import opened Response
  import opened Store
  import opened Api

  /** The record written for a new movie. */
  function NewMovie(id: MovieId, title: string, creator: UserId, now: int): (m: Movie)
    ensures m.movieId == id && m.title == Strip(title) && m.status == Wishlist
    ensures m.createdBy == Some(creator) && m.createdAt == Some(now) && m.updatedAt == now
  {
    Movie(id, Strip(title), Wishlist, Some(creator), Some(now), now)
  }

  /** The request title, when the body parsed to an object. */
  function TitleOf(e: Event): PyValue
    requires ParseBody(e).JsonObject?
  {
    Field(ParseBody(e).fields, "title")
  }

  /** Everything the handler needs before it writes: an object body, an acceptable title, a caller. */
  predicate ReadyToWrite(e: Event, env: Settings) {
    && ParseBody(e).JsonObject?
    && AcceptableTitle(TitleOf(e))
    && e.sub.Some?
    && CheckSettings(env).Success?
  }

  /** The response for a request rejected before any write, in the source's order of checks:
      body, then title, then caller, then the client settings. */
  function Rejection(e: Event, env: Settings): (r: Option<ApiResponse>)
    ensures r.None? <==> ReadyToWrite(e, env)
    ensures ParseBody(e).InvalidJson? ==> r == Some(InvalidJsonBody)
    ensures ParseBody(e).NotAnObject? ==> r == Some(ServerError)
    // the title is judged before the caller's identity
    ensures ParseBody(e).JsonObject? && !AcceptableTitle(TitleOf(e)) ==>
              r == Some(ValidationError(ValidateMovieTitle(TitleOf(e)).errorMessage.value))
    ensures ParseBody(e).JsonObject? && AcceptableTitle(TitleOf(e)) && e.sub.None? ==> r == Some(Unauthorized)
    ensures ParseBody(e).JsonObject? && AcceptableTitle(TitleOf(e)) && e.sub.Some? && CheckSettings(env).Failure? ==>
              r == Some(ServerError)
    ensures r.Some? ==> r.value.statusCode in {400, 401, 500}
  {
    match ParseBody(e)
    case InvalidJson => Some(InvalidJsonBody)
    case NotAnObject => Some(ServerError)
    case JsonObject(fields) =>
      var check := ValidateMovieTitle(Field(fields, "title"));
      if !check.isValid then Some(ValidationError(check.errorMessage.value))
      else if e.sub.None? then Some(Unauthorized)
      else if CheckSettings(env).Failure? then Some(ServerError)
      else None
  }

  /**
   * The handler as a function of the tables before the call, the event, the
   * settings, the fresh id from `uuid4`, the clock, and the backend's answers
   * to the two puts.
   */
  function CreateMovieSpec(t: Tables, e: Event, env: Settings, newId: MovieId, now: int,
                           movieFault: StoreOutcome, interestFault: StoreOutcome): (out: (Tables, ApiResponse))
    requires WellKeyed(t) && newId !in t.movies
    ensures WellKeyed(out.0)
    // a rejected request never touches the store
    ensures !ReadyToWrite(e, env) ==> out == (t, Rejection(e, env).value)
    // success: the movie and the creator's interest are both stored, and the movie is returned
    ensures ReadyToWrite(e, env) && movieFault.Ok? && interestFault.Ok? ==>
              var m := NewMovie(newId, TitleOf(e).s, e.sub.value, now);
              && out.0.movies == t.movies[newId := m]
              && out.0.interests == t.interests[(e.sub.value, newId) := now]
              && out.1 == SuccessResponse(201, MovieItem(m), None)
  {
    var rejected := Rejection(e, env);
    if rejected.Some? then (t, rejected.value)
    else
      var m := NewMovie(newId, TitleOf(e).s, e.sub.value, now);
      if !movieFault.Ok? then (t, StoreFailure(movieFault))
      else
        var t' := PutMovie(t, m);
        if !interestFault.Ok? then (t', StoreFailure(interestFault))
        else (PutInterest(t', Interest(e.sub.value, newId, now)), SuccessResponse(201, MovieItem(m), None))
  }

  /** A 201 is returned exactly when the request was acceptable and both puts succeeded. */
  lemma CreatedExactlyWhenBothPutsSucceed(t: Tables, e: Event, env: Settings, newId: MovieId, now: int,
                                          movieFault: StoreOutcome, interestFault: StoreOutcome)
    requires WellKeyed(t) && newId !in t.movies
    ensures CreateMovieSpec(t, e, env, newId, now, movieFault, interestFault).1.statusCode == 201
            <==> ReadyToWrite(e, env) && movieFault.Ok? && interestFault.Ok?
  {
    if !ReadyToWrite(e, env) {
      assert Rejection(e, env).value.statusCode != 201;
    } else if !movieFault.Ok? {
      assert StoreFailure(movieFault).statusCode != 201;
    } else if !interestFault.Ok? {
      assert StoreFailure(interestFault).statusCode != 201;
    }
  }

  /** No existing movie changes, whatever happens. */
  lemma ExistingMoviesNeverChange(t: Tables, e: Event, env: Settings, newId: MovieId, now: int,
                                  movieFault: StoreOutcome, interestFault: StoreOutcome)
    requires WellKeyed(t) && newId !in t.movies
    ensures var out := CreateMovieSpec(t, e, env, newId, now, movieFault, interestFault);
            && t.movies.Keys <= out.0.movies.Keys
            && forall id :: id in t.movies ==> out.0.movies[id] == t.movies[id]
  {
  }

  /** A failed movie put is reported and leaves both tables as they were. */
  lemma FailedMoviePutChangesNothing(t: Tables, e: Event, env: Settings, newId: MovieId, now: int,
                                     movieFault: StoreOutcome, interestFault: StoreOutcome)
    requires WellKeyed(t) && newId !in t.movies
    requires ReadyToWrite(e, env) && !movieFault.Ok?
    ensures CreateMovieSpec(t, e, env, newId, now, movieFault, interestFault) == (t, StoreFailure(movieFault))
  {
  }

  /** The two writes are not atomic: when the interest put fails the new movie stays stored,
      without the creator's interest, and the caller gets an error. */
  lemma MovieSurvivesFailedInterestPut(t: Tables, e: Event, env: Settings, newId: MovieId, now: int,
                                       interestFault: StoreOutcome)
    requires WellKeyed(t) && newId !in t.movies
    requires ReadyToWrite(e, env) && !interestFault.Ok?
    ensures var out := CreateMovieSpec(t, e, env, newId, now, Ok, interestFault);
            && out.0.movies == t.movies[newId := NewMovie(newId, TitleOf(e).s, e.sub.value, now)]
            && out.0.interests == t.interests
            && out.1 == StoreFailure(interestFault)
            && out.1.statusCode != 201
  {
  }

  /** `lambda_handler`; `newId` is uuid4's fresh id and `now` is `int(time.time())`. */
  method LambdaHandler(db: Store, e: Event, env: Settings, newId: MovieId, now: int,
                       movieFault: StoreOutcome, interestFault: StoreOutcome) returns (r: ApiResponse)
    requires db.Valid() && newId !in db.movies
    modifies db
    ensures db.Valid()
    ensures (db.Snapshot(), r) == CreateMovieSpec(old(db.Snapshot()), e, env, newId, now, movieFault, interestFault)
  {
    var body := ParseBody(e);
    if body.InvalidJson? {
      return InvalidJsonBody;
    }
    if body.NotAnObject? {
      return ServerError;
    }
    var title := Field(body.fields, "title");
    var check := ValidateMovieTitle(title);
    if !check.isValid {
      return ValidationError(check.errorMessage.value);
    }
    if e.sub.None? {
      return Unauthorized;
    }
    var userId := e.sub.value;
    var movie := NewMovie(newId, title.s, userId, now);
    if CheckSettings(env).Failure? {
      return ServerError;
    }
    var res := db.PutMovieItem(movie, movieFault);
    if !res.Ok? {
      return StoreFailure(res);
    }
    res := db.PutInterestItem(Interest(userId, newId, now), interestFault);
    if !res.Ok? {
      return StoreFailure(res);
    }
    r := SuccessResponse(201, MovieItem(movie), None);
  }
}
