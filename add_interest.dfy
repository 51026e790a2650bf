/**
 * POST /movies/{movieId}/interest (add_interest.py): check that the movie
 * exists, then put the interest unconditionally, so repeating the call is
 * harmless.
 */
module AddInterest {
  import opened Wrappers
  import opened DynamoClient
  import opened Response
  import opened Store
  import opened Api

  /** The request reaches the store: a movie id, a caller, client settings. */
  predicate ReadyToAdd(e: Event, env: Settings) {
    e.movieIdParam.Some? && e.sub.Some? && CheckSettings(env).Success?
  }

  /** The handler as a function of the tables before the call, the event, the settings, the clock
      and the backend's answers to `get_item` and `put_item`. */
  function AddInterestSpec(t: Tables, e: Event, env: Settings, now: int,
                           getFault: StoreOutcome, putFault: StoreOutcome): (out: (Tables, ApiResponse))
    requires WellKeyed(t)
    ensures WellKeyed(out.0)
    ensures out.0.movies == t.movies
    // the movie id is checked before the caller
    ensures e.movieIdParam.None? ==> out == (t, MissingMovieId)
    ensures e.movieIdParam.Some? && e.sub.None? ==> out == (t, Unauthorized)
    ensures out.1.statusCode != 201 ==> out.0 == t
    ensures e.movieIdParam.Some? && e.sub.Some? && CheckSettings(env).Failure? ==> out == (t, ServerError)
    // a failed `get_item` or `put_item` changes nothing and is reported by StoreFailure
    ensures ReadyToAdd(e, env) && !getFault.Ok? ==> out == (t, StoreFailure(getFault))
    ensures ReadyToAdd(e, env) && getFault.Ok? && e.movieIdParam.value in t.movies && !putFault.Ok? ==>
              out == (t, StoreFailure(putFault))
    // no interest is created for a movie that does not exist
    ensures ReadyToAdd(e, env) && getFault.Ok? && e.movieIdParam.value !in t.movies ==> out == (t, NotFound)
    // success stores exactly the pair (caller, movie) with the current time, and returns that record
    ensures out.1.statusCode == 201 <==>
              ReadyToAdd(e, env) && getFault.Ok? && e.movieIdParam.value in t.movies && putFault.Ok?
    ensures out.1.statusCode == 201 ==>
              var i := Interest(e.sub.value, e.movieIdParam.value, now);
              && out.0.interests == t.interests[KeyOf(i) := now]
              && out.1 == SuccessResponse(201, InterestItem(i), None)
  {
    if e.movieIdParam.None? then (t, MissingMovieId)
    else if e.sub.None? then (t, Unauthorized)
    else if CheckSettings(env).Failure? then (t, ServerError)
    else if !getFault.Ok? then (t, StoreFailure(getFault))
    else if e.movieIdParam.value !in t.movies then (t, NotFound)
    else if !putFault.Ok? then (t, StoreFailure(putFault))
    else
      var i := Interest(e.sub.value, e.movieIdParam.value, now);
      (PutInterest(t, i), SuccessResponse(201, InterestItem(i), None))
  }

  /** `lambda_handler`; `now` is `int(time.time())`. */
  method LambdaHandler(db: Store, e: Event, env: Settings, now: int,
                       getFault: StoreOutcome, putFault: StoreOutcome) returns (r: ApiResponse)
    requires db.Valid()
    modifies db
    ensures db.Valid()
    ensures (db.Snapshot(), r) == AddInterestSpec(old(db.Snapshot()), e, env, now, getFault, putFault)
  {
    if e.movieIdParam.None? {
      return MissingMovieId;
    }
    var movieId := e.movieIdParam.value;
    if e.sub.None? {
      return Unauthorized;
    }
    var userId := e.sub.value;
    if CheckSettings(env).Failure? {
      return ServerError;
    }
    var res, item := db.GetMovie(movieId, getFault);
    if !res.Ok? {
      return StoreFailure(res);
    }
    if item.None? {
      return NotFound;
    }
    var interest := Interest(userId, movieId, now);
    res := db.PutInterestItem(interest, putFault);
    if !res.Ok? {
      return StoreFailure(res);
    }
    r := SuccessResponse(201, InterestItem(interest), None);
  }

  /** The same request made once per entry of `times`, the backend answering every call. */
  function AddRepeatedly(t: Tables, e: Event, env: Settings, times: seq<int>): (out: (Tables, seq<ApiResponse>))
    requires WellKeyed(t)
    ensures WellKeyed(out.0) && |out.1| == |times|
    decreases |times|
  {
    if times == [] then (t, [])
    else
      var (t1, r1) := AddInterestSpec(t, e, env, times[0], Ok, Ok);
      var (tn, rs) := AddRepeatedly(t1, e, env, times[1..]);
      (tn, [r1] + rs)
  }

  /** Idempotence: however often the interest is added, every call answers 201 and the table holds the
      pair exactly once — with the last call's time — and nothing else changes. */
  lemma {:induction false} AddInterestIdempotent(t: Tables, e: Event, env: Settings, times: seq<int>)
    requires WellKeyed(t) && ReadyToAdd(e, env) && e.movieIdParam.value in t.movies && |times| >= 1
    ensures var out := AddRepeatedly(t, e, env, times);
            var k := (e.sub.value, e.movieIdParam.value);
            && (forall i :: 0 <= i < |times| ==> out.1[i].statusCode == 201)
            && out.0.movies == t.movies
            && out.0.interests == t.interests[k := times[|times| - 1]]
    decreases |times|
  {
    var k := (e.sub.value, e.movieIdParam.value);
    var (t1, r1) := AddInterestSpec(t, e, env, times[0], Ok, Ok);
    assert t1.interests == t.interests[k := times[0]];
    if |times| > 1 {
      AddInterestIdempotent(t1, e, env, times[1..]);
      assert t.interests[k := times[0]][k := times[|times| - 1]] == t.interests[k := times[|times| - 1]];
    }
  }
}
