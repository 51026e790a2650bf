/**
 * DELETE /movies/{movieId}/interest (remove_interest.py): an unconditional
 * delete that succeeds whether or not the interest existed, without looking
 * at the movie.
 */
module RemoveInterest {
  import opened Wrappers
  import opened DynamoClient
  import opened Response
  import opened Store
  import opened Api

  /** The request reaches the store: a movie id, a caller, client settings. */
  predicate ReadyToRemove(e: Event, env: Settings) {
    e.movieIdParam.Some? && e.sub.Some? && CheckSettings(env).Success?
  }

  /** The handler as a function of the tables before the call, the event, the settings and the
      backend's answer to `delete_item`. */
  function RemoveInterestSpec(t: Tables, e: Event, env: Settings, fault: StoreOutcome): (out: (Tables, ApiResponse))
    requires WellKeyed(t)
    ensures WellKeyed(out.0)
    ensures out.0.movies == t.movies
    ensures e.movieIdParam.None? ==> out == (t, MissingMovieId)
    ensures e.movieIdParam.Some? && e.sub.None? ==> out == (t, Unauthorized)
    // 204 whenever the delete goes through, whether the interest existed and whether the movie exists
    ensures out.1.statusCode == 204 <==> ReadyToRemove(e, env) && fault.Ok?
    ensures out.1.statusCode == 204 ==>
              && out.1 == NoContentResponse(None)
              && out.0.interests.Keys == t.interests.Keys - {(e.sub.value, e.movieIdParam.value)}
              && (forall k :: k in out.0.interests ==> out.0.interests[k] == t.interests[k])
    ensures out.1.statusCode != 204 ==> out.0 == t
    ensures e.movieIdParam.Some? && e.sub.Some? && CheckSettings(env).Failure? ==> out == (t, ServerError)
    // a failed `delete_item` changes nothing and is reported by StoreFailure
    ensures ReadyToRemove(e, env) && !fault.Ok? ==> out == (t, StoreFailure(fault))
  {
    if e.movieIdParam.None? then (t, MissingMovieId)
    else if e.sub.None? then (t, Unauthorized)
    else if CheckSettings(env).Failure? then (t, ServerError)
    else if !fault.Ok? then (t, StoreFailure(fault))
    else (DeleteInterest(t, (e.sub.value, e.movieIdParam.value)), NoContentResponse(None))
  }

  /** `lambda_handler` */
  method LambdaHandler(db: Store, e: Event, env: Settings, fault: StoreOutcome) returns (r: ApiResponse)
    requires db.Valid()
    modifies db
    ensures db.Valid()
    ensures (db.Snapshot(), r) == RemoveInterestSpec(old(db.Snapshot()), e, env, fault)
  {
    if e.movieIdParam.None? {
      return MissingMovieId;
    }
    var movieId := e.movieIdParam.value;
    if e.sub.None? {
      return Unauthorized;
    }
    var userId := e.sub.value;
    if CheckSettings(env).Failure? {
      return ServerError;
    }
    var res := db.DeleteInterestItem((userId, movieId), fault);
    if !res.Ok? {
      return StoreFailure(res);
    }
    r := NoContentResponse(None);
  }

  /** The same request made `n` times, the backend answering every call. */
  function RemoveRepeatedly(t: Tables, e: Event, env: Settings, n: nat): (out: (Tables, seq<ApiResponse>))
    requires WellKeyed(t)
    ensures WellKeyed(out.0) && |out.1| == n
    decreases n
  {
    if n == 0 then (t, [])
    else
      var (t1, r1) := RemoveInterestSpec(t, e, env, Ok);
      var (tn, rs) := RemoveRepeatedly(t1, e, env, n - 1);
      (tn, [r1] + rs)
  }

  /** Idempotence: removing `n >= 1` times answers 204 every time and ends where removing once ends. */
  lemma {:induction false} RemoveInterestIdempotent(t: Tables, e: Event, env: Settings, n: nat)
    requires WellKeyed(t) && ReadyToRemove(e, env) && n >= 1
    ensures var out := RemoveRepeatedly(t, e, env, n);
            && (forall i :: 0 <= i < n ==> out.1[i].statusCode == 204)
            && out.0 == RemoveInterestSpec(t, e, env, Ok).0
    decreases n
  {
    var (t1, r1) := RemoveInterestSpec(t, e, env, Ok);
    if n > 1 {
      RemoveInterestIdempotent(t1, e, env, n - 1);
      var t2 := RemoveInterestSpec(t1, e, env, Ok).0;
      assert t2.interests == t1.interests;
    }
  }
}
