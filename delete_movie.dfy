/**
 * DELETE /movies/{movieId} (delete_movie.py): query the movie's interests
 * through the index, build one transaction — a conditional delete of the
 * movie first, then one delete per interest found — and commit it all or
 * nothing, telling "movie did not exist" apart from other cancellations.
 */
module DeleteMovie {
  import opened Wrappers
  import opened PyStr
  import opened DynamoClient
  import opened Response
  import opened Store
  import opened Api

  const TransactionFailed: ApiResponse := ErrorResponse(500, "Transaction failed", Some("TransactionError"), None)

  /** `'ConditionalCheckFailed' in msg or 'ConditionalCheckFailedException' in msg` */
  predicate MentionsConditionFailure(message: string) {
    Contains(message, "ConditionalCheckFailed") || Contains(message, "ConditionalCheckFailedException")
  }

  /** The second test of `MentionsConditionFailure` is implied by the first. */
  lemma LongerMentionImpliesShorter(message: string)
    ensures MentionsConditionFailure(message) <==> Contains(message, "ConditionalCheckFailed")
  {
    if Contains(message, "ConditionalCheckFailedException") {
      ContainsPrefixOf(message, "ConditionalCheckFailed", "Exception");
    }
  }

  /** How a failed `transact_write_items` is reported. */
  function TransactionFailure(o: StoreOutcome): (r: ApiResponse)
    requires !o.Ok?
    ensures o.Cancelled? && |o.reasons| > 0 && o.reasons[0] == Some("ConditionalCheckFailed") ==> r == NotFound
    ensures o.Cancelled? && |o.reasons| > 0 && o.reasons[0] != Some("ConditionalCheckFailed") ==> r == TransactionFailed
    ensures o.Cancelled? && o.reasons == [] ==>
              r == if MentionsConditionFailure(o.message) then NotFound else TransactionFailed
    ensures o.ConditionalCheckFailed? ==> r == NotFound
    ensures o.Unexpected? ==> r == ServerError
    ensures o.Other? && o.code == ConditionalCheckFailedException ==> r == NotFound
    // any other ClientError goes through the shared error table
    ensures o.Other? && o.code != ConditionalCheckFailedException && o.code != TransactionCanceledException ==>
              r == DatabaseError(o)
    ensures r.statusCode in {400, 404, 409, 500, 503}
  {
    if o.Unexpected? then ServerError
    else if ErrorCode(o) == TransactionCanceledException then
      var reasons := CancellationReasons(o);
      if reasons == [] then
        if MentionsConditionFailure(ErrorMessage(o)) then NotFound else TransactionFailed
      else if reasons[0] == Some("ConditionalCheckFailed") then NotFound
      else TransactionFailed
    else if ErrorCode(o) == ConditionalCheckFailedException then NotFound
    else DatabaseError(o)
  }

  /** The shape of `transact_items`: the conditional movie delete first, then one delete per queried interest. */
  predicate IsCascadeFor(items: seq<TransactItem>, id: MovieId, interests: seq<Interest>) {
    && |items| == |interests| + 1
    && items[0] == Delete(MovieKey(id), true)
    && forall j :: 0 <= j < |interests| ==>
         items[j + 1] == Delete(InterestItemKey(interests[j].userId, interests[j].movieId), false)
  }

  /** The loop that builds `transact_items`. */
  method BuildTransactItems(id: MovieId, interests: seq<Interest>) returns (items: seq<TransactItem>)
    ensures IsCascadeFor(items, id, interests)
  {
    items := [Delete(MovieKey(id), true)];
    for j := 0 to |interests|
      invariant |items| == j + 1
      invariant items[0] == Delete(MovieKey(id), true)
      invariant forall i :: 0 <= i < j ==>
                  items[i + 1] == Delete(InterestItemKey(interests[i].userId, interests[i].movieId), false)
    {
      items := items + [Delete(InterestItemKey(interests[j].userId, interests[j].movieId), false)];
    }
  }

  /** Built from a complete index query, the transaction deletes exactly the movie and every interest
      whose movieId is `id`; its only condition is that the movie exists, and it is reported first. */
  lemma CascadeDeletesExactly(t: Tables, id: MovieId, interests: seq<Interest>, items: seq<TransactItem>)
    requires IsIndexQueryResult(interests, t.interests, id) && IsCascadeFor(items, id, interests)
    ensures MovieKeysOf(items) == {id}
    ensures InterestKeysOf(items) == InterestsOf(t.interests, id)
    ensures AllConditionsHold(t, items) <==> id in t.movies
    ensures TransactionReasons(t, items)[0] == Some(if id in t.movies then "None" else "ConditionalCheckFailed")
  {
    forall i | 1 <= i < |items| ensures items[i].key.InterestItemKey? && !items[i].mustExist {
      var j := i - 1;
      assert items[j + 1] == Delete(InterestItemKey(interests[j].userId, interests[j].movieId), false);
    }
    forall m | m in MovieKeysOf(items) ensures m == id {
      var i :| 0 <= i < |items| && items[i].key.MovieKey? && items[i].key.movieId == m;
    }
    assert items[0].key.MovieKey?;
    forall k | k in InterestKeysOf(items) ensures k in InterestsOf(t.interests, id) {
      var i :| 0 <= i < |items| && items[i].key.InterestItemKey? && (items[i].key.userId, items[i].key.movieId) == k;
      assert i > 0;
      assert KeyOf(interests[i - 1]) == k;
    }
    forall k | k in InterestsOf(t.interests, id) ensures k in InterestKeysOf(items) {
      var j :| 0 <= j < |interests| && KeyOf(interests[j]) == k;
      assert items[j + 1].key == InterestItemKey(k.0, k.1);
    }
    if id in t.movies {
      assert forall i :: 0 <= i < |items| ==> ConditionHolds(t, items[i]);
    } else {
      assert !ConditionHolds(t, items[0]);
    }
  }

  predicate ReadyToDelete(e: Event, env: Settings) {
    e.movieIdParam.Some? && CheckSettings(env).Success?
  }

  /** The handler as a function of the tables before the call, the event, the settings and the
      backend's answers to the index query and to the transaction. */
  function DeleteMovieSpec(t: Tables, e: Event, env: Settings, queryFault: StoreOutcome, txFault: StoreOutcome)
    : (out: (Tables, ApiResponse))
    requires WellKeyed(t)
    ensures WellKeyed(out.0)
    ensures e.movieIdParam.None? ==> out == (t, MissingMovieId)
    ensures e.movieIdParam.Some? && CheckSettings(env).Failure? ==> out == (t, ServerError)
    ensures ReadyToDelete(e, env) && !queryFault.Ok? ==> out == (t, StoreFailure(queryFault))
    // all or nothing: anything but 204 leaves both tables as they were
    ensures out.1.statusCode != 204 ==> out.0 == t
    ensures out.1.statusCode == 204 <==>
              ReadyToDelete(e, env) && queryFault.Ok? && txFault.Ok? && e.movieIdParam.value in t.movies
    // on commit the movie and all its interests are gone, and nothing else is
    ensures out.1.statusCode == 204 ==>
              var id := e.movieIdParam.value;
              && out.1 == NoContentResponse(None)
              && out.0.movies == t.movies - {id}
              && (forall k :: k in out.0.interests <==> k in t.interests && k.1 != id)
              && (forall k :: k in out.0.interests ==> out.0.interests[k] == t.interests[k])
    // a movie that does not exist is reported as 404
    ensures ReadyToDelete(e, env) && queryFault.Ok? && txFault.Ok? && e.movieIdParam.value !in t.movies ==>
              out == (t, NotFound)
    ensures ReadyToDelete(e, env) && queryFault.Ok? && !txFault.Ok? ==> out == (t, TransactionFailure(txFault))
  {
    if e.movieIdParam.None? then (t, MissingMovieId)
    else if CheckSettings(env).Failure? then (t, ServerError)
    else if !queryFault.Ok? then (t, StoreFailure(queryFault))
    else if !txFault.Ok? then (t, TransactionFailure(txFault))
    else
      var id := e.movieIdParam.value;
      if id !in t.movies then (t, NotFound)
      else (Tables(t.movies - {id}, t.interests - InterestsOf(t.interests, id)), NoContentResponse(None))
  }

  /** `lambda_handler` */
  method LambdaHandler(db: Store, e: Event, env: Settings, queryFault: StoreOutcome, txFault: StoreOutcome)
      returns (r: ApiResponse)
    requires db.Valid()
    modifies db
    ensures db.Valid()
    ensures (db.Snapshot(), r) == DeleteMovieSpec(old(db.Snapshot()), e, env, queryFault, txFault)
  {
    if e.movieIdParam.None? {
      return MissingMovieId;
    }
    var movieId := e.movieIdParam.value;
    if CheckSettings(env).Failure? {
      return ServerError;
    }
    var res, interests := db.QueryByMovie(movieId, queryFault);
    if !res.Ok? {
      return StoreFailure(res);
    }
    var items := BuildTransactItems(movieId, interests);
    CascadeDeletesExactly(db.Snapshot(), movieId, interests, items);
    res := db.TransactWriteItems(items, txFault);
    if res.Ok? {
      return NoContentResponse(None);
    }
    r := TransactionFailure(res);
  }

  /** Deleting a movie twice: the first call answers 204, the second 404 and changes nothing. */
  lemma SecondDeleteIsNotFound(t: Tables, id: MovieId, env: Settings, sub: Option<UserId>)
    requires WellKeyed(t) && id in t.movies && CheckSettings(env).Success?
    ensures var e := Event(Some(id), None, sub);
            var first := DeleteMovieSpec(t, e, env, Ok, Ok);
            var second := DeleteMovieSpec(first.0, e, env, Ok, Ok);
            first.1.statusCode == 204 && second == (first.0, NotFound)
  {
  }
}
