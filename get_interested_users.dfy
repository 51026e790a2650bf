/**
 * GET /movies/{movieId}/interests (get_interested_users.py): list the users
 * interested in one movie, with their name and email from the user pool when
 * one is configured.
 */
module GetInterestedUsers {
  import opened Wrappers
  import opened DynamoClient
  import opened Response
  import opened Store
  import opened Api

  /** One entry of `UserAttributes`. */
  datatype Attribute = Attribute(name: string, value: string)

  /** The user pool's answer to `admin_get_user`: the user's `Username` and attributes, a ClientError
      (the user may have been deleted), or any other exception. */
  datatype AdminAnswer =
    | AdminUser(username: Option<string>, attributes: seq<Attribute>)
    | AdminFailed
    | AdminUnexpected

  type UserPool = UserId -> AdminAnswer

  /** The value of the first attribute named `email`, if any. */
  function FirstEmail(attributes: seq<Attribute>): (email: Option<string>)
    ensures email.None? <==> forall i :: 0 <= i < |attributes| ==> attributes[i].name != "email"
    ensures email.Some? ==>
              exists i :: 0 <= i < |attributes| && attributes[i].name == "email" && attributes[i].value == email.value &&
                forall j :: 0 <= j < i ==> attributes[j].name != "email"
    decreases |attributes|
  {
    if attributes == [] then None
    else if attributes[0].name == "email" then Some(attributes[0].value)
    else
      var rest := FirstEmail(attributes[1..]);
      assert forall i :: 1 <= i < |attributes| ==> attributes[i] == attributes[1..][i - 1];
      rest
  }

  /** The loop over `UserAttributes` that stops at the first `email`. */
  method FindEmail(attributes: seq<Attribute>) returns (email: Option<string>)
    ensures email == FirstEmail(attributes)
  {
    var i := 0;
    while i < |attributes|
      invariant 0 <= i <= |attributes|
      invariant FirstEmail(attributes) == FirstEmail(attributes[i..])
    {
      assert attributes[i..][1..] == attributes[i + 1..];
      if attributes[i].name == "email" {
        return Some(attributes[i].value);
      }
      i := i + 1;
    }
    return None;
  }

  /** `if user_pool_id:` — set and non-empty. */
  predicate PoolConfigured(userPoolId: Option<string>) {
    userPoolId.Some? && |userPoolId.value| > 0
  }

  /** The entry listed for one interested user. */
  function EntryFor(id: UserId, pooled: bool, pool: UserPool): (u: UserEntry)
    requires pooled ==> !pool(id).AdminUnexpected?
    ensures u.userId == id
    ensures !pooled <==> u.IdOnly?
    ensures pooled && pool(id).AdminFailed? ==> u == Detailed(id, None, None)
    ensures pooled && pool(id).AdminUser? ==>
              u == Detailed(id, pool(id).username, FirstEmail(pool(id).attributes))
  {
    if !pooled then IdOnly(id)
    else match pool(id)
      case AdminUser(name, attributes) => Detailed(id, name, FirstEmail(attributes))
      case AdminFailed => Detailed(id, None, None)
  }

  /** Some interested user's lookup raised something other than a ClientError. */
  ghost predicate SomeLookupUnexpected(interests: map<InterestKey, int>, id: MovieId, pool: UserPool) {
    exists k :: k in InterestsOf(interests, id) && pool(k.0).AdminUnexpected?
  }

  /** The rows of a 200 answer, one per queried interest in the index's order. */
  ghost predicate IsUserListing(users: seq<UserEntry>, qs: seq<Interest>, pooled: bool, pool: UserPool) {
    && |users| == |qs|
    && forall i :: 0 <= i < |qs| ==>
         (pooled ==> !pool(qs[i].userId).AdminUnexpected?) && users[i] == EntryFor(qs[i].userId, pooled, pool)
  }

  /** What the handler answers, given the event, the settings and every backend answer. */
  ghost predicate IsInterestedUsersResponse(r: ApiResponse, t: Tables, e: Event, env: Settings,
                                            userPoolId: Option<string>, queryFault: StoreOutcome, pool: UserPool) {
    if e.movieIdParam.None? then r == MissingMovieId
    else if CheckSettings(env).Failure? then r == ServerError
    else if !queryFault.Ok? then r == StoreFailure(queryFault)
    else if PoolConfigured(userPoolId) && SomeLookupUnexpected(t.interests, e.movieIdParam.value, pool) then r == ServerError
    else exists qs, users ::
           IsIndexQueryResult(qs, t.interests, e.movieIdParam.value) &&
           IsUserListing(users, qs, PoolConfigured(userPoolId), pool) &&
           r == SuccessResponse(200, UserList(users), None)
  }

  /** An index query reaches every interest, so if none of the users it found raised, no interest's user does. */
  lemma NoLookupUnexpected(interests: map<InterestKey, int>, id: MovieId, qs: seq<Interest>, pool: UserPool)
    requires IsIndexQueryResult(qs, interests, id)
    requires forall i :: 0 <= i < |qs| ==> !pool(qs[i].userId).AdminUnexpected?
    ensures !SomeLookupUnexpected(interests, id, pool)
  {
    forall k | k in InterestsOf(interests, id) ensures !pool(k.0).AdminUnexpected? {
      var i :| 0 <= i < |qs| && KeyOf(qs[i]) == k;
    }
  }

  /** `lambda_handler`; it only reads the store. */
  method LambdaHandler(db: Store, e: Event, env: Settings, userPoolId: Option<string>,
                       queryFault: StoreOutcome, pool: UserPool) returns (r: ApiResponse)
    ensures IsInterestedUsersResponse(r, db.Snapshot(), e, env, userPoolId, queryFault, pool)
  {
    if e.movieIdParam.None? {
      return MissingMovieId;
    }
    var movieId := e.movieIdParam.value;
    if CheckSettings(env).Failure? {
      return ServerError;
    }
    var res, interests := db.QueryByMovie(movieId, queryFault);
    if !res.Ok? {
      return StoreFailure(res);
    }
    var pooled := PoolConfigured(userPoolId);
    var users: seq<UserEntry> := [];
    if pooled {
      for k := 0 to |interests|
        invariant |users| == k
        invariant forall i :: 0 <= i < k ==>
                    !pool(interests[i].userId).AdminUnexpected? && users[i] == EntryFor(interests[i].userId, true, pool)
      {
        var userId := interests[k].userId;
        match pool(userId)
        case AdminUser(name, attributes) =>
          var email := FindEmail(attributes);
          users := users + [Detailed(userId, name, email)];
        case AdminFailed =>
          users := users + [Detailed(userId, None, None)];
        case AdminUnexpected =>
          assert KeyOf(interests[k]) in InterestsOf(db.interests, movieId);
          return ServerError;
      }
      NoLookupUnexpected(db.interests, movieId, interests, pool);
    } else {
      users := seq(|interests|, i requires 0 <= i < |interests| => IdOnly(interests[i].userId));
    }
    assert IsUserListing(users, interests, pooled, pool);
    r := SuccessResponse(200, UserList(users), None);
  }

  /** Each interested user is listed exactly once, and nobody else is. */
  lemma EachInterestedUserOnce(t: Tables, id: MovieId, qs: seq<Interest>, users: seq<UserEntry>,
                               pooled: bool, pool: UserPool)
    requires IsIndexQueryResult(qs, t.interests, id) && IsUserListing(users, qs, pooled, pool)
    ensures forall i :: 0 <= i < |users| ==> (users[i].userId, id) in t.interests
    ensures forall u :: (u, id) in t.interests ==> exists i :: 0 <= i < |users| && users[i].userId == u
    ensures forall i, j :: 0 <= i < j < |users| ==> users[i].userId != users[j].userId
    // a movie nobody is interested in, or one that does not exist, lists nobody
    ensures InterestsOf(t.interests, id) == {} ==> users == []
  {
    forall i | 0 <= i < |users| ensures (users[i].userId, id) in t.interests {
      assert KeyOf(qs[i]) in t.interests;
    }
    forall u | (u, id) in t.interests ensures exists i :: 0 <= i < |users| && users[i].userId == u {
      assert (u, id) in InterestsOf(t.interests, id);
      var i :| 0 <= i < |qs| && KeyOf(qs[i]) == (u, id);
      assert users[i].userId == u;
    }
    forall i, j | 0 <= i < j < |users| ensures users[i].userId != users[j].userId {
      assert KeyOf(qs[i]) != KeyOf(qs[j]);
      assert qs[i].movieId == id && qs[j].movieId == id;
    }
  }
}
