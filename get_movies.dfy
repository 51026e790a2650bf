/**
 * GET /movies (get_movies.py): scan every movie, resolve its creator and its
 * interested users to usernames through the user directory, and answer the
 * list newest first.
 */
module GetMovies {
  import opened Wrappers
  import opened DynamoClient
  import opened Response
  import opened Store
  import opened Api

  /** The user directory's answer to `list_users` filtered on one `sub`: the `Username` of each
      user found (`None` where the record has none), or a failed call of any kind. */
  datatype ListUsersAnswer = Users(usernames: seq<Option<string>>) | LookupFailed

  type Directory = UserId -> ListUsersAnswer

  /** `get_username_from_user_id`: the first matching user's name, falling back to the id itself
      when the lookup fails, finds nobody, or the record has no name. */
  function UsernameOf(directory: Directory, id: UserId): (name: string)
    ensures (directory(id).Users? && |directory(id).usernames| > 0 && directory(id).usernames[0].Some?) ==>
              name == directory(id).usernames[0].value
    ensures directory(id).LookupFailed? || directory(id).usernames == [] ==> name == id
    ensures directory(id).Users? && |directory(id).usernames| > 0 && directory(id).usernames[0].None? ==> name == id
    ensures name == id || (directory(id).Users? && Some(name) in directory(id).usernames)
  {
    match directory(id)
    case LookupFailed => id
    case Users(names) => if |names| > 0 then names[0].GetOr(id) else id
  }

  /** The comprehension over the queried interests. */
  function UsernamesOf(directory: Directory, interests: seq<Interest>): (names: seq<string>)
    ensures |names| == |interests|
    ensures forall i :: 0 <= i < |interests| ==> names[i] == UsernameOf(directory, interests[i].userId)
  {
    seq(|interests|, i requires 0 <= i < |interests| => UsernameOf(directory, interests[i].userId))
  }

  /** One listing row built from stored movie `m`: its own fields, the creator's name (`''` when the
      movie has no creator), and the names of everyone interested, in the index's order — or no one
      when the index query failed with a ClientError. */
  ghost predicate EnrichedFrom(e: EnrichedMovie, m: Movie, interests: map<InterestKey, int>,
                         queryFault: MovieId -> StoreOutcome, directory: Directory) {
    && e.movieId == m.movieId && e.title == m.title && e.status == m.status
    && e.createdAt == m.createdAt && e.updatedAt == m.updatedAt
    && e.createdBy == UsernameOf(directory, m.createdBy.GetOr(""))
    && if queryFault(m.movieId).Ok?
       then exists qs :: IsIndexQueryResult(qs, interests, m.movieId) && e.interestedUsers == UsernamesOf(directory, qs)
       else e.interestedUsers == []
  }

  ghost predicate EnrichesScan(enriched: seq<EnrichedMovie>, scan: seq<Movie>, interests: map<InterestKey, int>,
                         queryFault: MovieId -> StoreOutcome, directory: Directory) {
    && |enriched| == |scan|
    && forall i :: 0 <= i < |scan| ==> EnrichedFrom(enriched[i], scan[i], interests, queryFault, directory)
  }

  /** `x.get('createdAt', 0)` */
  function SortKey(e: EnrichedMovie): int {
    e.createdAt.GetOr(0)
  }

  predicate NewestFirst(ms: seq<EnrichedMovie>) {
    forall i, j :: 0 <= i < j < |ms| ==> SortKey(ms[j]) <= SortKey(ms[i])
  }

  /** Places `x` after every element whose key is at least its own, so equal keys keep their order. */
  function InsertNewestFirst(ms: seq<EnrichedMovie>, x: EnrichedMovie): (r: seq<EnrichedMovie>)
    requires NewestFirst(ms)
    ensures NewestFirst(r)
    ensures multiset(r) == multiset(ms) + multiset{x}
    decreases |ms|
  {
    if ms == [] then [x]
    else if SortKey(ms[|ms| - 1]) >= SortKey(x) then ms + [x]
    else
      var init, last := ms[..|ms| - 1], ms[|ms| - 1];
      var front := InsertNewestFirst(init, x);
      assert ms == init + [last];
      KeysAtLeast(front, init, x, SortKey(last));
      front + [last]
  }

  /** Every key in a rearrangement of `init` plus `x` is at least `k` when each of theirs is. */
  lemma KeysAtLeast(front: seq<EnrichedMovie>, init: seq<EnrichedMovie>, x: EnrichedMovie, k: int)
    requires multiset(front) == multiset(init) + multiset{x}
    requires SortKey(x) >= k && forall i :: 0 <= i < |init| ==> SortKey(init[i]) >= k
    ensures forall i :: 0 <= i < |front| ==> SortKey(front[i]) >= k
  {
    forall i | 0 <= i < |front| ensures SortKey(front[i]) >= k {
      assert front[i] in multiset(front);
      if front[i] != x {
        assert front[i] in multiset(init);
        var j :| 0 <= j < |init| && init[j] == front[i];
      }
    }
  }

  /** `enriched_movies.sort(key=lambda x: x.get('createdAt', 0), reverse=True)`, as a stable insertion sort. */
  function SortNewestFirst(ms: seq<EnrichedMovie>): (r: seq<EnrichedMovie>)
    ensures NewestFirst(r)
    ensures multiset(r) == multiset(ms)
    decreases |ms|
  {
    if ms == [] then []
    else
      assert ms == ms[..|ms| - 1] + [ms[|ms| - 1]];
      InsertNewestFirst(SortNewestFirst(ms[..|ms| - 1]), ms[|ms| - 1])
  }

  /** The rows of a 200 answer: a scan of the movies, each row enriched from its movie, then sorted. */
  ghost predicate IsListing(ms: seq<EnrichedMovie>, t: Tables, queryFault: MovieId -> StoreOutcome, directory: Directory) {
    && NewestFirst(ms)
    && exists scan :: IsScanResult(scan, t.movies) &&
         exists enriched :: EnrichesScan(enriched, scan, t.interests, queryFault, directory) &&
           multiset(ms) == multiset(enriched)
  }

  /** The scan and the enriched rows a listing was sorted from. */
  lemma ListingSources(ms: seq<EnrichedMovie>, t: Tables, queryFault: MovieId -> StoreOutcome, directory: Directory)
      returns (scan: seq<Movie>, enriched: seq<EnrichedMovie>)
    requires IsListing(ms, t, queryFault, directory)
    ensures IsScanResult(scan, t.movies) && EnrichesScan(enriched, scan, t.interests, queryFault, directory)
    ensures multiset(ms) == multiset(enriched) && |ms| == |scan|
  {
    scan :| IsScanResult(scan, t.movies) &&
            exists enriched :: EnrichesScan(enriched, scan, t.interests, queryFault, directory) &&
              multiset(ms) == multiset(enriched);
    enriched :| EnrichesScan(enriched, scan, t.interests, queryFault, directory) && multiset(ms) == multiset(enriched);
    assert |ms| == |multiset(ms)| == |multiset(enriched)| == |enriched|;
  }

  /** A listing has one row per stored movie, and each row is enriched from the movie it names. */
  lemma ListingRowsAreEnriched(ms: seq<EnrichedMovie>, t: Tables, queryFault: MovieId -> StoreOutcome,
                               directory: Directory)
    requires IsListing(ms, t, queryFault, directory)
    ensures |ms| == |t.movies|
    ensures forall i :: 0 <= i < |ms| ==>
              ms[i].movieId in t.movies && EnrichedFrom(ms[i], t.movies[ms[i].movieId], t.interests, queryFault, directory)
  {
    var scan, enriched := ListingSources(ms, t, queryFault, directory);
    forall i | 0 <= i < |ms|
      ensures ms[i].movieId in t.movies && EnrichedFrom(ms[i], t.movies[ms[i].movieId], t.interests, queryFault, directory)
    {
      assert ms[i] in multiset(enriched);
      var j :| 0 <= j < |enriched| && enriched[j] == ms[i];
      assert EnrichedFrom(enriched[j], scan[j], t.interests, queryFault, directory);
    }
  }

  /** Every stored movie has a row in a listing. */
  lemma ListingCoversEveryMovie(ms: seq<EnrichedMovie>, t: Tables, queryFault: MovieId -> StoreOutcome,
                                directory: Directory)
    requires IsListing(ms, t, queryFault, directory)
    ensures forall id :: id in t.movies ==> exists i :: 0 <= i < |ms| && ms[i].movieId == id
  {
    var scan, enriched := ListingSources(ms, t, queryFault, directory);
    forall id | id in t.movies ensures exists i :: 0 <= i < |ms| && ms[i].movieId == id {
      var j :| 0 <= j < |scan| && scan[j].movieId == id;
      assert EnrichedFrom(enriched[j], scan[j], t.interests, queryFault, directory);
      assert enriched[j] in multiset(ms);
      var i :| 0 <= i < |ms| && ms[i] == enriched[j];
    }
  }

  /** Some movie's index query raised something other than a ClientError. */
  ghost predicate SomeQueryUnexpected(t: Tables, queryFault: MovieId -> StoreOutcome) {
    exists id :: id in t.movies && queryFault(id).Unexpected?
  }

  /** What the handler answers, given the settings and every backend answer. */
  ghost predicate IsMoviesResponse(r: ApiResponse, t: Tables, env: Settings, scanFault: StoreOutcome,
                             queryFault: MovieId -> StoreOutcome, directory: Directory) {
    if CheckSettings(env).Failure? then r == ServerError
    else if !scanFault.Ok? then r == StoreFailure(scanFault)
    else if SomeQueryUnexpected(t, queryFault) then r == ServerError
    else exists ms :: IsListing(ms, t, queryFault, directory) && r == SuccessResponse(200, MovieList(ms), None)
  }

  /** The body of the handler's loop for one scanned movie; `unexpected` when its index query raised
      something other than a ClientError, which ends the whole request. */
  method EnrichMovie(db: Store, movie: Movie, queryFault: MovieId -> StoreOutcome, directory: Directory)
      returns (unexpected: bool, row: EnrichedMovie)
    ensures unexpected <==> queryFault(movie.movieId).Unexpected?
    ensures !unexpected ==> EnrichedFrom(row, movie, db.interests, queryFault, directory)
  {
    var createdBy := UsernameOf(directory, movie.createdBy.GetOr(""));
    var res, interests := db.QueryByMovie(movie.movieId, queryFault(movie.movieId));
    unexpected := res.Unexpected?;
    var users := if res.Ok? then UsernamesOf(directory, interests) else [];
    row := EnrichedMovie(movie.movieId, movie.title, movie.status, createdBy,
                         movie.createdAt, movie.updatedAt, users);
  }

  /** A scan reaches every movie, so a scan with no unexpected query failure means none at all. */
  lemma NoQueryUnexpected(t: Tables, scan: seq<Movie>, queryFault: MovieId -> StoreOutcome)
    requires IsScanResult(scan, t.movies)
    requires forall i :: 0 <= i < |scan| ==> !queryFault(scan[i].movieId).Unexpected?
    ensures !SomeQueryUnexpected(t, queryFault)
  {
    forall id | id in t.movies ensures !queryFault(id).Unexpected? {
      var i :| 0 <= i < |scan| && scan[i].movieId == id;
    }
  }

  /** The handler's loop over the scanned movies; it stops at the first unexpected query failure. */
  method EnrichAll(db: Store, scan: seq<Movie>, queryFault: MovieId -> StoreOutcome, directory: Directory)
      returns (unexpected: bool, enriched: seq<EnrichedMovie>)
    ensures unexpected ==> exists i :: 0 <= i < |scan| && queryFault(scan[i].movieId).Unexpected?
    ensures !unexpected ==>
              && (forall i :: 0 <= i < |scan| ==> !queryFault(scan[i].movieId).Unexpected?)
              && |enriched| == |scan|
              && forall i :: 0 <= i < |scan| ==> EnrichedFrom(enriched[i], scan[i], db.interests, queryFault, directory)
  {
    enriched := [];
    for k := 0 to |scan|
      invariant |enriched| == k
      invariant forall i :: 0 <= i < k ==> !queryFault(scan[i].movieId).Unexpected?
      invariant forall i :: 0 <= i < k ==> EnrichedFrom(enriched[i], scan[i], db.interests, queryFault, directory)
    {
      var failed, row := EnrichMovie(db, scan[k], queryFault, directory);
      if failed {
        return true, enriched;
      }
      enriched := enriched + [row];
    }
    unexpected := false;
  }

  /** `lambda_handler`; it only reads the store. */
  method LambdaHandler(db: Store, env: Settings, scanFault: StoreOutcome,
                       queryFault: MovieId -> StoreOutcome, directory: Directory) returns (r: ApiResponse)
    requires db.Valid()
    ensures IsMoviesResponse(r, db.Snapshot(), env, scanFault, queryFault, directory)
    // an empty wishlist is an empty list, not an error
    ensures CheckSettings(env).Success? && scanFault.Ok? && db.movies == map[] ==>
              r == SuccessResponse(200, MovieList([]), None)
  {
    if CheckSettings(env).Failure? {
      return ServerError;
    }
    var res, scan := db.Scan(scanFault);
    if !res.Ok? {
      return StoreFailure(res);
    }
    var unexpected, enriched := EnrichAll(db, scan, queryFault, directory);
    if unexpected {
      ghost var i :| 0 <= i < |scan| && queryFault(scan[i].movieId).Unexpected?;
      assert scan[i].movieId in db.movies;
      return ServerError;
    }
    NoQueryUnexpected(db.Snapshot(), scan, queryFault);
    var sorted := SortNewestFirst(enriched);
    SortedScanIsListing(db.Snapshot(), scan, enriched, queryFault, directory);
    r := SuccessResponse(200, MovieList(sorted), None);
  }

  /** Sorting the rows enriched from a scan gives a listing, and an empty store gives no rows. */
  lemma SortedScanIsListing(t: Tables, scan: seq<Movie>, enriched: seq<EnrichedMovie>,
                            queryFault: MovieId -> StoreOutcome, directory: Directory)
    requires IsScanResult(scan, t.movies)
    requires |enriched| == |scan|
    requires forall i :: 0 <= i < |scan| ==> EnrichedFrom(enriched[i], scan[i], t.interests, queryFault, directory)
    ensures IsListing(SortNewestFirst(enriched), t, queryFault, directory)
    ensures t.movies == map[] ==> SortNewestFirst(enriched) == []
  {
    assert EnrichesScan(enriched, scan, t.interests, queryFault, directory);
    if t.movies == map[] {
      assert scan == [];
    }
  }
}
