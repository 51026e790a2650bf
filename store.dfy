/**
 * The in-memory record store standing in for the two DynamoDB tables: Movies
 * keyed by `movieId`, Interests keyed by `(userId, movieId)` with the
 * MovieInterestsIndex (all interests of one movie) as a derived function.
 *
 * Every operation takes the backend's answer as an injected `StoreOutcome`.
 * When it is `Ok` the store applies the operation, evaluating any condition
 * (`attribute_exists(movieId)`) itself; otherwise the operation fails with it
 * and nothing changes.
 */
module Store {
  import opened Wrappers
  import opened DynamoClient

  type MovieId = string
  type UserId = string
  type InterestKey = (UserId, MovieId)

  /** A Movies item. `createdBy` and `createdAt` are read with defaults by the listing, so they may be absent. */
  datatype Movie = Movie(movieId: MovieId, title: string, status: string, createdBy: Option<UserId>,
                         createdAt: Option<int>, updatedAt: int)

  /** An Interests item. */
  datatype Interest = Interest(userId: UserId, movieId: MovieId, createdAt: int)

  function KeyOf(i: Interest): InterestKey {
    (i.userId, i.movieId)
  }

  /** The contents of both tables; an interest maps its key to its `createdAt`. */
  datatype Tables = Tables(movies: map<MovieId, Movie>, interests: map<InterestKey, int>)

  /** Every movie is stored under its own id. */
  predicate WellKeyed(t: Tables) {
    forall id :: id in t.movies ==> t.movies[id].movieId == id
  }

  /** The MovieInterestsIndex query: the keys of all interests whose movieId is `m`. */
  function InterestsOf(interests: map<InterestKey, int>, m: MovieId): (ks: set<InterestKey>)
    ensures forall k :: k in ks <==> k in interests && k.1 == m
  {
    set k | k in interests && k.1 == m
  }

  /** What the backend answers to one call: success, a botocore `ClientError` (the next three),
      or an exception of another kind (`Unexpected`: a connection or parameter failure). */
  datatype StoreOutcome =
    | Ok
    | ConditionalCheckFailed
    | Cancelled(reasons: seq<Option<string>>, message: string)
    | Other(code: string)
    | Unexpected
  {
    predicate IsClientError() {
      !Ok? && !Unexpected?
    }
  }

  /** `e.response['Error']['Code']` of a `ClientError`. */
  function ErrorCode(o: StoreOutcome): string
    requires o.IsClientError()
  {
    match o
    case ConditionalCheckFailed => ConditionalCheckFailedException
    case Cancelled(_, _) => TransactionCanceledException
    case Other(code) => code
  }

  /** `e.response.get('CancellationReasons', [])`, each reason's optional `Code`. */
  function CancellationReasons(o: StoreOutcome): seq<Option<string>> {
    if o.Cancelled? then o.reasons else []
  }

  /** `e.response['Error'].get('Message', '')` */
  function ErrorMessage(o: StoreOutcome): string {
    if o.Cancelled? then o.message else ""
  }

  // ---------------------------------------------------------------------------
  // Single-item writes

  function PutMovie(t: Tables, m: Movie): (r: Tables)
    ensures r.interests == t.interests
    ensures r.movies.Keys == t.movies.Keys + {m.movieId} && r.movies[m.movieId] == m
    ensures forall id :: id in t.movies && id != m.movieId ==> r.movies[id] == t.movies[id]
  {
    Tables(t.movies[m.movieId := m], t.interests)
  }

  function PutInterest(t: Tables, i: Interest): (r: Tables)
    ensures r.movies == t.movies
    ensures r.interests.Keys == t.interests.Keys + {KeyOf(i)} && r.interests[KeyOf(i)] == i.createdAt
    ensures forall k :: k in t.interests && k != KeyOf(i) ==> r.interests[k] == t.interests[k]
  {
    Tables(t.movies, t.interests[KeyOf(i) := i.createdAt])
  }

  function DeleteInterest(t: Tables, k: InterestKey): (r: Tables)
    ensures r.movies == t.movies
    ensures r.interests.Keys == t.interests.Keys - {k}
    ensures forall k' :: k' in r.interests ==> r.interests[k'] == t.interests[k']
  {
    Tables(t.movies, t.interests - {k})
  }

  /** `update_item` with `SET status, updatedAt` under `attribute_exists(movieId)`, returning ALL_NEW. */
  function UpdateStatusCall(t: Tables, id: MovieId, status: string, now: int, fault: StoreOutcome)
    : (r: (Tables, StoreOutcome, Option<Movie>))
    ensures !fault.Ok? ==> r == (t, fault, None)
    ensures fault.Ok? && id !in t.movies ==> r == (t, ConditionalCheckFailed, None)
    ensures fault.Ok? && id in t.movies ==>
              var m := t.movies[id].(status := status, updatedAt := now);
              r == (PutMovie(t, m), Ok, Some(m))
  {
    if !fault.Ok? then (t, fault, None)
    else if id !in t.movies then (t, ConditionalCheckFailed, None)
    else
      var m := t.movies[id].(status := status, updatedAt := now);
      (PutMovie(t, m), Ok, Some(m))
  }

  // ---------------------------------------------------------------------------
  // Multi-item transactions (`transact_write_items` with Delete actions)

  datatype ItemKey = MovieKey(movieId: MovieId) | InterestItemKey(userId: UserId, movieId: MovieId)

  /** A Delete action; `mustExist` is the `attribute_exists` condition. */
  datatype TransactItem = Delete(key: ItemKey, mustExist: bool)

  predicate Present(t: Tables, key: ItemKey) {
    match key
    case MovieKey(id) => id in t.movies
    case InterestItemKey(u, m) => (u, m) in t.interests
  }

  predicate ConditionHolds(t: Tables, item: TransactItem) {
    !item.mustExist || Present(t, item.key)
  }

  predicate AllConditionsHold(t: Tables, items: seq<TransactItem>) {
    forall i :: 0 <= i < |items| ==> ConditionHolds(t, items[i])
  }

  /** One cancellation reason per action, in order: `None` where its condition held. */
  function TransactionReasons(t: Tables, items: seq<TransactItem>): (rs: seq<Option<string>>)
    ensures |rs| == |items|
    ensures forall i :: 0 <= i < |items| ==>
              rs[i] == Some(if ConditionHolds(t, items[i]) then "None" else "ConditionalCheckFailed")
  {
    seq(|items|, i requires 0 <= i < |items| =>
      Some(if ConditionHolds(t, items[i]) then "None" else "ConditionalCheckFailed"))
  }

  const CancelledMessage := "Transaction cancelled, please refer cancellation reasons for specific reasons"

  function MovieKeysOf(items: seq<TransactItem>): set<MovieId> {
    set i | 0 <= i < |items| && items[i].key.MovieKey? :: items[i].key.movieId
  }

  function InterestKeysOf(items: seq<TransactItem>): set<InterestKey> {
    set i | 0 <= i < |items| && items[i].key.InterestItemKey? :: (items[i].key.userId, items[i].key.movieId)
  }

  /** All deletes apply, or — when some condition fails or the backend refuses — none do. */
  function TransactCall(t: Tables, items: seq<TransactItem>, fault: StoreOutcome): (r: (Tables, StoreOutcome))
    ensures r.1.Ok? <==> fault.Ok? && AllConditionsHold(t, items)
    ensures r.1.Ok? ==> r.0 == Tables(t.movies - MovieKeysOf(items), t.interests - InterestKeysOf(items))
    ensures !r.1.Ok? ==> r.0 == t
    ensures fault.Ok? && !AllConditionsHold(t, items) ==>
              r.1 == Cancelled(TransactionReasons(t, items), CancelledMessage)
  {
    if !fault.Ok? then (t, fault)
    else if !AllConditionsHold(t, items) then (t, Cancelled(TransactionReasons(t, items), CancelledMessage))
    else (Tables(t.movies - MovieKeysOf(items), t.interests - InterestKeysOf(items)), Ok)
  }

  // ---------------------------------------------------------------------------
  // What a query or scan returns: each matching item once, in an order the store chooses.

  predicate IsIndexQueryResult(items: seq<Interest>, interests: map<InterestKey, int>, m: MovieId) {
    && |items| == |InterestsOf(interests, m)|
    && (forall i :: 0 <= i < |items| ==>
          items[i].movieId == m && KeyOf(items[i]) in interests && interests[KeyOf(items[i])] == items[i].createdAt)
    && (forall k :: k in InterestsOf(interests, m) ==> exists i :: 0 <= i < |items| && KeyOf(items[i]) == k)
    && (forall i, j :: 0 <= i < j < |items| ==> KeyOf(items[i]) != KeyOf(items[j]))
  }

  predicate IsScanResult(items: seq<Movie>, movies: map<MovieId, Movie>) {
    && |items| == |movies|
    && (forall i :: 0 <= i < |items| ==> items[i].movieId in movies && movies[items[i].movieId] == items[i])
    && (forall id :: id in movies ==> exists i :: 0 <= i < |items| && items[i].movieId == id)
    && (forall i, j :: 0 <= i < j < |items| ==> items[i].movieId != items[j].movieId)
  }

  /** The two tables, updated in place by the request handlers. */
  class Store {
    var movies: map<MovieId, Movie>
    var interests: map<InterestKey, int>

    function Snapshot(): Tables
      reads this
    {
      Tables(movies, interests)
    }

    predicate Valid()
      reads this
    {
      WellKeyed(Snapshot())
    }

    constructor ()
      ensures Valid() && movies == map[] && interests == map[]
    {
      movies, interests := map[], map[];
    }

    /** `movies_table.get_item`: `Item` is present exactly when the movie is stored. */
    method GetMovie(id: MovieId, fault: StoreOutcome) returns (res: StoreOutcome, item: Option<Movie>)
      ensures res == fault
      ensures item == if fault.Ok? && id in movies then Some(movies[id]) else None
    {
      res := fault;
      item := if fault.Ok? && id in movies then Some(movies[id]) else None;
    }

    /** `movies_table.put_item`: an unconditional upsert. */
    method PutMovieItem(m: Movie, fault: StoreOutcome) returns (res: StoreOutcome)
      requires Valid()
      modifies this
      ensures Valid() && res == fault
      ensures Snapshot() == if fault.Ok? then PutMovie(old(Snapshot()), m) else old(Snapshot())
    {
      res := fault;
      if fault.Ok? {
        movies := movies[m.movieId := m];
      }
    }

    /** `interests_table.put_item`: an unconditional upsert. */
    method PutInterestItem(i: Interest, fault: StoreOutcome) returns (res: StoreOutcome)
      requires Valid()
      modifies this
      ensures Valid() && res == fault
      ensures Snapshot() == if fault.Ok? then PutInterest(old(Snapshot()), i) else old(Snapshot())
    {
      res := fault;
      if fault.Ok? {
        interests := interests[KeyOf(i) := i.createdAt];
      }
    }

    /** `interests_table.delete_item`: unconditional, succeeds whether or not the key was stored. */
    method DeleteInterestItem(k: InterestKey, fault: StoreOutcome) returns (res: StoreOutcome)
      requires Valid()
      modifies this
      ensures Valid() && res == fault
      ensures Snapshot() == if fault.Ok? then DeleteInterest(old(Snapshot()), k) else old(Snapshot())
    {
      res := fault;
      if fault.Ok? {
        interests := interests - {k};
      }
    }

    method UpdateStatus(id: MovieId, status: string, now: int, fault: StoreOutcome)
        returns (res: StoreOutcome, attributes: Option<Movie>)
      requires Valid()
      modifies this
      ensures Valid()
      ensures (Snapshot(), res, attributes) == UpdateStatusCall(old(Snapshot()), id, status, now, fault)
    {
      if !fault.Ok? {
        return fault, None;
      }
      if id !in movies {
        return ConditionalCheckFailed, None;
      }
      var m := movies[id].(status := status, updatedAt := now);
      movies := movies[id := m];
      res, attributes := Ok, Some(m);
    }

    method TransactWriteItems(items: seq<TransactItem>, fault: StoreOutcome) returns (res: StoreOutcome)
      requires Valid()
      modifies this
      ensures Valid()
      ensures (Snapshot(), res) == TransactCall(old(Snapshot()), items, fault)
    {
      if !fault.Ok? {
        return fault;
      }
      if !AllConditionsHold(Snapshot(), items) {
        return Cancelled(TransactionReasons(Snapshot(), items), CancelledMessage);
      }
      movies := movies - MovieKeysOf(items);
      interests := interests - InterestKeysOf(items);
      res := Ok;
    }

    /** `interests_table.query` on MovieInterestsIndex: every interest of `m`, once each. */
    method QueryByMovie(m: MovieId, fault: StoreOutcome) returns (res: StoreOutcome, items: seq<Interest>)
      ensures res == fault
      ensures fault.Ok? ==> IsIndexQueryResult(items, interests, m)
      ensures !fault.Ok? ==> items == []
    {
      res, items := fault, [];
      if !fault.Ok? {
        return;
      }
      var all := InterestsOf(interests, m);
      var rest := all;
      while rest != {}
        invariant rest <= all
        invariant |items| + |rest| == |all|
        invariant forall i :: 0 <= i < |items| ==>
                    items[i].movieId == m && KeyOf(items[i]) in interests &&
                    interests[KeyOf(items[i])] == items[i].createdAt && KeyOf(items[i]) !in rest
        invariant forall k :: k in all && k !in rest ==> exists i :: 0 <= i < |items| && KeyOf(items[i]) == k
        invariant forall i, j :: 0 <= i < j < |items| ==> KeyOf(items[i]) != KeyOf(items[j])
        decreases rest
      {
        var k :| k in rest;
        ghost var before := items;
        items := items + [Interest(k.0, k.1, interests[k])];
        assert KeyOf(items[|before|]) == k;
        assert forall i :: 0 <= i < |before| ==> items[i] == before[i];
        rest := rest - {k};
      }
    }

    /** `movies_table.scan`: every movie, once each. */
    method Scan(fault: StoreOutcome) returns (res: StoreOutcome, items: seq<Movie>)
      requires Valid()
      ensures res == fault
      ensures fault.Ok? ==> IsScanResult(items, movies)
      ensures !fault.Ok? ==> items == []
    {
      res, items := fault, [];
      if !fault.Ok? {
        return;
      }
      var rest := movies.Keys;
      while rest != {}
        invariant rest <= movies.Keys
        invariant |items| + |rest| == |movies|
        invariant forall i :: 0 <= i < |items| ==>
                    items[i].movieId in movies && movies[items[i].movieId] == items[i] && items[i].movieId !in rest
        invariant forall id :: id in movies && id !in rest ==> exists i :: 0 <= i < |items| && items[i].movieId == id
        invariant forall i, j :: 0 <= i < j < |items| ==> items[i].movieId != items[j].movieId
        decreases rest
      {
        var id :| id in rest;
        ghost var before := items;
        items := items + [movies[id]];
        assert items[|before|].movieId == id;
        assert forall i :: 0 <= i < |before| ==> items[i] == before[i];
        rest := rest - {id};
      }
    }
  }
}
