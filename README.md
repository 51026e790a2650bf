# Movie wishlist backend, modelled in Dafny

This project models the request handlers of the movie download wishlist web
application and the stores they work on. There are two DynamoDB tables:

- **Movies**, keyed by `movieId`;
- **Interests**, keyed by `(userId, movieId)`, with the `MovieInterestsIndex` by movie.

Seven Lambda handlers read and change these tables:

- create a movie, together with its creator's interest;
- list all movies, enriched and newest first;
- update a movie's status;
- add an interest;
- remove an interest;
- list the users interested in a movie;
- delete a movie together with all its interests, in one transaction.

The shared helpers are modelled too: input validation, the DynamoDB
error-code table, and the API Gateway response envelopes. So is the output
file-name derivation of the separate text-to-speech Lambda.

Layout, one module per source file plus four support modules:

| file | module | models |
|---|---|---|
| wrappers.dfy | Wrappers | `Option` and `Result` |
| pystr.dfy | PyStr | the Python `str` methods the source uses (`strip`, `count`, `in`, `split('/')[-1]`, `lower`, `replace`) |
| validation.dfy | Validation | shared/validation.py |
| dynamodb_client.dfy | DynamoClient | shared/dynamodb_client.py |
| response.dfy | Response | shared/response.py |
| store.dfy | Store | the two tables, as a class `Store` updated in place, plus the pure transitions that specify its methods |
| api.dfy | Api | the event fields, parsed body and payloads shared by the handlers |
| create_movie.dfy … get_interested_users.dfy | one per handler | the handlers |
| text_to_audio.dfy | TextToAudio | text-to-audio/terraform/lambda_function.py, lines 13-15, 27-30 and 60 |

Each state-changing handler has two parts:

- `LambdaHandler`, a module-level method taking the `Store` as its parameter `db`, that makes the same store calls in the same order as the source.
- A pure `…Spec` function. The method's postcondition says that the new store contents and the response equal this function's result.

The properties are stated on the `…Spec` functions, as their postconditions and as lemmas over repeated calls. They cover:

- nothing else changes;
- atomicity;
- idempotence;
- toggling status there and back;
- deleting twice.

The two read-only handlers are methods with loops. Their postconditions state the whole
response as a predicate on the store.

The backend's behaviour is passed in as parameters:

- Every DynamoDB call takes an injected `StoreOutcome`. `Ok` means the store behaves normally. The other outcomes are a ClientError with its code, a cancelled transaction with its reasons and message, or any other exception (`Unexpected`).
- Even when the injected outcome is `Ok`, the store judges the conditions itself. An update of a missing movie fails with ConditionalCheckFailed. A transaction whose condition does not hold is cancelled with one reason per item.
- The clock and the fresh `uuid4` are parameters.
- The Cognito lookups are functions passed in from user id to answer.
- The environment variables are a `Settings` value.

Where the system's specification and its code differ, the model follows the code:

- **JSON body that is not an object.** A body of `null` or a JSON list falls through to the handler's outer `except`, so the answer is 500 `ServerError`, not a validation error. The same holds for a raw `None` body. A missing `body` key is read as `'{}'`.
- **Failures in the delete transaction.** A cancelled transaction (TransactionCanceledException) answers 500 "Transaction failed" unless its first cancellation reason is ConditionalCheckFailed or, when it carries no reasons, its message names ConditionalCheckFailed; those two cases answer 404. A plain ConditionalCheckFailedException also answers 404; every other ClientError goes through the shared error table, for example throttling gives 503.
- **Username fallback.** Name resolution falls back to the raw id also when the found user record has no `Username`.
- **Sort ties.** The sort is stable, so ties keep the scan order. The scan order is itself unspecified.
- **Re-adding an interest.** Adding an existing interest again rewrites its `createdAt`.

## Model

| member | source | states |
|---|---|---|
| PyStr.Strip | movie-download-wishlist-webapp/lambda/src/shared/validation.py:26-29 | the result is empty exactly when the string is all Python whitespace; otherwise it starts and ends with non-whitespace and is the slice between the leading and trailing whitespace |
| PyStr.StripOfTrimmed | movie-download-wishlist-webapp/lambda/src/shared/validation.py:26-29 | a string with non-whitespace at both ends is its own strip |
| PyStr.StripIdempotent | movie-download-wishlist-webapp/lambda/src/shared/validation.py:26-29 | stripping twice is stripping once |
| PyStr.Count | movie-download-wishlist-webapp/lambda/src/shared/validation.py:80 | the count of a character is 0 exactly when it does not occur, and never exceeds the length |
| PyStr.ContainsPrefixOf | movie-download-wishlist-webapp/lambda/src/delete_movie.py:82 | a string containing `p + q` contains `p` |
| PyStr.LastSegment | text-to-audio/terraform/lambda_function.py:27 | `split('/')[-1]` has no `/`, is a suffix of the key, and is preceded by `/` whenever it is shorter than the key |
| PyStr.LastSegmentOfPlain | text-to-audio/terraform/lambda_function.py:27 | a key without `/` is its own last segment |
| PyStr.Lower | text-to-audio/terraform/lambda_function.py:29 | lower-casing keeps the length and maps each character by itself (ASCII letters only) |
| PyStr.LowerOfNoCapitals | text-to-audio/terraform/lambda_function.py:29 | a string without capitals is unchanged by lower-casing |
| PyStr.ReplaceAll | text-to-audio/terraform/lambda_function.py:29 | `s.replace(pat, rep)` for a non-empty pattern, as one left-to-right pass; a replacement no longer than the pattern never lengthens the string, and one of equal length keeps its length |
| PyStr.ReplaceAllChars | text-to-audio/terraform/lambda_function.py:29 | every character of `s.replace(pat, rep)` comes from `s` or from `rep` |
| PyStr.ReplaceAllRemovesChar | text-to-audio/terraform/lambda_function.py:29 | replacing a single character by text without it leaves no occurrence of it |
| PyStr.ReplaceAllAbsentChar | text-to-audio/terraform/lambda_function.py:29 | replacing a character that does not occur changes nothing |
| Validation.ValidateMovieTitle | movie-download-wishlist-webapp/lambda/src/shared/validation.py:9-32 | valid exactly for a string whose stripped length is 1 to 500; a message exactly when invalid; the `None`, non-string, blank and too-long messages in that order of checks |
| Validation.TitleBoundary | movie-download-wishlist-webapp/lambda/src/shared/validation.py:29-32 | a title of n non-blank characters is valid exactly when 1 <= n <= 500, so 500 is accepted and 501 rejected |
| Validation.ValidateMovieStatus | movie-download-wishlist-webapp/lambda/src/shared/validation.py:35-56 | valid exactly for `"wishlist"` or `"downloaded"`; the `None`, non-string and "must be one of" messages in that order |
| Validation.ValidateUuid | movie-download-wishlist-webapp/lambda/src/shared/validation.py:59-83 | valid exactly for a non-blank string of length 36 with four `-`; the four messages are prefixed with the field name |
| DynamoClient.HandleClientError | movie-download-wishlist-webapp/lambda/src/shared/dynamodb_client.py:31-54 | each known code gets its status and message; any other code gives (500, "Internal server error"); every status is in {400, 404, 409, 500, 503} |
| DynamoClient.IsThrottlingError | movie-download-wishlist-webapp/lambda/src/shared/dynamodb_client.py:56-67 | holds exactly when the code is ProvisionedThroughputExceededException, which is exactly when the status is 503 |
| DynamoClient.CheckSettings | movie-download-wishlist-webapp/lambda/src/shared/dynamodb_client.py:20-26 | fails, with the source's message, when either table name is unset or empty, the movies table checked first; succeeds otherwise |
| DynamoClient.DynamoDBClient.constructor | movie-download-wishlist-webapp/lambda/src/shared/dynamodb_client.py:15-29 | the client holds the two configured table names |
| DynamoClient.ClientCache.constructor | movie-download-wishlist-webapp/lambda/src/shared/dynamodb_client.py:71 | no client exists yet |
| DynamoClient.ClientCache.GetDynamoDBClient | movie-download-wishlist-webapp/lambda/src/shared/dynamodb_client.py:74-84 | creates a client only when none is cached, and otherwise returns the cached one without looking at the settings |
| DynamoClient.SingletonReturnsSameInstance | movie-download-wishlist-webapp/lambda/src/shared/dynamodb_client.py:81-84 | once a client has been created, every later call returns that same instance |
| Response.MergeHeaders | movie-download-wishlist-webapp/lambda/src/shared/response.py:35-42 | every custom header appears unchanged; every default not overridden is kept; no other key appears |
| Response.SuccessResponse | movie-download-wishlist-webapp/lambda/src/shared/response.py:19-48 | the given status, the JSON defaults merged with the custom headers, the body as given |
| Response.ErrorBody | movie-download-wishlist-webapp/lambda/src/shared/response.py:78-83 | `error` is always the message; `errorType` is present exactly when the type is truthy; no other key |
| Response.ErrorResponse | movie-download-wishlist-webapp/lambda/src/shared/response.py:51-89 | the given status, the merged JSON headers, the error body |
| Response.NoContentResponse | movie-download-wishlist-webapp/lambda/src/shared/response.py:92-114 | status 204, an empty body, and no Content-Type unless the custom headers add one |
| Response.CorsAlwaysPresent | movie-download-wishlist-webapp/lambda/src/shared/response.py:35-42 | all three builders carry `Access-Control-Allow-Origin: *` unless custom headers override it |
| Response.DefaultHeadersOnly | movie-download-wishlist-webapp/lambda/src/shared/response.py:35-42 | without custom headers (or with an empty dict) the headers are exactly the defaults |
| Store.InterestsOf | movie-download-wishlist-webapp/lambda/src/delete_movie.py:34-39 | the index holds exactly the interests whose movieId is the given one |
| Store.PutMovie | movie-download-wishlist-webapp/lambda/src/create_movie.py:75 | the movie is stored under its id, other movies and all interests are unchanged |
| Store.PutInterest | movie-download-wishlist-webapp/lambda/src/add_interest.py:56 | the interest is stored (overwriting createdAt), other interests and all movies are unchanged |
| Store.DeleteInterest | movie-download-wishlist-webapp/lambda/src/remove_interest.py:41-46 | the key is absent afterwards, whether or not it was present; nothing else changes |
| Store.UpdateStatusCall | movie-download-wishlist-webapp/lambda/src/update_movie_status.py:58-70 | a missing movie fails the condition and changes nothing; otherwise only status and updatedAt change and the new record is returned |
| Store.TransactionReasons | movie-download-wishlist-webapp/lambda/src/delete_movie.py:78-85 | one cancellation reason per transaction item: ConditionalCheckFailed where the item's condition fails, "None" elsewhere |
| Store.TransactCall | movie-download-wishlist-webapp/lambda/src/delete_movie.py:69-71 | all deletes apply exactly when the backend answers Ok and every condition holds; otherwise nothing changes |
| Store.Store.GetMovie | movie-download-wishlist-webapp/lambda/src/add_interest.py:40-42 | returns the stored item exactly when the call succeeds and the movie exists |
| Store.Store.PutMovieItem | movie-download-wishlist-webapp/lambda/src/create_movie.py:75 | the new store is `PutMovie` of the old one when the call succeeds, the old one otherwise |
| Store.Store.PutInterestItem | movie-download-wishlist-webapp/lambda/src/create_movie.py:83 | the new store is `PutInterest` of the old one when the call succeeds, the old one otherwise |
| Store.Store.DeleteInterestItem | movie-download-wishlist-webapp/lambda/src/remove_interest.py:41-46 | the new store is `DeleteInterest` of the old one when the call succeeds, the old one otherwise |
| Store.Store.UpdateStatus | movie-download-wishlist-webapp/lambda/src/update_movie_status.py:58-72 | the new store, the outcome and the returned attributes are those of `UpdateStatusCall` |
| Store.Store.TransactWriteItems | movie-download-wishlist-webapp/lambda/src/delete_movie.py:69-71 | the new store and outcome are those of `TransactCall` |
| Store.Store.QueryByMovie | movie-download-wishlist-webapp/lambda/src/delete_movie.py:34-39 | on success, each interest of the movie exactly once with its stored createdAt, and nothing else |
| Store.Store.Scan | movie-download-wishlist-webapp/lambda/src/get_movies.py:69-70 | on success, each stored movie exactly once, and nothing else |
| Api.DatabaseError | movie-download-wishlist-webapp/lambda/src/create_movie.py:85-87 | the DatabaseError response of the error table; 503 exactly for throttling |
| Api.StoreFailure | movie-download-wishlist-webapp/lambda/src/create_movie.py:85-90 | a ClientError gives the DatabaseError response, any other exception gives 500 ServerError |
| CreateMovie.NewMovie | movie-download-wishlist-webapp/lambda/src/create_movie.py:63-70 | the stripped title, status wishlist, the caller as creator, createdAt = updatedAt = now |
| CreateMovie.Rejection | movie-download-wishlist-webapp/lambda/src/create_movie.py:36-74 | the body, then the title, then the caller, then the settings are checked; each failure answers its own 400, 401 or 500 |
| CreateMovie.CreateMovieSpec | movie-download-wishlist-webapp/lambda/src/create_movie.py:34-97 | a rejected request changes nothing; an acceptable request whose two puts succeed stores exactly the new movie and the creator's interest and answers 201 with the movie |
| CreateMovie.ExistingMoviesNeverChange | movie-download-wishlist-webapp/lambda/src/create_movie.py:57-75 | whatever happens, every movie stored before the call is still stored, unchanged |
| CreateMovie.FailedMoviePutChangesNothing | movie-download-wishlist-webapp/lambda/src/create_movie.py:73-87 | a failed movie put is reported and leaves both tables as they were |
| CreateMovie.CreatedExactlyWhenBothPutsSucceed | movie-download-wishlist-webapp/lambda/src/create_movie.py:73-93 | the answer is 201 exactly when the request is acceptable and both puts succeed |
| CreateMovie.MovieSurvivesFailedInterestPut | movie-download-wishlist-webapp/lambda/src/create_movie.py:73-90 | when the interest put fails after the movie put, the movie stays stored without the creator's interest and an error is answered |
| CreateMovie.LambdaHandler | movie-download-wishlist-webapp/lambda/src/create_movie.py:21-97 | the store and the answer after the call are those of `CreateMovieSpec` |
| UpdateMovieStatus.Rejection | movie-download-wishlist-webapp/lambda/src/update_movie_status.py:35-57 | the path id, then the body, then the status, then the settings are checked, each failure with its own 400 or 500 |
| UpdateMovieStatus.UpdateFailure | movie-download-wishlist-webapp/lambda/src/update_movie_status.py:75-83 | ConditionalCheckFailed answers 404 "Movie not found"; other ClientErrors go through the error table; other exceptions give 500 |
| UpdateMovieStatus.UpdateStatusSpec | movie-download-wishlist-webapp/lambda/src/update_movie_status.py:33-83 | interests never change; any non-200 answer changes nothing; a missing movie answers 404; a failed `update_item` changes nothing and answers `UpdateFailure` (404 for a failed condition, 500 for a non-ClientError, otherwise the error table); success changes only that movie's status and updatedAt and returns the new record |
| UpdateMovieStatus.LambdaHandler | movie-download-wishlist-webapp/lambda/src/update_movie_status.py:20-83 | the store and the answer after the call are those of `UpdateStatusSpec` |
| UpdateMovieStatus.ToggleRoundTrip | movie-download-wishlist-webapp/lambda/tests/test_update_movie_status.py:109-164 | switching to the other status and back restores the original status, both calls answering 200 |
| UpdateMovieStatus.SameStatusRewritesUpdatedAt | movie-download-wishlist-webapp/lambda/src/update_movie_status.py:58-70 | setting the current status again answers 200 and only rewrites updatedAt |
| AddInterest.AddInterestSpec | movie-download-wishlist-webapp/lambda/src/add_interest.py:22-65 | movies never change; the path id is checked before the caller; missing settings answer 500; a missing movie answers 404; a failed `get_item` or `put_item` answers `StoreFailure` of that failure; any non-201 answer changes nothing; 201 exactly when ready, the movie exists and both calls succeed, and then the pair is stored with createdAt = now and returned |
| AddInterest.LambdaHandler | movie-download-wishlist-webapp/lambda/src/add_interest.py:11-65 | the store and the answer after the call are those of `AddInterestSpec` |
| AddInterest.AddRepeatedly | movie-download-wishlist-webapp/lambda/tests/test_add_interest_properties.py:251-298 | one answer per repeated call |
| AddInterest.AddInterestIdempotent | movie-download-wishlist-webapp/lambda/tests/test_add_interest_properties.py:251-298 | repeated adds all answer 201, leave the movies alone and leave exactly one record for the pair, carrying the last call's time |
| RemoveInterest.RemoveInterestSpec | movie-download-wishlist-webapp/lambda/src/remove_interest.py:23-55 | movies never change; the path id is checked before the caller; 204 exactly when ready and the delete succeeds, whether or not the interest existed; then exactly that pair is gone; missing settings answer 500 and a failed delete answers `StoreFailure` of that failure; otherwise nothing changes |
| RemoveInterest.LambdaHandler | movie-download-wishlist-webapp/lambda/src/remove_interest.py:12-55 | the store and the answer after the call are those of `RemoveInterestSpec` |
| RemoveInterest.RemoveRepeatedly | movie-download-wishlist-webapp/lambda/tests/test_remove_interest_properties.py:186-232 | one answer per repeated call |
| RemoveInterest.RemoveInterestIdempotent | movie-download-wishlist-webapp/lambda/tests/test_remove_interest_properties.py:186-232 | N >= 1 removals all answer 204 and end in the state one removal gives |
| DeleteMovie.LongerMentionImpliesShorter | movie-download-wishlist-webapp/lambda/src/delete_movie.py:82 | the second substring test of the message adds nothing to the first |
| DeleteMovie.TransactionFailure | movie-download-wishlist-webapp/lambda/src/delete_movie.py:74-91 | a cancellation whose first reason is ConditionalCheckFailed, or, without reasons, whose message mentions it, answers 404; any other cancellation answers 500 "Transaction failed"; a plain ConditionalCheckFailedException answers 404; other errors go through the error table |
| DeleteMovie.BuildTransactItems | movie-download-wishlist-webapp/lambda/src/delete_movie.py:45-65 | the conditional movie delete comes first, then one unconditional delete per queried interest, in query order |
| DeleteMovie.CascadeDeletesExactly | movie-download-wishlist-webapp/lambda/src/delete_movie.py:45-71 | the transaction deletes exactly the movie and every interest of that movie; its condition holds exactly when the movie exists; the first reason reports it when it does not |
| DeleteMovie.DeleteMovieSpec | movie-download-wishlist-webapp/lambda/src/delete_movie.py:23-95 | anything but 204 changes nothing; 204 exactly when ready, both calls succeed and the movie exists; then the movie and all its interests are gone and everything else is unchanged; missing settings answer 500; a failed index query answers `StoreFailure` of it; a failed transaction answers `TransactionFailure` of it; a missing movie answers 404 |
| DeleteMovie.LambdaHandler | movie-download-wishlist-webapp/lambda/src/delete_movie.py:12-95 | the store and the answer after the call are those of `DeleteMovieSpec` |
| DeleteMovie.SecondDeleteIsNotFound | movie-download-wishlist-webapp/lambda/src/delete_movie.py:45-85 | deleting the same movie twice answers 204; the second call finds no movie, its `attribute_exists` condition fails, and it answers 404 with nothing changed |
| GetMovies.UsernameOf | movie-download-wishlist-webapp/lambda/src/get_movies.py:24-50 | the first found user's Username, falling back to the raw id when the lookup fails, finds no one or the first record has no name |
| GetMovies.UsernamesOf | movie-download-wishlist-webapp/lambda/src/get_movies.py:95 | one resolved name per queried interest, in order |
| GetMovies.InsertNewestFirst | movie-download-wishlist-webapp/lambda/src/get_movies.py:108 | inserting into a newest-first list keeps it newest first and adds exactly that element |
| GetMovies.SortNewestFirst | movie-download-wishlist-webapp/lambda/src/get_movies.py:108 | the result is a permutation of the input with createdAt non-increasing, a missing createdAt counting as 0 |
| GetMovies.EnrichMovie | movie-download-wishlist-webapp/lambda/src/get_movies.py:78-105 | a row with the movie's own fields, the creator's resolved name, and the resolved names of exactly its interested users, or none when the query fails with a ClientError; any other exception is reported |
| GetMovies.EnrichAll | movie-download-wishlist-webapp/lambda/src/get_movies.py:76-105 | the loop either meets a movie whose query raised an unexpected exception, or gives one enriched row per scanned movie, in scan order |
| GetMovies.SortedScanIsListing | movie-download-wishlist-webapp/lambda/src/get_movies.py:105-108 | sorting the enriched rows of a scan gives a listing, and an empty store gives no rows |
| GetMovies.ListingRowsAreEnriched | movie-download-wishlist-webapp/lambda/src/get_movies.py:77-105 | a listing has one row per stored movie, and each row is enriched from the movie it names |
| GetMovies.ListingCoversEveryMovie | movie-download-wishlist-webapp/lambda/src/get_movies.py:77-105 | every stored movie has a row in a listing |
| GetMovies.LambdaHandler | movie-download-wishlist-webapp/lambda/src/get_movies.py:53-115 | missing settings answer 500; a failed scan answers the error table's response; an unexpected exception in any query answers 500; otherwise 200 with the enriched rows newest first; an empty store answers 200 with an empty list |
| GetInterestedUsers.FirstEmail | movie-download-wishlist-webapp/lambda/src/get_interested_users.py:62-66 | the value of the first attribute named `email`, and `None` exactly when there is none |
| GetInterestedUsers.FindEmail | movie-download-wishlist-webapp/lambda/src/get_interested_users.py:62-66 | the loop returns the first email attribute's value |
| GetInterestedUsers.EntryFor | movie-download-wishlist-webapp/lambda/src/get_interested_users.py:53-83 | only the id without a user pool; with one, the user's name and first email, or both `None` when the lookup fails with a ClientError |
| GetInterestedUsers.LambdaHandler | movie-download-wishlist-webapp/lambda/src/get_interested_users.py:12-89 | a missing path id answers 400; missing settings answer 500; a failed query answers the error table's response; an unexpected lookup exception answers 500; otherwise 200 with one entry per queried interest; the store is never changed |
| GetInterestedUsers.EachInterestedUserOnce | movie-download-wishlist-webapp/lambda/src/get_interested_users.py:33-83 | every interested user has exactly one entry and nobody else does; a movie with no interests, or one that does not exist, lists nobody |
| TextToAudio.NormalizeFolder | text-to-audio/terraform/lambda_function.py:13-15 | the folder ends with `/`, and is unchanged if it already did |
| TextToAudio.NormalizeFolderIdempotent | text-to-audio/terraform/lambda_function.py:14-15 | normalising twice is normalising once |
| TextToAudio.FileStem | text-to-audio/terraform/lambda_function.py:27-29 | the last `/`-segment of the key, lower-cased, spaces to `_`, brackets and `.txt` removed; never longer than that segment |
| TextToAudio.FileOut | text-to-audio/terraform/lambda_function.py:27-30 | the file name ends with `.mp3` after the derived stem |
| TextToAudio.UploadKey | text-to-audio/terraform/lambda_function.py:60 | the upload key is the normalised folder followed by the file name |
| TextToAudio.LowerKeepsNonLetter | text-to-audio/terraform/lambda_function.py:29 | lower-casing neither adds nor removes a non-letter character |
| TextToAudio.ReplaceCharPointwise | text-to-audio/terraform/lambda_function.py:29 | replacing `' '` by `'_'` rewrites each space into an underscore and keeps every other character in place |
| TextToAudio.FileStemIsPlain | text-to-audio/terraform/lambda_function.py:27-29 | the stem has no `/`, no space and no bracket |
| TextToAudio.FileOutIsPlain | text-to-audio/terraform/lambda_function.py:27-30 | the file name has no `/`, no space and no bracket |
| TextToAudio.UploadKeyInFolder | text-to-audio/terraform/lambda_function.py:27-60 | the upload key ends with `.mp3` and has no `/` after the folder |
| TextToAudio.StemOfPlainName | text-to-audio/terraform/lambda_function.py:27-29 | for a lower-case key without directory, space or bracket only the `.txt` removal changes the name |
| TextToAudio.TxtCanSurvive | text-to-audio/terraform/lambda_function.py:29 | one left-to-right `.txt` pass can leave a `.txt`: the key `.t.txtxt` gives `.txt.mp3` |

## Left out

- The AWS calls themselves (DynamoDB, Cognito, S3, Polly, SNS). They are foreign calls. The store is an in-memory class, and the calls' answers are parameters.
- Concurrency. The model is single-threaded, so it leaves out two races: an interest added between the index query and the commit of a delete, and a delete racing a create.
- Pagination of `scan` and `query`. The source reads only the first page. The model returns every matching item.
- The 100-item limit of a DynamoDB transaction. The model allows any number of items.
- JSON parsing and serialisation, and `DecimalEncoder`, which uses floating point. The parsed body is a datatype and response bodies are datatypes.
- `uuid4`, `time.time()`, environment-variable reads and logging. The id, the time and the settings are parameters. `USER_POOL_ID` is an optional string, and a lookup that raises because no pool is set counts as a failed lookup.
- The AWS region and the table names beyond their presence check. There is one store instance, so the names do not select anything.
- The handlers check the settings on every call. In the source the client is cached after the first call. The environment is fixed for a process, so the two agree. The cache itself is `ClientCache`.
- PyStr.Lower: only ASCII letters are lower-cased, while Python's `str.lower` maps all of Unicode.
- GetMovies.SortNewestFirst: the contract does not state that the sort is stable. Ties keep the scan order, and that order is unspecified.
- `movie['movieId']` and `interest['userId']` could raise KeyError if a stored record lacked them. Records are typed here, so keys are always present.
- The Polly synthesis, local file write, upload, SNS notice and `sys.exit` paths of text-to-audio/terraform/lambda_function.py.
