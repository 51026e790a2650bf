/**
 * The DynamoDB client wrapper (shared/dynamodb_client.py): the error-code to
 * HTTP-status table, the throttling test, the table-name settings checked on
 * construction, and the lazily created process-wide client.
 */
module DynamoClient {
  import opened Wrappers

  const ConditionalCheckFailedException := "ConditionalCheckFailedException"
  const ResourceNotFoundException := "ResourceNotFoundException"
  const ProvisionedThroughputExceededException := "ProvisionedThroughputExceededException"
  const ValidationException := "ValidationException"
  const TransactionCanceledException := "TransactionCanceledException"

  /** The codes `handle_client_error` singles out. */
  const KnownCodes: set<string> := {ConditionalCheckFailedException, ResourceNotFoundException,
    ProvisionedThroughputExceededException, ValidationException, TransactionCanceledException}

  const InternalServerError := "Internal server error"

  /** `handle_client_error`: the HTTP status and public message for a botocore error code. */
  function HandleClientError(code: string): (r: (int, string))
    ensures r.0 in {400, 404, 409, 500, 503}
    ensures code == ConditionalCheckFailedException ==> r == (409, "Resource conflict or condition not met")
    ensures code == ResourceNotFoundException ==> r == (404, "Resource not found")
    ensures code == ProvisionedThroughputExceededException ==> r == (503, "Service temporarily unavailable, please retry")
    ensures code == ValidationException ==> r == (400, "Invalid request parameters")
    ensures code == TransactionCanceledException ==> r == (500, "Transaction failed, please retry")
    ensures code !in KnownCodes ==> r == (500, InternalServerError)
    // the message is one of six fixed texts: the backend's code never reaches the caller
    ensures r.1 in {"Resource conflict or condition not met", "Resource not found",
                    "Service temporarily unavailable, please retry", "Invalid request parameters",
                    "Transaction failed, please retry", InternalServerError}
  {
    if code == ConditionalCheckFailedException then (409, "Resource conflict or condition not met")
    else if code == ResourceNotFoundException then (404, "Resource not found")
    else if code == ProvisionedThroughputExceededException then (503, "Service temporarily unavailable, please retry")
    else if code == ValidationException then (400, "Invalid request parameters")
    else if code == TransactionCanceledException then (500, "Transaction failed, please retry")
    else (500, InternalServerError)
  }

  /** `is_throttling_error`: exactly the errors the table reports as 503. */
  predicate IsThrottlingError(code: string)
    ensures IsThrottlingError(code) <==> HandleClientError(code).0 == 503
  {
    code == ProvisionedThroughputExceededException
  }

  /** The two table-name settings that `DynamoDBClient.__init__` reads from the environment. */
  datatype Settings = Settings(moviesTableName: Option<string>, interestsTableName: Option<string>)

  /** An absent or empty setting is not set. */
  predicate IsSet(v: Option<string>) {
    v.Some? && v.value != ""
  }

  /** The checks of `DynamoDBClient.__init__`: both table names must be set, the movies one checked first. */
  function CheckSettings(env: Settings): (r: Result<(string, string), string>)
    ensures r.Success? <==> IsSet(env.moviesTableName) && IsSet(env.interestsTableName)
    ensures r.Success? ==> r.value == (env.moviesTableName.value, env.interestsTableName.value)
    ensures !IsSet(env.moviesTableName) ==> r == Failure("MOVIES_TABLE_NAME environment variable not set")
    ensures IsSet(env.moviesTableName) && !IsSet(env.interestsTableName) ==>
              r == Failure("INTERESTS_TABLE_NAME environment variable not set")
  {
    if !IsSet(env.moviesTableName) then Failure("MOVIES_TABLE_NAME environment variable not set")
    else if !IsSet(env.interestsTableName) then Failure("INTERESTS_TABLE_NAME environment variable not set")
    else Success((env.moviesTableName.value, env.interestsTableName.value))
  }

  /** A constructed client: it only exists with both table names set. */
  class DynamoDBClient {
    const moviesTableName: string
    const interestsTableName: string

    constructor (env: Settings)
      requires CheckSettings(env).Success?
      ensures (moviesTableName, interestsTableName) == CheckSettings(env).value
      ensures moviesTableName != "" && interestsTableName != ""
    {
      moviesTableName := env.moviesTableName.value;
      interestsTableName := env.interestsTableName.value;
    }
  }

  /** The module-level `_client` singleton. */
  class ClientCache {
    var client: DynamoDBClient?

    constructor ()
      ensures client == null
    {
      client := null;
    }

    /** `get_dynamodb_client`: construct on first use, then hand out that same instance. */
    method GetDynamoDBClient(env: Settings) returns (r: Result<DynamoDBClient, string>)
      modifies this
      ensures old(client) != null ==> client == old(client) && r == Success(old(client))
      ensures old(client) == null && CheckSettings(env).Failure? ==>
                client == null && r == Failure(CheckSettings(env).error)
      ensures old(client) == null && CheckSettings(env).Success? ==>
                client != null && fresh(client) && r == Success(client) &&
                (client.moviesTableName, client.interestsTableName) == CheckSettings(env).value
    {
      if client == null {
        var checked := CheckSettings(env);
        if checked.Failure? {
          return Failure(checked.error);
        }
        client := new DynamoDBClient(env);
      }
      r := Success(client);
    }
  }

  /** Two calls in a row return the same client, whatever the settings of the second. */
  method SingletonReturnsSameInstance(cache: ClientCache, env1: Settings, env2: Settings)
      returns (first: Result<DynamoDBClient, string>, second: Result<DynamoDBClient, string>)
    modifies cache
    ensures first.Success? ==> second == first
  {
    first := cache.GetDynamoDBClient(env1);
    second := cache.GetDynamoDBClient(env2);
  }
}
