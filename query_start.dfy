/**
 * The Lambda that starts the Athena query for un-engaged users: it looks up
 * the configured named query and starts an execution of its text against its
 * database, writing results under the configured bucket.
 */
module QueryStart {
  import opened Wrappers

  /** UNENGAGED_NAMED_QUERY and S3_DESTINATION from the environment. */
  datatype Config = Config(namedQueryId: string, s3Destination: string)

  /** The part of GetNamedQuery's response the handler reads. */
  datatype NamedQuery = NamedQuery(queryString: string, database: string)

  datatype StartQueryExecutionRequest = StartQueryExecutionRequest(
    queryString: string,
    database: string,
    outputLocation: string)

  /** What the handler's promise resolves to. */
  datatype QueryStarted = QueryStarted(queryExecutionId: string, waitTime: int)

  datatype Call =
    | GetNamedQuery(namedQueryId: string)
    | StartQueryExecution(request: StartQueryExecutionRequest)

  const S3Scheme: string := "s3://"

  /** The wait hint handed back to the state machine that drives the handler. */
  const WaitTime: int := 1

  /** The template literal for OutputLocation: the bucket as an S3 folder URL. */
  function OutputLocation(bucket: string): string
  {
    S3Scheme + bucket + "/"
  }

  /** Reads the bucket back from an S3 folder URL, if the text is one. */
  function BucketOf(location: string): Option<string>
  {
    if |location| >= |S3Scheme| + 1 && location[..|S3Scheme|] == S3Scheme && location[|location| - 1] == '/'
    then Some(location[|S3Scheme|..|location| - 1])
    else None
  }

  /** The output location names the configured bucket, and only it. */
  lemma BucketRoundTrip(bucket: string)
    ensures BucketOf(OutputLocation(bucket)) == Some(bucket)
  {
    var location := OutputLocation(bucket);
    assert location[..|S3Scheme|] == S3Scheme;
    assert location[|S3Scheme|..|location| - 1] == bucket;
  }

  /** Every S3 folder URL is the output location of the bucket read from it. */
  lemma LocationRoundTrip(location: string)
    requires BucketOf(location).Some?
    ensures OutputLocation(BucketOf(location).value) == location
  {
    var bucket := BucketOf(location).value;
    assert location == location[..|S3Scheme|] + bucket + [location[|location| - 1]];
  }

  /** The object literal handed to startQueryExecution: the named query's text and database, and the output folder. */
  function StartRequest(config: Config, query: NamedQuery): (req: StartQueryExecutionRequest)
    ensures req.queryString == query.queryString
    ensures req.database == query.database
    ensures BucketOf(req.outputLocation) == Some(config.s3Destination)
  {
    BucketRoundTrip(config.s3Destination);
    StartQueryExecutionRequest(query.queryString, query.database, OutputLocation(config.s3Destination))
  }

  /** The second `then`: the execution id and the wait hint. */
  function Started(queryExecutionId: string): (r: QueryStarted)
    ensures r.queryExecutionId == queryExecutionId
    ensures r.waitTime == WaitTime
  {
    QueryStarted(queryExecutionId, WaitTime)
  }

  /**
   * The handler, with the two Athena operations as parameters. It looks up
   * the configured named query; only if that succeeds does it start one
   * execution, whose id it returns. A failure of either call is passed on.
   */
  function Handle(
    config: Config,
    getNamedQuery: string -> Result<NamedQuery, ServiceError>,
    startQueryExecution: StartQueryExecutionRequest -> Result<string, ServiceError>
  ): (r: Invocation<Call, QueryStarted, ServiceError>)
    ensures 1 <= |r.calls| <= 2 && r.calls[0] == GetNamedQuery(config.namedQueryId)
    ensures |r.calls| == 2 <==> getNamedQuery(config.namedQueryId).Ok?
    ensures getNamedQuery(config.namedQueryId).Err? ==> r.outcome == Err(getNamedQuery(config.namedQueryId).error)
    ensures getNamedQuery(config.namedQueryId).Ok? ==>
              var request := StartRequest(config, getNamedQuery(config.namedQueryId).value);
              && r.calls[1] == StartQueryExecution(request)
              && r.outcome.Ok? == startQueryExecution(request).Ok?
              && (r.outcome.Ok? ==> r.outcome.value == Started(startQueryExecution(request).value))
              && (r.outcome.Err? ==> r.outcome.error == startQueryExecution(request).error)
  {
    var lookup := GetNamedQuery(config.namedQueryId);
    match getNamedQuery(config.namedQueryId)
    case Err(e) => Invocation([lookup], Err(e))
    case Ok(query) =>
      var request := StartRequest(config, query);
      var outcome :=
        match startQueryExecution(request)
        case Err(e) => Err(e)
        case Ok(id) => Ok(Started(id));
      Invocation([lookup, StartQueryExecution(request)], outcome)
  }

  /** Whenever an execution is started, it runs the text of the configured named query against its database, into the configured bucket. */
  lemma StartsConfiguredQuery(
    config: Config,
    getNamedQuery: string -> Result<NamedQuery, ServiceError>,
    startQueryExecution: StartQueryExecutionRequest -> Result<string, ServiceError>,
    i: nat)
    requires var r := Handle(config, getNamedQuery, startQueryExecution);
             i < |r.calls| && r.calls[i].StartQueryExecution?
    ensures getNamedQuery(config.namedQueryId).Ok?
    ensures var r := Handle(config, getNamedQuery, startQueryExecution);
            var query := getNamedQuery(config.namedQueryId).value;
            && r.calls[i].request.queryString == query.queryString
            && r.calls[i].request.database == query.database
            && BucketOf(r.calls[i].request.outputLocation) == Some(config.s3Destination)
  {
  }
}
