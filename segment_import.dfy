/**
 * The Lambda that imports the un-engaged users' CSV into Pinpoint. It lists
 * the application's segments, takes the first IMPORT segment tagged
 * REENGAGEMENT=YES, and starts one import job: into that segment if there is
 * one, otherwise into a new segment under the configured name. The job
 * response is mapped to the ids the next step needs and a constant wait time.
 */
module SegmentImport {
  import opened Wrappers

  const ImportType: string := "IMPORT"
  const TagName: string := "REENGAGEMENT"
  const TagValue: string := "YES"
  const CsvFormat: string := "CSV"
  /** The wait hint this handler hands back to the state machine that drives it. */
  const WaitTime: int := 1

  /** A segment as getSegments lists it; a segment without tags has no tags map at all. */
  datatype Segment = Segment(id: string, segmentType: string, tags: Option<map<string, string>>)

  /** APPLICATION_ID, ROLE_ARN and SEGMENT_NAME from the environment. */
  datatype Config = Config(applicationId: string, roleArn: string, segmentName: string)

  /** The event: where the finished query left its CSV. */
  datatype Event = Event(outputLocation: string)

  /** ImportJobRequest; a field that the object literal does not set is None. */
  datatype ImportJobRequest = ImportJobRequest(
    format: string,
    roleArn: string,
    s3Url: string,
    segmentId: Option<string>,
    defineSegment: Option<bool>,
    segmentName: Option<string>)

  datatype CreateImportJobRequest = CreateImportJobRequest(applicationId: string, importJobRequest: ImportJobRequest)

  datatype ImportJobDefinition = ImportJobDefinition(segmentId: string, externalId: string)

  /** The part of ImportJobResponse the handler reads. */
  datatype ImportJobResponse = ImportJobResponse(id: string, definition: ImportJobDefinition)

  /** What the handler's promise resolves to. */
  datatype ImportStarted = ImportStarted(importId: string, segmentId: string, externalId: string, waitTime: int)

  datatype Call =
    | GetSegments(applicationId: string)
    | CreateImportJob(request: CreateImportJobRequest)

  datatype Failure =
      /** A Pinpoint call failed; its error is passed on unchanged. */
    | ServiceFailure(error: ServiceError)
      /** The TypeError from reading tags.REENGAGEMENT of the IMPORT segment at this index, which has no tags. */
    | MissingTags(index: nat)

  // ---------------------------------------------------------------------
  // Segment resolution.

  /**
   * The predicate given to `find`: Some(true) or Some(false), or None where
   * evaluating it throws. The `&&` reads the tags only of IMPORT segments.
   */
  function Matches(s: Segment): Option<bool>
  {
    if s.segmentType != ImportType then Some(false)
    else match s.tags
      case None => None
      case Some(tags) => Some(TagName in tags && tags[TagName] == TagValue)
  }

  /**
   * Array.prototype.find with that predicate, as an index: the first
   * segment it accepts, None if it accepts none, or Err(i) when it throws at
   * segment i.
   */
  function FirstMatch(segments: seq<Segment>): (r: Result<Option<nat>, nat>)
    ensures r.Ok? && r.value.Some? ==>
              && r.value.value < |segments|
              && Matches(segments[r.value.value]) == Some(true)
              && forall j | 0 <= j < r.value.value :: Matches(segments[j]) == Some(false)
    ensures r == Ok(None) <==> forall j | 0 <= j < |segments| :: Matches(segments[j]) == Some(false)
    ensures r.Err? ==>
              && r.error < |segments|
              && Matches(segments[r.error]).None?
              && forall j | 0 <= j < r.error :: Matches(segments[j]) == Some(false)
  {
    if segments == [] then Ok(None)
    else match Matches(segments[0])
      case None => Err(0)
      case Some(true) => Ok(Some(0))
      case Some(false) =>
        match FirstMatch(segments[1..])
        case Err(i) => Err(i + 1)
        case Ok(None) => Ok(None)
        case Ok(Some(i)) => Ok(Some(i + 1))
  }

  /** The segment `find` returns, or undefined (None), or the TypeError it throws. */
  function FindSegment(segments: seq<Segment>): Result<Option<Segment>, Failure>
  {
    match FirstMatch(segments)
    case Err(i) => Err(MissingTags(i))
    case Ok(None) => Ok(None)
    case Ok(Some(i)) => Ok(Some(segments[i]))
  }

  /**
   * A qualifying segment is found when every segment before it is an
   * evaluated non-match, whatever follows it (untagged IMPORT segments included).
   */
  lemma MatchFound(segments: seq<Segment>, k: nat)
    requires k < |segments| && Matches(segments[k]) == Some(true)
    requires forall j | 0 <= j < k :: Matches(segments[j]) == Some(false)
    ensures FindSegment(segments) == Ok(Some(segments[k]))
  {
    var r := FirstMatch(segments);
    if r.Ok? && r.value.Some? {
      assert r.value.value == k;
    }
  }

  /** A segment that qualifies, anywhere after a first one, never changes the answer: the first wins. */
  lemma FirstWins(segments: seq<Segment>, later: seq<Segment>)
    requires FirstMatch(segments).Ok? && FirstMatch(segments).value.Some?
    ensures FindSegment(segments + later) == FindSegment(segments)
  {
    var i := FirstMatch(segments).value.value;
    var all := segments + later;
    assert all[i] == segments[i];
    assert forall j | 0 <= j < i :: all[j] == segments[j];
    var r := FirstMatch(all);
    if r.Ok? && r.value.Some? {
      assert r.value.value == i;
    }
  }

  // ---------------------------------------------------------------------
  // The import request.

  /** The two object literals handed to createImportJob. */
  function ImportRequest(config: Config, event: Event, found: Option<Segment>): (req: CreateImportJobRequest)
    ensures req.applicationId == config.applicationId
    ensures req.importJobRequest.format == CsvFormat
    ensures req.importJobRequest.roleArn == config.roleArn
    ensures req.importJobRequest.s3Url == event.outputLocation
    ensures found.Some? ==>
              && req.importJobRequest.segmentId == Some(found.value.id)
              && req.importJobRequest.defineSegment.None?
              && req.importJobRequest.segmentName.None?
    ensures found.None? ==>
              && req.importJobRequest.segmentId.None?
              && req.importJobRequest.defineSegment == Some(true)
              && req.importJobRequest.segmentName == Some(config.segmentName)
  {
    var job :=
      if found.Some? then
        ImportJobRequest(CsvFormat, config.roleArn, event.outputLocation, Some(found.value.id), None, None)
      else
        ImportJobRequest(CsvFormat, config.roleArn, event.outputLocation, None, Some(true), Some(config.segmentName));
    CreateImportJobRequest(config.applicationId, job)
  }

  /** Where an import job puts its users. */
  datatype Destination = ExistingSegment(segmentId: string) | NewSegment(name: string)

  /**
   * How Pinpoint reads an ImportJobRequest: into the segment it names, or,
   * with DefineSegment true and a name, into a new segment; any other
   * combination names no destination.
   */
  function DestinationOf(job: ImportJobRequest): Option<Destination>
  {
    match (job.segmentId, job.defineSegment, job.segmentName)
    case (Some(id), None, None) => Some(ExistingSegment(id))
    case (None, Some(true), Some(name)) => Some(NewSegment(name))
    case _ => None
  }

  /** Every request the handler builds names exactly one destination, and it is the one the scan chose. */
  lemma RequestDestination(config: Config, event: Event, found: Option<Segment>)
    ensures DestinationOf(ImportRequest(config, event, found).importJobRequest)
         == Some(if found.Some? then ExistingSegment(found.value.id) else NewSegment(config.segmentName))
  {
  }

  /** The second `then`: the ids the tagging step needs, and the wait hint. */
  function Started(response: ImportJobResponse): (r: ImportStarted)
    ensures r.importId == response.id
    ensures r.segmentId == response.definition.segmentId
    ensures r.externalId == response.definition.externalId
    ensures r.waitTime == WaitTime
  {
    ImportStarted(response.id, response.definition.segmentId, response.definition.externalId, WaitTime)
  }

  // ---------------------------------------------------------------------
  // The handler.

  /** getSegments and the scan over its items: the segment to import into, if any. */
  function Resolve(config: Config, getSegments: string -> Result<seq<Segment>, ServiceError>): Result<Option<Segment>, Failure>
  {
    match getSegments(config.applicationId)
    case Err(e) => Err(ServiceFailure(e))
    case Ok(segments) => FindSegment(segments)
  }

  /**
   * The handler, with the two Pinpoint operations as parameters. It lists the
   * segments first; only if that and the scan succeed does it issue exactly
   * one createImportJob, whose response it maps to ImportStarted.
   */
  function Handle(
    config: Config,
    event: Event,
    getSegments: string -> Result<seq<Segment>, ServiceError>,
    createImportJob: CreateImportJobRequest -> Result<ImportJobResponse, ServiceError>
  ): (r: Invocation<Call, ImportStarted, Failure>)
    ensures 1 <= |r.calls| <= 2 && r.calls[0] == GetSegments(config.applicationId)
    ensures |r.calls| == 2 <==> Resolve(config, getSegments).Ok?
    ensures Resolve(config, getSegments).Err? ==> r.outcome == Err(Resolve(config, getSegments).error)
    ensures Resolve(config, getSegments).Ok? ==>
              var request := ImportRequest(config, event, Resolve(config, getSegments).value);
              && r.calls[1] == CreateImportJob(request)
              && r.outcome.Ok? == createImportJob(request).Ok?
              && (r.outcome.Ok? ==> r.outcome.value == Started(createImportJob(request).value))
              && (r.outcome.Err? ==> r.outcome.error == ServiceFailure(createImportJob(request).error))
  {
    var list := GetSegments(config.applicationId);
    match Resolve(config, getSegments)
    case Err(failure) => Invocation([list], Err(failure))
    case Ok(found) =>
      var request := ImportRequest(config, event, found);
      var outcome :=
        match createImportJob(request)
        case Err(e) => Err(ServiceFailure(e))
        case Ok(response) => Ok(Started(response));
      Invocation([list, CreateImportJob(request)], outcome)
  }

  /** The handler imports into the tagged segment exactly when the scan finds one. */
  lemma ImportTarget(
    config: Config,
    event: Event,
    getSegments: string -> Result<seq<Segment>, ServiceError>,
    createImportJob: CreateImportJobRequest -> Result<ImportJobResponse, ServiceError>,
    segments: seq<Segment>)
    requires getSegments(config.applicationId) == Ok(segments) && FirstMatch(segments).Ok?
    ensures var r := Handle(config, event, getSegments, createImportJob);
            && |r.calls| == 2 && r.calls[1].CreateImportJob?
            && DestinationOf(r.calls[1].request.importJobRequest)
               == Some(match FirstMatch(segments).value
                       case Some(i) => ExistingSegment(segments[i].id)
                       case None => NewSegment(config.segmentName))
  {
    RequestDestination(config, event, FindSegment(segments).value);
  }
}
