/**
 * The Lambda that runs after a successful import: it tags the imported
 * segment REENGAGEMENT=YES, so that the next run of the import step finds
 * the segment again instead of defining a new one.
 */
module SegmentTag {
  import opened Wrappers
  import SegmentImport

  /** AWS_REGION and APPLICATION_ID from the environment. */
  datatype Config = Config(region: string, applicationId: string)

  /** The event: the ids the import step returned. */
  datatype Event = Event(externalId: string, segmentId: string)

  datatype TagResourceRequest = TagResourceRequest(resourceArn: string, tags: map<string, string>)

  datatype Call = TagResource(request: TagResourceRequest)

  // ---------------------------------------------------------------------
  // The segment's ARN.

  const ArnPrefix: string := "arn:aws:mobiletargeting:"

  /** The template literal for ResourceArn. */
  function SegmentArn(region: string, accountId: string, applicationId: string, segmentId: string): string
  {
    ArnPrefix + region + ":" + accountId + ":apps/" + applicationId + "/segments/" + segmentId
  }

  /** The position of the first d in s. */
  function IndexOf(s: string, d: char): (i: nat)
    requires d in s
    ensures i < |s| && s[i] == d && d !in s[..i]
  {
    if s[0] == d then 0
    else
      var i := 1 + IndexOf(s[1..], d);
      assert s[..i] == [s[0]] + s[1..][..i - 1];
      i
  }

  /** String.prototype.split with a one-character separator. */
  function Split(s: string, d: char): (fields: seq<string>)
    ensures |fields| >= 1
    decreases |s|
  {
    if d !in s then [s]
    else
      var i := IndexOf(s, d);
      [s[..i]] + Split(s[i + 1..], d)
  }

  /** A field without the separator splits off on its own. */
  lemma SplitField(a: string, d: char, b: string)
    requires d !in a
    ensures Split(a + [d] + b, d) == [a] + Split(b, d)
  {
    var s := a + [d] + b;
    assert s[|a|] == d;
    assert s[..|a|] == a && s[|a| + 1..] == b;
  }

  /** The parts of a segment ARN. */
  datatype SegmentRef = SegmentRef(region: string, accountId: string, applicationId: string, segmentId: string)

  /**
   * Reads a segment ARN back: six colon-separated fields, the last of them
   * apps/<application>/segments/<segment>.
   */
  function ParseSegmentArn(arn: string): Option<SegmentRef>
  {
    var fields := Split(arn, ':');
    if |fields| != 6 || fields[0] != "arn" || fields[1] != "aws" || fields[2] != "mobiletargeting" then None
    else
      var path := Split(fields[5], '/');
      if |path| != 4 || path[0] != "apps" || path[2] != "segments" then None
      else Some(SegmentRef(fields[3], fields[4], path[1], path[3]))
  }

  /** The fixed prefix contributes the first three fields. */
  lemma SplitPrefix(x: string)
    ensures Split(ArnPrefix + x, ':') == ["arn", "aws", "mobiletargeting"] + Split(x, ':')
  {
    var y := "mobiletargeting" + [':'] + x;
    var z := "aws" + [':'] + y;
    calc {
      Split(ArnPrefix + x, ':');
      { assert ArnPrefix + x == "arn" + [':'] + z; }
      Split("arn" + [':'] + z, ':');
      { SplitField("arn", ':', z); }
      ["arn"] + Split(z, ':');
      { SplitField("aws", ':', y); }
      ["arn"] + (["aws"] + Split(y, ':'));
      { SplitField("mobiletargeting", ':', x); }
      ["arn"] + (["aws"] + (["mobiletargeting"] + Split(x, ':')));
      ["arn", "aws", "mobiletargeting"] + Split(x, ':');
    }
  }

  /** The ARN splits at the colons of the template: its fifth field is the account id. */
  lemma ArnFields(region: string, accountId: string, applicationId: string, segmentId: string)
    requires ':' !in region && ':' !in accountId
    ensures Split(SegmentArn(region, accountId, applicationId, segmentId), ':')
         == ["arn", "aws", "mobiletargeting", region, accountId]
            + Split("apps/" + applicationId + "/segments/" + segmentId, ':')
  {
    var path := "apps/" + applicationId + "/segments/" + segmentId;
    var rest := accountId + [':'] + path;
    var x := region + [':'] + rest;
    calc {
      Split(SegmentArn(region, accountId, applicationId, segmentId), ':');
      { assert SegmentArn(region, accountId, applicationId, segmentId) == ArnPrefix + x; }
      Split(ArnPrefix + x, ':');
      { SplitPrefix(x); }
      ["arn", "aws", "mobiletargeting"] + Split(x, ':');
      { SplitField(region, ':', rest); }
      ["arn", "aws", "mobiletargeting"] + ([region] + Split(rest, ':'));
      { SplitField(accountId, ':', path); }
      ["arn", "aws", "mobiletargeting"] + ([region] + ([accountId] + Split(path, ':')));
      ["arn", "aws", "mobiletargeting", region, accountId] + Split(path, ':');
    }
  }

  /** With colon-free region and account id, the account id is the text between the fourth and fifth colon. */
  lemma AccountIdField(region: string, accountId: string, applicationId: string, segmentId: string)
    requires ':' !in region && ':' !in accountId
    ensures |Split(SegmentArn(region, accountId, applicationId, segmentId), ':')| >= 6
    ensures Split(SegmentArn(region, accountId, applicationId, segmentId), ':')[3] == region
    ensures Split(SegmentArn(region, accountId, applicationId, segmentId), ':')[4] == accountId
  {
    ArnFields(region, accountId, applicationId, segmentId);
  }

  /** The path of a segment ARN splits at its three slashes. */
  lemma PathFields(applicationId: string, segmentId: string)
    requires '/' !in applicationId && '/' !in segmentId
    ensures Split("apps/" + applicationId + "/segments/" + segmentId, '/') == ["apps", applicationId, "segments", segmentId]
  {
    var tail := "segments" + ['/'] + segmentId;
    var rest := applicationId + ['/'] + tail;
    calc {
      Split("apps/" + applicationId + "/segments/" + segmentId, '/');
      { assert "apps/" + applicationId + "/segments/" + segmentId == "apps" + ['/'] + rest; }
      Split("apps" + ['/'] + rest, '/');
      { SplitField("apps", '/', rest); }
      ["apps"] + Split(rest, '/');
      { SplitField(applicationId, '/', tail); }
      ["apps"] + ([applicationId] + Split(tail, '/'));
      { SplitField("segments", '/', segmentId); }
      ["apps"] + ([applicationId] + (["segments"] + Split(segmentId, '/')));
      ["apps", applicationId, "segments", segmentId];
    }
  }

  /** Ids free of ':' and '/' are read back from the ARN unchanged. */
  lemma ParseArn(region: string, accountId: string, applicationId: string, segmentId: string)
    requires ':' !in region && ':' !in accountId && ':' !in applicationId && ':' !in segmentId
    requires '/' !in applicationId && '/' !in segmentId
    ensures ParseSegmentArn(SegmentArn(region, accountId, applicationId, segmentId))
         == Some(SegmentRef(region, accountId, applicationId, segmentId))
  {
    var arn := SegmentArn(region, accountId, applicationId, segmentId);
    var path := "apps/" + applicationId + "/segments/" + segmentId;
    assert Split(arn, ':') == ["arn", "aws", "mobiletargeting", region, accountId, path] by {
      ArnFields(region, accountId, applicationId, segmentId);
      PathHasNoColon(applicationId, segmentId);
    }
    assert Split(path, '/') == ["apps", applicationId, "segments", segmentId] by {
      PathFields(applicationId, segmentId);
    }
    ReadFields(arn, path, SegmentRef(region, accountId, applicationId, segmentId));
  }

  /** A path built from colon-free ids is a single colon-separated field. */
  lemma PathHasNoColon(applicationId: string, segmentId: string)
    requires ':' !in applicationId && ':' !in segmentId
    ensures Split("apps/" + applicationId + "/segments/" + segmentId, ':') == ["apps/" + applicationId + "/segments/" + segmentId]
  {
    var path := "apps/" + applicationId + "/segments/" + segmentId;
    assert path == "apps/" + (applicationId + ("/segments/" + segmentId));
    assert ':' !in "apps/" && ':' !in "/segments/";
  }

  /** Whatever splits into the fields of the template is read back as those fields. */
  lemma ReadFields(arn: string, path: string, ref: SegmentRef)
    requires Split(arn, ':') == ["arn", "aws", "mobiletargeting", ref.region, ref.accountId, path]
    requires Split(path, '/') == ["apps", ref.applicationId, "segments", ref.segmentId]
    ensures ParseSegmentArn(arn) == Some(ref)
  {
  }

  /** With the configuration and account id fixed, different segments get different ARNs. */
  lemma ArnInjective(region: string, accountId: string, applicationId: string, s1: string, s2: string)
    requires SegmentArn(region, accountId, applicationId, s1) == SegmentArn(region, accountId, applicationId, s2)
    ensures s1 == s2
  {
    var prefix := ArnPrefix + region + ":" + accountId + ":apps/" + applicationId + "/segments/";
    assert SegmentArn(region, accountId, applicationId, s1)[|prefix|..] == s1;
    assert SegmentArn(region, accountId, applicationId, s2)[|prefix|..] == s2;
  }

  /** The ARN starts with the Pinpoint prefix and ends with the segment's path. */
  lemma ArnEnds(region: string, accountId: string, applicationId: string, segmentId: string)
    ensures var arn := SegmentArn(region, accountId, applicationId, segmentId);
            && |arn| >= |ArnPrefix| + |"/segments/" + segmentId|
            && arn[..|ArnPrefix|] == ArnPrefix
            && arn[|arn| - |"/segments/" + segmentId|..] == "/segments/" + segmentId
  {
    var arn := SegmentArn(region, accountId, applicationId, segmentId);
    var middle := region + ":" + accountId + ":apps/" + applicationId;
    assert arn == ArnPrefix + middle + ("/segments/" + segmentId);
  }

  // ---------------------------------------------------------------------
  // The tags and the request.

  /**
   * TagsModel.tags: the single tag REENGAGEMENT=YES, whatever the event.
   * The tag is written out here, as this handler spells it, independently
   * of the import step's constants; TaggedSegmentMatches checks they agree.
   */
  function ReengagementTags(): (tags: map<string, string>)
    ensures |tags.Keys| == 1 && "REENGAGEMENT" in tags
    ensures tags["REENGAGEMENT"] == "YES"
  {
    map["REENGAGEMENT" := "YES"]
  }

  function Request(config: Config, event: Event): TagResourceRequest
  {
    TagResourceRequest(
      SegmentArn(config.region, event.externalId, config.applicationId, event.segmentId),
      ReengagementTags())
  }

  /** The handler: exactly one tagResource call, whose result it returns unchanged. */
  function Handle<R>(
    config: Config,
    event: Event,
    tagResource: TagResourceRequest -> Result<R, ServiceError>
  ): (r: Invocation<Call, R, ServiceError>)
    ensures r.calls == [TagResource(Request(config, event))]
    ensures r.outcome == tagResource(Request(config, event))
  {
    var request := Request(config, event);
    Invocation([TagResource(request)], tagResource(request))
  }

  /** The request names the segment the event identifies. */
  lemma RequestTargetsSegment(config: Config, event: Event)
    requires ':' !in config.region && ':' !in config.applicationId && '/' !in config.applicationId
    requires ':' !in event.externalId && ':' !in event.segmentId && '/' !in event.segmentId
    ensures ParseSegmentArn(Request(config, event).resourceArn)
         == Some(SegmentRef(config.region, event.externalId, config.applicationId, event.segmentId))
  {
    ParseArn(config.region, event.externalId, config.applicationId, event.segmentId);
  }

  // ---------------------------------------------------------------------
  // What tagging does to the segment.

  /** TagResource adds the given tags to the resource's tags, replacing values under the same keys. */
  function Tagged(s: SegmentImport.Segment, tags: map<string, string>): SegmentImport.Segment
  {
    var existing := if s.tags.Some? then s.tags.value else map[];
    s.(tags := Some(existing + tags))
  }

  /** Tagging twice leaves the segment as tagging once does. */
  lemma TagIdempotent(s: SegmentImport.Segment)
    ensures Tagged(Tagged(s, ReengagementTags()), ReengagementTags()) == Tagged(s, ReengagementTags())
  {
    var once := Tagged(s, ReengagementTags());
    assert once.tags.value + ReengagementTags() == once.tags.value;
  }

  /** A tagged IMPORT segment is one the import step's scan accepts: the two spellings of the tag agree. */
  lemma TaggedSegmentMatches(s: SegmentImport.Segment)
    requires s.segmentType == SegmentImport.ImportType
    ensures SegmentImport.Matches(Tagged(s, ReengagementTags())) == Some(true)
  {
  }
}
