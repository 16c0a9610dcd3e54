# pinpoint-re-engagement, modelled in Dafny

The system re-engages inactive users of an Amazon Pinpoint application. Its
core is four AWS Lambda handlers. A state machine runs the first three in
turn; the fourth transforms the records of a delivery stream:

- **QueryStartUnEngaged** looks up the configured Athena named query and
  starts one execution of it. The execution writes its CSV under the
  configured S3 bucket.
- **QueryImportSegmentUnEngaged** lists the application's segments. It takes
  the first IMPORT segment tagged `REENGAGEMENT=YES` and starts one import
  job for the query's CSV: into that segment if there is one, otherwise into
  a new segment under the configured name.
- **ImportSuccessTag** tags the segment the import created or filled with
  `REENGAGEMENT=YES`, so the next run of the import step finds it again.
- **FirehoseRecordConversion** is the delivery-stream transformation. Every
  record's payload is base64-decoded, read as ASCII, parsed as JSON, written
  back as compact JSON plus a line feed, and base64-encoded again. The record
  keeps its id and is marked `Ok`.

Every handler is pure computation, around service calls in the first three.
The model is therefore datatypes, functions and lemmas:

- Each AWS operation (`getSegments`, `createImportJob`, `tagResource`,
  `getNamedQuery`, `startQueryExecution`) is a function parameter of its
  handler.
- The three handlers that call Pinpoint or Athena return an `Invocation`:
  the calls issued, in order, and the outcome the handler's promise settles
  with.
- The Firehose handler calls no service. It returns a `Result`: the
  converted records, or the first `BatchFailure`.
- The environment variables the handlers read are a `Config` value.

Modules:

| module | file | what it holds |
|---|---|---|
| `Wrappers` | wrappers.dfy | `Option`, `Result`, the opaque `ServiceError`, `Invocation` |
| `Base64` | base64.dfy | base64 of section 4 of RFC 4648, encoder and strict decoder, proved inverse |
| `JsonLexical` | json_lexical.dfy | JSON whitespace, integers and strings (RFC 8259), parser and writer |
| `Json` | json.dfy | JSON values, JavaScript property order, `JSON.parse` and `JSON.stringify` |
| `RecordConversion` | record_conversion.dfy | the Firehose transformation |
| `SegmentImport` | segment_import.dfy | the segment scan and the import request |
| `SegmentTag` | segment_tag.dfy | the segment ARN and the tagging request |
| `QueryStart` | query_start.dfy | the named-query lookup and the query execution |

`JSON.parse` and `JSON.stringify` are modelled concretely, so the round trip
is a theorem rather than an assumption. The model covers ASCII text and
integers of magnitude at most 2^53. Where `JSON.parse`
throws before any token outside that range, the parser answers
`SyntaxError`. Some tokens are well formed but outside the range: a fraction
or an exponent, an integer beyond 2^53, or a character above U+007F. At the
first of those the parser stops and answers `OutsideModel`. `JSON.parse` may
accept or reject such a text, depending on what follows the token.

An object value is its list of own properties, in the order a JavaScript
object enumerates them:

- keys that are array indices come first, in ascending order;
- the other keys follow in the order they were first defined;
- a repeated key in the text keeps its first position and takes its last
  value.

## Model

| member | source | states |
|---|---|---|
| Base64.DigitRoundTrip | lambdas/FirehoseRecordConversionLambda.js:3 | a base64 digit and its value determine each other; '=' is no digit |
| Base64.DigitStringRoundTrip | lambdas/FirehoseRecordConversionLambda.js:5 | reading the digits written for any values gives the values back |
| Base64.DigitValuesCanonical | lambdas/FirehoseRecordConversionLambda.js:3 | a digit text that reads is exactly the text written for what it reads to |
| Base64.ToValues | lambdas/FirehoseRecordConversionLambda.js:5 | n bytes make four values per full group and one more than the bytes of a final partial group |
| Base64.GroupArithmetic | lambdas/FirehoseRecordConversionLambda.js:5 | the four sextets of a 3-byte group recombine into its three bytes |
| Base64.GroupCanonical | lambdas/FirehoseRecordConversionLambda.js:3 | any four sextets are the split of the three bytes they recombine to |
| Base64.FromToValues | lambdas/FirehoseRecordConversionLambda.js:3-5 | values computed from bytes convert back to exactly those bytes |
| Base64.ToFromValues | lambdas/FirehoseRecordConversionLambda.js:3-5 | values that convert to bytes are exactly the values of those bytes: no two value strings decode alike |
| Base64.TextLength | lambdas/FirehoseRecordConversionLambda.js:5 | an encoding of n bytes is 4 * ceil(n / 3) characters, a multiple of four |
| Base64.Padding | lambdas/FirehoseRecordConversionLambda.js:5 | the padding is (3 - n mod 3) mod 3 '=' characters |
| Base64.Encode | lambdas/FirehoseRecordConversionLambda.js:5 | toString('base64'): the digits of the bytes' values, then the padding; EncodeShape and TextLength state its length and shape, DecodeIsInverse that it is the one text decoding to the bytes |
| Base64.Decode | lambdas/FirehoseRecordConversionLambda.js:3 | the base64 decoding of new Buffer(data, 'base64'); partner lemmas DecodeEncode, EncodeDecode and DecodeIsInverse state it accepts exactly the encodings and returns their bytes |
| Base64.EncodeShape | lambdas/FirehoseRecordConversionLambda.js:5 | an encoding is a multiple of four long, ends in exactly its padding, and its digits are the bytes' values |
| Base64.DecodeEncode | lambdas/FirehoseRecordConversionLambda.js:3-5 | decoding the encoding of any bytes gives those bytes |
| Base64.EncodeDecode | lambdas/FirehoseRecordConversionLambda.js:3-5 | a text that decodes is the encoding of what it decodes to |
| Base64.DecodeIsInverse | lambdas/FirehoseRecordConversionLambda.js:3-5 | Decode(s) == Some(bytes) if and only if Encode(bytes) == s |
| Base64.EncodeFullGroup | lambdas/FirehoseRecordConversionLambda.js:5 | "Man" encodes as "TWFu", fixing the alphabet and the bit order of section 4 of RFC 4648 |
| Base64.EncodePaddedGroup | lambdas/FirehoseRecordConversionLambda.js:5 | "foob" encodes as "Zm9vYg==", a test vector of section 10 of RFC 4648 with its padding |
| JsonLexical.SkipLeadingWhitespace | lambdas/FirehoseRecordConversionLambda.js:3 | whitespace in front of a text does not change where JSON.parse resumes |
| JsonLexical.SkippedIsWhitespace | lambdas/FirehoseRecordConversionLambda.js:3 | what is skipped before a token is all whitespace |
| JsonLexical.NaturalTextValue | lambdas/FirehoseRecordConversionLambda.js:5 | the decimal text written for n denotes n |
| JsonLexical.CanonicalText | lambdas/FirehoseRecordConversionLambda.js:3-5 | a digit string without leading zero is the text written for its own value |
| JsonLexical.CanonicalInjective | lambdas/FirehoseRecordConversionLambda.js:3 | two canonical digit strings of equal value are equal |
| JsonLexical.LeadingDigitsOf | lambdas/FirehoseRecordConversionLambda.js:3 | the digit run of a number ends exactly where a non-digit follows |
| JsonLexical.ParseNumber | lambdas/FirehoseRecordConversionLambda.js:3 | a number read is an integer of magnitude at most 2^53, and reading consumes text; which texts are rejected is stated by LeadingZero, NumberTail and ParseMagnitudeOf |
| JsonLexical.ParseNumberText | lambdas/FirehoseRecordConversionLambda.js:3-5 | reading the text written for an exact integer gives the integer and leaves the rest |
| JsonLexical.ParseMagnitudeOf | lambdas/FirehoseRecordConversionLambda.js:3 | the digits of m followed by text: an integer when the number ends there, SyntaxError for a malformed fraction or exponent, OutsideModel for a well-formed one or a magnitude above 2^53 |
| JsonLexical.LeadingZero | lambdas/FirehoseRecordConversionLambda.js:3 | JSON.parse rejects a digit after a leading zero, with or without a minus sign |
| JsonLexical.NumberTail | lambdas/FirehoseRecordConversionLambda.js:3 | after a number's digits, a malformed fraction or exponent is a SyntaxError and a well-formed one is OutsideModel |
| JsonLexical.FractionAndExponentCases | lambdas/FirehoseRecordConversionLambda.js:3 | "1.", "1.e5", "1e" and "1e+" are malformed tails; "1.5", "1e+5" and "1.5E-1" are well formed |
| JsonLexical.HexRoundTrip | lambdas/FirehoseRecordConversionLambda.js:3-5 | a hex digit written for d reads back as d |
| JsonLexical.ParseEscapedChar | lambdas/FirehoseRecordConversionLambda.js:3-5 | an ASCII character, escaped as JSON.stringify escapes it, reads back as itself |
| JsonLexical.ParseChars | lambdas/FirehoseRecordConversionLambda.js:3 | string content read from a text is ASCII and consumes text |
| JsonLexical.ParseEscaped | lambdas/FirehoseRecordConversionLambda.js:3-5 | the escaped text of an ASCII string reads back as that string, up to its closing quote |
| JsonLexical.EscapeShape | lambdas/FirehoseRecordConversionLambda.js:5 | escaping leaves no raw line feed and keeps ASCII text ASCII |
| JsonLexical.NumberTextShape | lambdas/FirehoseRecordConversionLambda.js:5 | the text of a number is ASCII and has no line feed |
| Json.Find | lambdas/FirehoseRecordConversionLambda.js:3 | the position found holds the key, and none is found exactly when no member has the key |
| Json.Slot | lambdas/FirehoseRecordConversionLambda.js:3 | a new array-index key goes after every smaller index key and before everything else |
| Json.SlotBound | lambdas/FirehoseRecordConversionLambda.js:3 | every member past the slot may be listed after the new index key |
| Json.DefineExisting | lambdas/FirehoseRecordConversionLambda.js:3 | a repeated key stays where it is and takes the new value (ms[i := m]), and the order stays JavaScript's |
| Json.DefineIndexOrder | lambdas/FirehoseRecordConversionLambda.js:3 | inserting a new array-index key at its slot keeps JavaScript's enumeration order |
| Json.InsertedMembers | lambdas/FirehoseRecordConversionLambda.js:3 | inserting a member adds exactly that member to the multiset of members |
| Json.DefineIndex | lambdas/FirehoseRecordConversionLambda.js:3 | a new array-index key is inserted at its slot (ms[..p] + [m] + ms[p..]), so every other member keeps its relative order; the result is in JavaScript order and defines exactly that property |
| Json.DefineOther | lambdas/FirehoseRecordConversionLambda.js:3 | a new key that is no array index is appended (ms + [m]), the order kept and exactly that property defined |
| Json.DefineNormal | lambdas/FirehoseRecordConversionLambda.js:3 | defining any property keeps JavaScript's order, holds the new member, keeps every other member and adds nothing else |
| Json.DefineAllNormal | lambdas/FirehoseRecordConversionLambda.js:3 | defining an object literal's members one by one keeps the order, and every member comes from the inputs |
| Json.DefineAppends | lambdas/FirehoseRecordConversionLambda.js:3 | a member that may come last is appended |
| Json.DefineAllAppends | lambdas/FirehoseRecordConversionLambda.js:3 | members already in enumeration order are defined as written |
| Json.Define | lambdas/FirehoseRecordConversionLambda.js:3 | one property definition as JSON.parse makes it; DefineNormal, DefineExisting, DefineIndex, DefineOther and DefineLookup state its effect |
| Json.DefineAll | lambdas/FirehoseRecordConversionLambda.js:3 | the members of an object literal defined in written order; DefineAllNormal and DefineAllLookup state the object it builds |
| Json.LookupMember | lambdas/FirehoseRecordConversionLambda.js:3 | in a member list with distinct keys, each member is what its key looks up |
| Json.DefineLookup | lambdas/FirehoseRecordConversionLambda.js:3 | after a definition, its key looks up the new value and every other key what it looked up before |
| Json.DefineAllLookup | lambdas/FirehoseRecordConversionLambda.js:3 | after defining written members in order, a key looks up the value of its last written member, or what it looked up before |
| Json.ParsedLookup | lambdas/FirehoseRecordConversionLambda.js:3 | in the object JSON.parse builds, a repeated key takes its last value and a key never written is absent |
| Json.DefinedObject | lambdas/FirehoseRecordConversionLambda.js:3 | the object JSON.parse builds from well-formed members is well formed |
| Json.ParseValue | lambdas/FirehoseRecordConversionLambda.js:3 | a value read is well formed and reading consumes text |
| Json.Parse | lambdas/FirehoseRecordConversionLambda.js:3 | every value JSON.parse yields in the model is well formed |
| Json.StringifyStart | lambdas/FirehoseRecordConversionLambda.js:5 | the text of a value is never empty and starts as a value starts |
| Json.ParseStringify | lambdas/FirehoseRecordConversionLambda.js:3-5 | reading the text JSON.stringify writes for a well-formed value gives the value and leaves what follows |
| Json.ParseArrayText | lambdas/FirehoseRecordConversionLambda.js:3-5 | reading the items written for an array, up to its bracket, gives the array |
| Json.ParseObjectText | lambdas/FirehoseRecordConversionLambda.js:3-5 | reading the members written for an object in JavaScript order gives the same object |
| Json.ParseMemberText | lambdas/FirehoseRecordConversionLambda.js:3-5 | reading the text written for a member gives the member |
| Json.ParseOfStringify | lambdas/FirehoseRecordConversionLambda.js:3-5 | JSON.parse(JSON.stringify(v) + whitespace) == v for every well-formed v |
| Json.StringifyShape | lambdas/FirehoseRecordConversionLambda.js:5 | JSON.stringify writes no line feed, and writes ASCII for a well-formed value |
| Json.Stringify | lambdas/FirehoseRecordConversionLambda.js:5 | JSON.stringify without replacer or indentation; ParseOfStringify (its inverse), StringifyStart and StringifyShape state its contract |
| RecordConversion.AsciiDecode | lambdas/FirehoseRecordConversionLambda.js:3 | toString('ascii') gives one character per byte, the byte with its top bit cleared |
| RecordConversion.Utf8CharLength | lambdas/FirehoseRecordConversionLambda.js:5 | a character is one byte, its own code, exactly when it is ASCII, and otherwise all its bytes have the top bit set |
| RecordConversion.AsciiRoundTrip | lambdas/FirehoseRecordConversionLambda.js:3-5 | on ASCII text, Buffer.from and toString('ascii') undo each other |
| RecordConversion.Utf8Encode | lambdas/FirehoseRecordConversionLambda.js:5 | Buffer.from of the text; Utf8CharLength and AsciiRoundTrip state that on ASCII it is one byte per character, undone by toString('ascii') |
| RecordConversion.PayloadText | lambdas/FirehoseRecordConversionLambda.js:3 | the text JSON.parse receives: the ASCII reading of the base64-decoded payload; ConvertedRecord states it for converted records |
| RecordConversion.ConvertRecord | lambdas/FirehoseRecordConversionLambda.js:3-7 | one iteration of the map; ConvertedRecord, ConvertIdempotent and Handler state what it yields and when it fails |
| RecordConversion.Handler | lambdas/FirehoseRecordConversionLambda.js:2-10 | the batch succeeds exactly when every record converts; it is then the converted records in input order, and otherwise the first record that fails and why |
| RecordConversion.ConvertedRecord | lambdas/FirehoseRecordConversionLambda.js:3-7 | a converted record keeps its id, is marked Ok, and its payload decodes to the compact JSON of the parsed input plus a line feed |
| RecordConversion.OutputIsOneLine | lambdas/FirehoseRecordConversionLambda.js:5 | the text written for a record ends in its only line feed |
| RecordConversion.OutputParsesBack | lambdas/FirehoseRecordConversionLambda.js:3-5 | JSON.parse reads the written text back as the same value |
| RecordConversion.ConvertIdempotent | lambdas/FirehoseRecordConversionLambda.js:3-7 | converting a converted record again gives the identical record |
| RecordConversion.HandlerIdempotent | lambdas/FirehoseRecordConversionLambda.js:2-10 | handling a converted batch again gives the identical batch |
| RecordConversion.SameConversions | lambdas/FirehoseRecordConversionLambda.js:2-10 | two batches whose records convert alike are handled alike |
| SegmentImport.FirstMatch | lambdas/QueryImportSegmentUnEngagedLambda.js:14 | find gives the first IMPORT segment tagged REENGAGEMENT=YES, none exactly when no segment qualifies, or throws at the first untagged IMPORT segment before any match |
| SegmentImport.Matches | lambdas/QueryImportSegmentUnEngagedLambda.js:14 | the find predicate: tags are read only of IMPORT segments, and reading them throws when they are missing; FirstMatch and TaggedSegmentMatches state its use |
| SegmentImport.FindSegment | lambdas/QueryImportSegmentUnEngagedLambda.js:14 | the segment find returns, undefined, or the TypeError; MatchFound and FirstWins state which |
| SegmentImport.Resolve | lambdas/QueryImportSegmentUnEngagedLambda.js:10-14 | getSegments then the scan; Handle and ImportTarget state how its result decides the request |
| SegmentImport.MatchFound | lambdas/QueryImportSegmentUnEngagedLambda.js:14 | a qualifying segment with only evaluated non-matches before it is found, whatever follows it |
| SegmentImport.FirstWins | lambdas/QueryImportSegmentUnEngagedLambda.js:14 | segments after the first match never change the answer |
| SegmentImport.ImportRequest | lambdas/QueryImportSegmentUnEngagedLambda.js:15-38 | the request is CSV, with the configured application and role and the event's S3 URL; it names the found segment, or otherwise defines a new one under the configured name |
| SegmentImport.RequestDestination | lambdas/QueryImportSegmentUnEngagedLambda.js:15-38 | every request names exactly one destination: the found segment, or the new named segment |
| SegmentImport.Started | lambdas/QueryImportSegmentUnEngagedLambda.js:44-49 | the result carries the job's id, segment id and external id, and a wait time of 1 |
| SegmentImport.Handle | lambdas/QueryImportSegmentUnEngagedLambda.js:10-50 | getSegments first; createImportJob once, and only if listing and scanning succeed; the outcome is its mapped response, or the first failure |
| SegmentImport.ImportTarget | lambdas/QueryImportSegmentUnEngagedLambda.js:10-38 | the handler imports into the tagged segment exactly when the scan finds one, otherwise into a new one |
| SegmentTag.IndexOf | lambdas/ImportSuccessTagLambda.js:8 | the position of the first separator |
| SegmentTag.SegmentArn | lambdas/ImportSuccessTagLambda.js:8 | the ARN template; ParseArn (its inverse), ArnFields, ArnInjective and ArnEnds state its contract |
| SegmentTag.SplitField | lambdas/ImportSuccessTagLambda.js:8 | a field without the separator splits off on its own |
| SegmentTag.ArnFields | lambdas/ImportSuccessTagLambda.js:8 | the ARN's colon-separated fields are arn, aws, mobiletargeting, the region, the account id, then the path |
| SegmentTag.AccountIdField | lambdas/ImportSuccessTagLambda.js:8 | the event's ExternalId is the ARN's account-id field |
| SegmentTag.PathFields | lambdas/ImportSuccessTagLambda.js:8 | the resource path splits into apps, the application id, segments and the segment id |
| SegmentTag.ParseArn | lambdas/ImportSuccessTagLambda.js:8 | the ARN reads back to the region, account, application and segment it was built from |
| SegmentTag.ArnInjective | lambdas/ImportSuccessTagLambda.js:8 | with everything else fixed, different segments get different ARNs |
| SegmentTag.ArnEnds | lambdas/ImportSuccessTagLambda.js:8 | the ARN starts with the Pinpoint prefix and ends with the segment's path |
| SegmentTag.ReengagementTags | lambdas/ImportSuccessTagLambda.js:9-13 | the tags are exactly REENGAGEMENT=YES |
| SegmentTag.Request | lambdas/ImportSuccessTagLambda.js:7-13 | the tagResource request; RequestTargetsSegment states its ARN names the event's segment and ReengagementTags its tags |
| SegmentTag.Handle | lambdas/ImportSuccessTagLambda.js:6-16 | exactly one tagResource call, for the event's segment, whose result is returned unchanged |
| SegmentTag.RequestTargetsSegment | lambdas/ImportSuccessTagLambda.js:8-13 | the request's ARN names the segment of the event |
| SegmentTag.TagIdempotent | lambdas/ImportSuccessTagLambda.js:9-13 | tagging twice leaves the segment as tagging once does |
| SegmentTag.TaggedSegmentMatches | lambdas/ImportSuccessTagLambda.js:9-13 | a tagged IMPORT segment is one the import step's scan accepts: the tag this handler writes is the tag QueryImportSegmentUnEngagedLambda.js:14 looks for, each spelled in its own module |
| QueryStart.BucketRoundTrip | lambdas/QueryStartUnEngagedLambda.js:15 | the output location reads back to its bucket |
| QueryStart.OutputLocation | lambdas/QueryStartUnEngagedLambda.js:15 | the S3 folder URL of the bucket; BucketRoundTrip and LocationRoundTrip state it is inverse to BucketOf |
| QueryStart.LocationRoundTrip | lambdas/QueryStartUnEngagedLambda.js:15 | every S3 folder URL is the output location of its bucket |
| QueryStart.StartRequest | lambdas/QueryStartUnEngagedLambda.js:9-17 | the named query's text and database are forwarded, and the output location names the configured bucket |
| QueryStart.Started | lambdas/QueryStartUnEngagedLambda.js:21 | the result carries the execution id and a wait time of 1 |
| QueryStart.Handle | lambdas/QueryStartUnEngagedLambda.js:6-23 | getNamedQuery for the configured id first; startQueryExecution once, and only if the lookup succeeds; the outcome is its mapped response, or the first failure |
| QueryStart.StartsConfiguredQuery | lambdas/QueryStartUnEngagedLambda.js:7-17 | any execution started runs the configured named query's text and database into the configured bucket |

## Left out

- The AWS SDK is not modelled: clients, `AWS.config.update` and the region
  setting, and `.promise()`. The service operations are parameters, and a
  rejected call is an opaque `ServiceError` that the handler passes on.
- `console.log` of the service responses has no effect on any result and is
  not modelled.
- `process.env` is a `Config` value. Unset variables, which JavaScript reads
  as `undefined`, are not modelled.
- Pagination of `getSegments` is not modelled: the scan sees the items of
  the one response.
- A response missing a field the handlers read is not modelled: no
  `SegmentsResponse.Item`, no `ImportJobResponse.Definition`, or no
  `NamedQuery`. JavaScript would throw a TypeError there.
- Pinpoint's and Athena's own behaviour is outside the code. Two functions
  stand in for it:
  - `SegmentTag.Tagged` models TagResource as adding and overwriting tags;
  - `SegmentImport.DestinationOf` models how an import job request names its
    target.

  The lemmas about them are only as good as that reading of the services.
- The state machine that runs the four handlers, and its wait states, are
  not part of this model.
- Base64.Decode: strict and canonical. Node's decoder is lenient: it also
  reads missing padding, whitespace, non-zero trailing bits and the
  URL-safe alphabet. Payloads like those are reported as `UndecidedBase64`
  instead of being converted.
- JsonLexical.ParseNumber: a well-formed fraction, an exponent or an integer
  beyond 2^53 answers `OutsideModel`, because floating point is not modelled.
  Parsing stops there, so a syntax error later in the same text is not
  reported. Such records are reported as `UndecidedJson`: JSON.parse may
  accept or reject them.
- JsonLexical.ParseChars: a `\u` escape above U+007F answers `OutsideModel`,
  because only ASCII text is modelled. Raw characters above U+007F cannot
  reach it, since `toString('ascii')` clears the top bit of every byte.
- Json.ParseObjectText: the round trip is stated for members already in
  JavaScript enumeration order, which are the objects `JSON.parse` produces.
- The handler fails the whole batch when any record fails, because the
  conversion is a single `map`. No record is marked `ProcessingFailed` or
  `Dropped`, and the model follows the code.
- Several IMPORT segments tagged `REENGAGEMENT=YES` are not reported: `find`
  takes the first, as `SegmentImport.FirstWins` states.
