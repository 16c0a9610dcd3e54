/**
 * The Firehose record-conversion Lambda: every record of a batch is
 * base64-decoded, read as ASCII text, parsed as JSON, written back as
 * compact JSON followed by a line feed, and base64-encoded again. The
 * record keeps its id and is marked "Ok".
 *
 * The conversion is one `map` over the batch, so a record whose payload
 * cannot be converted makes the whole invocation fail: no partial batch is
 * returned and no record is marked ProcessingFailed.
 */
module RecordConversion {
  import opened Wrappers
  import opened JsonLexical
  import Base64
  import Json

  type Byte = Base64.Byte

  /** An incoming delivery-stream record: its id and its base64 payload. */
  datatype Record = Record(recordId: string, data: string)

  /** A record handed back to the delivery stream. */
  datatype OutputRecord = OutputRecord(data: string, recordId: string, result: string)

  /** Why one record could not be converted. */
  datatype Fault =
      /** The payload is base64 that Node's lenient decoder reads but this model does not decide. */
    | UndecidedBase64
      /** JSON.parse throws on the decoded text. */
    | InvalidJson
      /** The decoded text holds a token outside the model before any syntax error; JSON.parse may accept or reject it (see JsonLexical). */
    | UndecidedJson

  /** The invocation fails at the first record that cannot be converted. */
  datatype BatchFailure = BatchFailure(index: nat, fault: Fault)

  // ---------------------------------------------------------------------
  // Buffer conversions.

  /** Buffer.prototype.toString('ascii'): one character per byte, the top bit cleared. */
  function AsciiDecode(bytes: seq<Byte>): (s: string)
    ensures |s| == |bytes| && AsciiText(s)
    ensures forall i | 0 <= i < |s| :: s[i] as int == bytes[i] % 128
  {
    seq(|bytes|, i requires 0 <= i < |bytes| => (bytes[i] % 128) as char)
  }

  /** The UTF-8 encoding of one character (section 3 of RFC 3629). */
  function Utf8Char(c: char): seq<Byte>
  {
    var cp := c as int;
    if cp < 0x80 then [cp]
    else if cp < 0x800 then [0xC0 + cp / 0x40, 0x80 + cp % 0x40]
    else if cp < 0x10000 then [0xE0 + cp / 0x1000, 0x80 + cp / 0x40 % 0x40, 0x80 + cp % 0x40]
    else [0xF0 + cp / 0x40000, 0x80 + cp / 0x1000 % 0x40, 0x80 + cp / 0x40 % 0x40, 0x80 + cp % 0x40]
  }

  /** Buffer.from(string): the UTF-8 encoding of the text. */
  function Utf8Encode(s: string): seq<Byte>
  {
    if s == [] then [] else Utf8Char(s[0]) + Utf8Encode(s[1..])
  }

  /** A character is written as one byte exactly when it is ASCII, and that byte is its code. */
  lemma Utf8CharLength(c: char)
    ensures |Utf8Char(c)| == 1 <==> IsAscii(c)
    ensures IsAscii(c) ==> Utf8Char(c) == [c as int]
    ensures !IsAscii(c) ==> forall i | 0 <= i < |Utf8Char(c)| :: Utf8Char(c)[i] >= 0x80
  {
  }

  /** On ASCII text, Buffer.from and toString('ascii') undo each other. */
  lemma {:induction false} AsciiRoundTrip(s: string)
    requires AsciiText(s)
    ensures |Utf8Encode(s)| == |s|
    ensures AsciiDecode(Utf8Encode(s)) == s
  {
    if s != [] {
      Utf8CharLength(s[0]);
      AsciiRoundTrip(s[1..]);
      var bytes := Utf8Encode(s);
      assert bytes == [s[0] as int] + Utf8Encode(s[1..]);
      assert forall i | 1 <= i < |s| :: AsciiDecode(bytes)[i] == AsciiDecode(Utf8Encode(s[1..]))[i - 1];
    }
  }

  // ---------------------------------------------------------------------
  // The conversion.

  /** The text a record's payload decodes to, as JSON.parse receives it. */
  function PayloadText(data: string): Option<string>
  {
    var bytes :- Base64.Decode(data);
    Some(AsciiDecode(bytes))
  }

  /** The text written for a parsed value: compact JSON and a line feed. */
  function OutputText(v: Json.Value): string
  {
    Json.Stringify(v) + "\n"
  }

  /** One iteration of the `map`: the converted record, or why JSON.parse or decoding gave up. */
  function ConvertRecord(r: Record): Result<OutputRecord, Fault>
  {
    match PayloadText(r.data)
    case None => Err(UndecidedBase64)
    case Some(text) =>
      match Json.Parse(text)
      case Err(SyntaxError) => Err(InvalidJson)
      case Err(OutsideModel) => Err(UndecidedJson)
      case Ok(v) => Ok(OutputRecord(Base64.Encode(Utf8Encode(OutputText(v))), r.recordId, "Ok"))
  }

  /**
   * The handler: the converted batch in input order, or the first record
   * that cannot be converted.
   */
  function Handler(records: seq<Record>): (r: Result<seq<OutputRecord>, BatchFailure>)
    ensures r.Ok? <==> forall i | 0 <= i < |records| :: ConvertRecord(records[i]).Ok?
    ensures r.Ok? ==> |r.value| == |records|
    ensures r.Ok? ==> forall i | 0 <= i < |records| :: r.value[i] == ConvertRecord(records[i]).value
    ensures r.Err? ==>
              && r.error.index < |records|
              && ConvertRecord(records[r.error.index]) == Err(r.error.fault)
              && forall j | 0 <= j < r.error.index :: ConvertRecord(records[j]).Ok?
  {
    if records == [] then Ok([])
    else match ConvertRecord(records[0])
      case Err(fault) => Err(BatchFailure(0, fault))
      case Ok(out) =>
        match Handler(records[1..])
        case Err(BatchFailure(index, fault)) => Err(BatchFailure(index + 1, fault))
        case Ok(outs) => Ok([out] + outs)
  }

  // ---------------------------------------------------------------------
  // What a converted record holds.

  /**
   * A converted record keeps its id, is marked "Ok", and its payload decodes
   * to the compact JSON of the value the input payload parses to, followed
   * by a line feed.
   */
  lemma ConvertedRecord(r: Record)
    requires ConvertRecord(r).Ok?
    ensures ConvertRecord(r).value.recordId == r.recordId
    ensures ConvertRecord(r).value.result == "Ok"
    ensures PayloadText(r.data).Some? && Json.Parse(PayloadText(r.data).value).Ok?
    ensures PayloadText(ConvertRecord(r).value.data)
         == Some(OutputText(Json.Parse(PayloadText(r.data).value).value))
  {
    var v := Json.Parse(PayloadText(r.data).value).value;
    Json.StringifyShape(v);
    Concat(Json.Stringify(v), "\n");
    AsciiRoundTrip(OutputText(v));
    Base64.DecodeEncode(Utf8Encode(OutputText(v)));
  }

  /** The text written for a value is one line: it ends in a line feed and has no other. */
  lemma OutputIsOneLine(v: Json.Value)
    ensures |OutputText(v)| > 0 && OutputText(v)[|OutputText(v)| - 1] == '\n'
    ensures '\n' !in OutputText(v)[..|OutputText(v)| - 1]
  {
    Json.StringifyShape(v);
    assert OutputText(v)[..|OutputText(v)| - 1] == Json.Stringify(v);
  }

  /** JSON.parse reads the written text back as the same value: the line feed is whitespace. */
  lemma OutputParsesBack(v: Json.Value)
    requires Json.WellFormed(v)
    ensures Json.Parse(OutputText(v)) == Ok(v)
  {
    Json.ParseOfStringify(v, "\n");
  }

  /** Converting a converted record again gives the identical record. */
  lemma ConvertIdempotent(r: Record)
    requires ConvertRecord(r).Ok?
    ensures ConvertRecord(Record(r.recordId, ConvertRecord(r).value.data)) == ConvertRecord(r)
  {
    ConvertedRecord(r);
    OutputParsesBack(Json.Parse(PayloadText(r.data).value).value);
  }

  /** Converting an already converted batch gives the identical batch. */
  lemma {:induction false} HandlerIdempotent(records: seq<Record>)
    requires Handler(records).Ok?
    ensures Handler(Reconvertible(Handler(records).value)) == Handler(records)
  {
    var outs := Handler(records).value;
    var again := Reconvertible(outs);
    forall i | 0 <= i < |records|
      ensures ConvertRecord(again[i]) == Ok(outs[i])
    {
      ConvertIdempotent(records[i]);
    }
    SameConversions(again, records);
  }

  /** The records of a converted batch, as the delivery stream would send them in again. */
  function Reconvertible(outs: seq<OutputRecord>): (rs: seq<Record>)
    ensures |rs| == |outs|
    ensures forall i | 0 <= i < |outs| :: rs[i] == Record(outs[i].recordId, outs[i].data)
  {
    seq(|outs|, i requires 0 <= i < |outs| => Record(outs[i].recordId, outs[i].data))
  }

  /** Two batches whose records convert alike are handled alike. */
  lemma SameConversions(a: seq<Record>, b: seq<Record>)
    requires |a| == |b|
    requires forall i | 0 <= i < |a| :: ConvertRecord(a[i]) == ConvertRecord(b[i])
    ensures Handler(a) == Handler(b)
  {
    if Handler(a).Ok? && Handler(b).Ok? {
      assert Handler(a).value == Handler(b).value;
    } else if Handler(a).Err? && Handler(b).Err? {
      var i, j := Handler(a).error.index, Handler(b).error.index;
      assert !(i < j) && !(j < i);
    }
  }
}
