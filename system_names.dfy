/** Stream-name conventions of the log format V2: system streams start with
    `$`, the metastream of a stream is its name prefixed with `$$`, and
    in-memory streams start with `$mem-`; plus the decoding of the data of
    link and stream-reference events. */
module SystemNames {
  import opened Wrappers
  import opened Primitives
  import opened Text

  const NodeStateStream: string := "$mem-node-state"
  const GossipStream: string := "$mem-gossip"
  const MetastreamPrefix: string := "$$"
  const InMemoryStreamPrefix: string := "$mem-"

  /** `SystemStreams.IsSystemStream`. */
  function IsSystemStream(streamId: string): (r: bool)
    ensures r <==> |streamId| > 0 && streamId[0] == '$'
  {
    |streamId| != 0 && streamId[0] == '$'
  }

  /** `SystemStreams.IsMetastream`: the name starts with `$$`. */
  function IsMetastream(streamId: string): (r: bool)
    ensures r <==> MetastreamPrefix <= streamId
  {
    |streamId| >= 2 && streamId[0] == '$' && streamId[1] == '$'
  }

  /** Only the two-character substring exception of `Substring(2)`. */
  datatype NameError = SubstringOutOfRange

  /** `SystemStreams.OriginalStreamOf`: `Substring(2)`, which throws on a name
      shorter than two characters. */
  function OriginalStreamOf(metastreamId: string): (r: Result<string, NameError>)
    ensures r.Ok? <==> |metastreamId| >= 2
    ensures r.Ok? ==> metastreamId == metastreamId[..2] + r.value
  {
    if |metastreamId| < 2 then Err(SubstringOutOfRange) else Ok(metastreamId[2..])
  }

  /** `SystemStreams.MetastreamOf`: the metastream is a metastream and a
      system stream, and dropping its prefix gives the stream back. */
  function MetastreamOf(streamId: string): (r: string)
    ensures IsMetastream(r) && IsSystemStream(r)
    ensures OriginalStreamOf(r) == Ok(streamId)
    ensures |r| == |streamId| + 2
  {
    assert ("$$" + streamId)[2..] == streamId;
    "$$" + streamId
  }

  /** The other direction of the round trip: a metastream is the metastream of
      its original stream. */
  lemma MetastreamOfOriginal(metastreamId: string)
    requires IsMetastream(metastreamId)
    ensures OriginalStreamOf(metastreamId).Ok?
    ensures MetastreamOf(OriginalStreamOf(metastreamId).value) == metastreamId
  {
    assert metastreamId == metastreamId[..2] + metastreamId[2..];
  }

  /** `SystemStreams.IsInMemoryStream`, taken as a character-by-character
      prefix test for `$mem-`. The source's one-argument `StartsWith`
      compares under the current culture instead. */
  function IsInMemoryStream(streamId: string): (r: bool)
    ensures r ==> IsSystemStream(streamId) && !IsMetastream(streamId)
    ensures r <==> |streamId| >= 5 && streamId[..5] == "$mem-"
  {
    InMemoryStreamPrefix <= streamId
  }

  /** Both well-known in-memory streams are recognised as such. */
  lemma KnownInMemoryStreams()
    ensures IsInMemoryStream(NodeStateStream) && IsInMemoryStream(GossipStream)
    ensures !IsInMemoryStream(MetastreamOf(NodeStateStream))
  {
  }

  const LinkTo: string := "$>"
  const StreamReference: string := "$@"
  const V1StreamCreated: string := "$stream-created"
  const V2StreamCreatedInIndex: string := "StreamCreated"
  const LinkToSeparator: char := '@'

  datatype ReferenceError =
    | NotSupported(message: string)
    /** `parts[1]` of a split that found no separator. */
    | IndexOutOfRange

  /** `SystemEventTypes.StreamReferenceEventToStreamId(string, string)`: a
      link names its stream after the first `@`; the three reference event
      types carry the stream name as their whole data; any other event type
      is refused. */
  function StreamReferenceEventToStreamId(eventType: string, data: string): (r: Result<string, ReferenceError>)
    ensures eventType == LinkTo && LinkToSeparator in data ==>
      r.Ok? && exists k :: 0 <= k < |data| && data[k] == LinkToSeparator && LinkToSeparator !in data[..k] && r.value == data[k + 1..]
    ensures eventType == LinkTo && LinkToSeparator !in data ==> r == Err(IndexOutOfRange)
    ensures eventType in {StreamReference, V1StreamCreated, V2StreamCreatedInIndex} ==> r == Ok(data)
    ensures eventType !in {LinkTo, StreamReference, V1StreamCreated, V2StreamCreatedInIndex} ==>
      r == Err(NotSupported("Unknown event type: " + eventType))
  {
    if eventType == LinkTo then
      var parts := SplitFirst(data, LinkToSeparator);
      if |parts| < 2 then Err(IndexOutOfRange)
      else
        var k := |parts[0]|;
        assert data[k] == LinkToSeparator && data[..k] == parts[0] && data[k + 1..] == parts[1];
        Ok(parts[1])
    else if eventType == StreamReference || eventType == V1StreamCreated || eventType == V2StreamCreatedInIndex then
      Ok(data)
    else
      Err(NotSupported("Unknown event type: " + eventType))
  }

  /** `SystemEventTypes.EventLinkToEventNumber`: `long.Parse` of the text
      before the first `@` (of the whole link when there is none). */
  function EventLinkToEventNumber(link: string): (r: Result<int64, ParseError>)
    ensures LinkToSeparator !in link ==> r == ParseInt64(link)
    ensures forall k :: 0 <= k < |link| && link[k] == LinkToSeparator && LinkToSeparator !in link[..k] ==>
      r == ParseInt64(link[..k])
  {
    var parts := SplitFirst(link, LinkToSeparator);
    if |parts| == 2 then
      assert forall k :: 0 <= k < |link| && link[k] == LinkToSeparator && LinkToSeparator !in link[..k] ==>
        k == |parts[0]|;
      assert link[..|parts[0]|] == parts[0];
      ParseInt64(parts[0])
    else
      ParseInt64(parts[0])
  }

  /** The event text of a link, `"{eventNumber}@{streamId}"`. */
  function LinkData(eventNumber: int64, streamId: string): string {
    IntToString(eventNumber) + [LinkToSeparator] + streamId
  }

  /** Decoding the data of a link recovers the event number and the stream it
      points at, whatever characters (including `@`) the stream name holds. */
  lemma {:induction false} LinkDataRoundTrip(eventNumber: int64, streamId: string)
    ensures EventLinkToEventNumber(LinkData(eventNumber, streamId)) == Ok(eventNumber)
    ensures StreamReferenceEventToStreamId(LinkTo, LinkData(eventNumber, streamId)) == Ok(streamId)
  {
    var n := IntToString(eventNumber);
    assert LinkToSeparator !in n by {
      if eventNumber >= 0 {
        assert AllDigits(n);
      } else {
        assert n == "-" + NatToString(-(eventNumber as int));
        assert AllDigits(n[1..]);
      }
    }
    SplitFirstOfJoined(n, LinkToSeparator, streamId);
    ParseIntToString(eventNumber);
  }
}
