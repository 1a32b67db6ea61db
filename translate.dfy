/** `postMessage`: the content type and payload chosen for each body shape, the
    CloudEvents envelope built around them, and the outcome of posting the event to
    the sink in binary content mode. */
module Translate {
  import opened Basics
  import opened Amqp
  import MessageIds
  import BodyReaders

  const TEXT_CONTENT_TYPE := "text/plain; charset=utf-8"
  const BINARY_CONTENT_TYPE := "application/octet-stream"
  const FALLBACK_CONTENT_TYPE := "application/ZZZ"
  /** The bytes of the placeholder text `ZZZ and ZZZ`. */
  const PLACEHOLDER: seq<byte> := [0x5A, 0x5A, 0x5A, 0x20, 0x61, 0x6E, 0x64, 0x20, 0x5A, 0x5A, 0x5A]
  const EVENT_TYPE := "amqp.message.delivery"
  /** `cloudevents.CloudEventsVersion` of the CloudEvents library the bridge is built with. */
  const CLOUD_EVENTS_VERSION := "0.1"

  /** How the payload reaches the request: through an `amqpBodyReader` over the bytes,
      or as one value handed to the library whole. */
  datatype Payload = Streamed(source: seq<byte>) | Materialised(value: seq<byte>)

  /** The resolved content type and the payload. */
  datatype Selection = Selection(contentType: string, payload: Payload)

  function PayloadBytes(p: Payload): seq<byte> {
    match p
    case Streamed(b) => b
    case Materialised(b) => b
  }

  /** The type switch on the body in `postMessage`. */
  function Select(body: Body, declared: string): (r: Selection)
    // the resolved type is never empty
    ensures r.contentType != ""
    // only a Binary body with a declared type is materialised, and it keeps that type
    ensures r.payload.Materialised? <==> body.BinaryBody? && declared != ""
    ensures body.BinaryBody? && declared != "" ==> r.contentType == declared
    ensures body.BinaryBody? && declared == "" ==> r.contentType == BINARY_CONTENT_TYPE
    // a string body is always plain text, whatever was declared
    ensures body.TextBody? ==> r.contentType == TEXT_CONTENT_TYPE
    // a recognised body reaches the sink byte for byte
    ensures body.TextBody? ==> PayloadBytes(r.payload) == body.text
    ensures body.BinaryBody? ==> PayloadBytes(r.payload) == body.bytes
    // any other body is replaced by the fallback marker
    ensures body.OtherBody? ==>
      r.contentType == FALLBACK_CONTENT_TYPE && r.payload == Streamed(PLACEHOLDER)
  {
    match body
    case TextBody(s) => Selection(TEXT_CONTENT_TYPE, Streamed(s))
    case BinaryBody(b) =>
      if declared == "" then Selection(BINARY_CONTENT_TYPE, Streamed(b))
      else Selection(declared, Materialised(b))
    case OtherBody => Selection(FALLBACK_CONTENT_TYPE, Streamed(PLACEHOLDER))
  }

  /** Only a Binary body lets the declared content type through. */
  lemma DeclaredTypeMattersOnlyForBinary(body: Body, d1: string, d2: string)
    requires !body.BinaryBody?
    ensures Select(body, d1) == Select(body, d2)
  {
  }

  /** A streamed payload, read through `amqpBodyReader` from the start with non-empty
      buffers, yields the body itself for a string or Binary body, and the
      placeholder for any other. */
  lemma StreamedPayloadDeliversBody(body: Body, declared: string, capacities: seq<nat>)
    requires Select(body, declared).payload.Streamed?
    requires forall k :: 0 <= k < |capacities| ==> capacities[k] > 0
    requires |capacities| >= |PayloadBytes(Select(body, declared).payload)|
    ensures BodyReaders.Concat(BodyReaders.Reads(Select(body, declared).payload.source, 0, capacities)) ==
            match body
            case TextBody(text) => text
            case BinaryBody(bytes) => bytes
            case OtherBody => PLACEHOLDER
  {
    var source := Select(body, declared).payload.source;
    BodyReaders.ReadsDrain(source, 0, capacities);
    assert source[0..] == source;
  }

  /** `cloudevents.EventContext`. */
  datatype EventContext = EventContext(
    cloudEventsVersion: string,
    eventType: string,
    eventId: string,
    eventTime: Timestamp,
    source: string,
    contentType: string)

  /** The event for message `m` from the bridge whose source is `specSource`. */
  function Envelope(specSource: string, m: Message): (r: (EventContext, Payload))
    ensures r.0.cloudEventsVersion == CLOUD_EVENTS_VERSION
    ensures r.0.eventType == EVENT_TYPE
    ensures r.0.eventId == MessageIds.MessageIdString(Some(m))
    ensures r.0.eventTime == m.creationTime
    ensures r.0.source == specSource
    ensures Selection(r.0.contentType, r.1) == Select(m.body, m.contentType)
  {
    var sel := Select(m.body, m.contentType);
    (EventContext(CLOUD_EVENTS_VERSION, EVENT_TYPE, MessageIds.MessageIdString(Some(m)),
                  m.creationTime, specSource, sel.contentType),
     sel.payload)
  }

  /** Messages from one bridge differ in their events only where the messages differ:
      the version, type and source are the same for all of them. */
  lemma EnvelopeConstantParts(specSource: string, m1: Message, m2: Message)
    ensures Envelope(specSource, m1).0.cloudEventsVersion == Envelope(specSource, m2).0.cloudEventsVersion
    ensures Envelope(specSource, m1).0.eventType == Envelope(specSource, m2).0.eventType
    ensures Envelope(specSource, m1).0.source == Envelope(specSource, m2).0.source
  {
  }

  /** The arguments of `cloudevents.Binary.NewRequest`. */
  datatype Request = Request(sinkUri: string, context: EventContext, payload: Payload)

  /** How an HTTP round trip ends: a response with some status, or a transport error. */
  datatype RoundTrip = Response(status: int) | TransportError

  /** The sink as the bridge sees it: its address, whether the CloudEvents library
      can build a request (`NewRequest` returns no error), and what `http.Client.Do`
      makes of a request. */
  datatype Sink = Sink(uri: string, builds: Request -> bool, roundTrip: Request -> RoundTrip)

  datatype PostError = RequestNotBuilt | PostFailed

  /** `postMessage`'s result: `None` for a nil error. */
  function Post(specSource: string, sink: Sink, m: Message): (r: Option<PostError>)
    ensures var (ctx, payload) := Envelope(specSource, m);
            var req := Request(sink.uri, ctx, payload);
            && (r == None <==> sink.builds(req) && sink.roundTrip(req).Response?)
            && (r == Some(RequestNotBuilt) <==> !sink.builds(req))
  {
    var (ctx, payload) := Envelope(specSource, m);
    var req := Request(sink.uri, ctx, payload);
    if !sink.builds(req) then Some(RequestNotBuilt)
    else if sink.roundTrip(req).TransportError? then Some(PostFailed)
    else None
  }

  /** Any completed round trip counts as delivered: the response status is never
      looked at, so a sink answering with an error status gives the same outcome as
      one answering 200. */
  lemma PostIgnoresStatus(specSource: string, uri: string, builds: Request -> bool,
                          rt1: Request -> RoundTrip, rt2: Request -> RoundTrip, m: Message)
    requires forall q :: rt1(q).Response? <==> rt2(q).Response?
    ensures Post(specSource, Sink(uri, builds, rt1), m) == Post(specSource, Sink(uri, builds, rt2), m)
  {
  }
}
