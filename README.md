# AMQP source adapter: a Dafny model

The AMQP source adapter is a bridge. It attaches a receiver link to a queue on an
AMQP 1.0 broker. It turns each message it receives into a CloudEvent and POSTs that
event to an HTTP sink in binary content mode. It Accepts the message once the POST
completes, and Rejects it and stops the process when the POST fails. All of this
lives in `pkg/adapter/amqpsource/adapter.go`. This project models that file's logic
and proves what it promises.

The modules follow the parts of the file:

- `Basics`: bytes, Go's 64-bit `uint` and its conversion to `int`, and `Option`.
- `Amqp`: the message as the bridge sees it. It has a content type, a body (AMQP
  string, Binary or anything else), one of the four AMQP 1.0 message-id types
  (AMQP 1.0 Messaging, sections 3.2.11 to 3.2.14) and a creation time.
- `Base64`, `Decimal`, `UuidText`: the three renderings `messageIdString` uses.
  - `Base64` is the standard alphabet with padding (RFC 4648, section 4).
  - `Decimal` is `%d` of an unsigned integer.
  - `UuidText` is Qpid Proton's `UUID(...)` rendering of a UUID, with the wrapper
    stripped. It is proved equal to an independent description of the RFC 4122
    (section 3) 36-character layout.
- `MessageIds`: `messageIdString`, the event id.
- `BodyReaders`: `amqpBodyReader`. It is a class with a `body`, an `offset` and
  a `Read` method that copies into an `array<byte>`. A pure `ReadAt` describes one
  call, and `Reads` describes a series of calls.
- `Translate`:
  - the body/content-type switch of `postMessage`;
  - the CloudEvents `EventContext` built around the message;
  - the outcome of posting the event.
- `Connection`:
  - the SpecSource string and the receiver link's address and options, derived
    from the parsed source address;
  - the choice `dial` makes between plain TCP and TLS.
- `Bridge`: `Start`.
  - `Loop` is the receive-post-settle loop as a function. `Adapter.ReceiveLoop` is
    the same loop as a `while` loop that is proved to agree with it.
  - `Run` is the whole of `Start` as a function. `Adapter.Start` is the method that
    assigns the adapter's `SpecSource` field.

A call into the network or a library result that the bridge only reacts to becomes
an input of the model:

- `amqp.ParseURL` becomes `parseUrl`.
- `AppendCertsFromPEM` becomes `pemValid`.
- `net.Dial`/`tls.Dial`, `container.Connection` and `amqpconn.Receiver` become
  success predicates.
- `r.Receive()` becomes a finite sequence of receive results.
- `cloudevents.Binary.NewRequest` and `http.Client.Do` become `builds` and
  `roundTrip`.

`fatalIf` ends the run in a `Halted(reason)` status. When the receive results run
out, the loop is `Blocked`: it is waiting in `Receive`.

SpecSource, the event source, is built with the format `%s://%s:%s/%s` from the
scheme, host name, port and `u.Path`. The parsed path already starts with `/`, so
the result has `//` before the receiver address: the source address
`amqp://broker:5672/queue1` gives `amqp://broker:5672//queue1`.
`Connection.SpecSourceHasDoubleSlash` and `Connection.SpecSourceExample` state this.

## Model

| member | source | states |
|---|---|---|
| Basics.GoInt | pkg/adapter/amqpsource/adapter.go:87 | `int(a.Credit)` on a 64-bit platform: the value is kept below 2^63 and wraps to a negative number from 2^63 on, and it is always congruent to the credit modulo 2^64 |
| Decimal.Format | pkg/adapter/amqpsource/adapter.go:212-213 | the text of a number is non-empty, made of decimal digits only, and has a leading `0` only for zero itself |
| Decimal.ValueOfFormat | pkg/adapter/amqpsource/adapter.go:212-213 | reading the decimal text of `n` back gives `n` |
| Decimal.FormatInjective | pkg/adapter/amqpsource/adapter.go:212-213 | distinct numbers have distinct decimal texts |
| Base64.Encode | pkg/adapter/amqpsource/adapter.go:218-219 | the padded encoding has 4 characters for every started group of 3 bytes |
| Base64.RoundTrip | pkg/adapter/amqpsource/adapter.go:218-219 | decoding the standard base64 text of any byte string gives that byte string back |
| Base64.DecodeDeterminesText | pkg/adapter/amqpsource/adapter.go:218-219 | a text that decodes, with all pad bits zero, is the encoding of the bytes it decodes to |
| Base64.OnlyEncodingDecodes | pkg/adapter/amqpsource/adapter.go:218-219 | the encoding of `bs` decodes to `bs`, and no other text does: it is the canonical text of section 3.5 of RFC 4648 |
| Base64.TestVectors | pkg/adapter/amqpsource/adapter.go:218-219 | the encodings of "", "f", "fo", "foo", "foob", "fooba" and "foobar" are those listed in section 10 of RFC 4648 |
| UuidText.ProtonString | pkg/adapter/amqpsource/adapter.go:214-215 | Proton's rendering of a 16-byte UUID is 42 characters long |
| UuidText.Unwrap | pkg/adapter/amqpsource/adapter.go:216-217 | `s[5:len(s)-1]` removes exactly the 5-character `UUID(` head and the `)` tail |
| UuidText.UnwrapIsCanonical | pkg/adapter/amqpsource/adapter.go:214-217 | stripping the wrapper from Proton's rendering gives the RFC 4122 canonical text of the same UUID |
| UuidText.CanonicalShape | pkg/adapter/amqpsource/adapter.go:214-217 | that text is 36 characters long, with dashes at positions 8, 13, 18 and 23 and lower-case hex digits everywhere else |
| UuidText.CanonicalRoundTrip | pkg/adapter/amqpsource/adapter.go:214-217 | the canonical text determines the UUID: parsing it back gives the 16 bytes |
| MessageIds.MessageIdString | pkg/adapter/amqpsource/adapter.go:202-224 | a nil message gives ""; a string id is returned unchanged; a ulong id gives its decimal text; a UUID id gives its canonical 36-character text; a Binary id gives the one base64 text that decodes back to the id's bytes, of length 4 per started group of 3; any other id gives "" |
| MessageIds.Examples | pkg/adapter/amqpsource/adapter.go:212-219 | ulong id 42 gives "42" and Binary id `foo` gives "Zm9v" |
| MessageIds.CoercionForgetsType | pkg/adapter/amqpsource/adapter.go:209-213 | the event id does not record the id's type: string id "42" and ulong id 42 give the same event id |
| MessageIds.CoercionInjectivePerType | pkg/adapter/amqpsource/adapter.go:209-219 | two different ids of the same admissible type give different event ids |
| BodyReaders.ReadAt | pkg/adapter/amqpsource/adapter.go:234-242 | one `Read` returns at most the buffer's size, namely the bytes that come next in the body; it fills the buffer unless the body ends first; it reports `io.EOF` exactly when the offset has reached the end after the call |
| BodyReaders.ReadsConserveBytes | pkg/adapter/amqpsource/adapter.go:234-239 | the bytes of any series of reads, joined, are exactly the next part of the body, and never run past its end |
| BodyReaders.ReadsEofTiming | pkg/adapter/amqpsource/adapter.go:240-244 | read `i` reports `io.EOF` exactly when the bytes returned by reads up to `i` reach the end; every read after an `io.EOF` returns no bytes and `io.EOF` |
| BodyReaders.AtEndStaysAtEnd | pkg/adapter/amqpsource/adapter.go:235-242 | once the offset is at the end, every read returns 0 bytes and `io.EOF` |
| BodyReaders.ReadsDrain | pkg/adapter/amqpsource/adapter.go:234-244 | with non-empty buffers, as many reads as there are bytes left return the rest of the body exactly, the last one with `io.EOF` |
| BodyReaders.EmptyBodyFirstRead | pkg/adapter/amqpsource/adapter.go:235-242 | an empty body answers its first read with 0 bytes and `io.EOF` |
| BodyReaders.BodyReader.constructor | pkg/adapter/amqpsource/adapter.go:226-232 | a new reader is over the given body at offset 0, having handed out nothing |
| BodyReaders.BodyReader.Read | pkg/adapter/amqpsource/adapter.go:234-245 | the call's bytes and EOF flag are those `ReadAt` describes; `n <= len(out)`; the offset advances by `n` and stays within the body; the rest of `out` is untouched; the bytes handed out so far are always a prefix of the body, and all of it once `io.EOF` is returned |
| Translate.Select | pkg/adapter/amqpsource/adapter.go:124-139 | a string body becomes `text/plain; charset=utf-8`, streamed, whatever type was declared; a Binary body with no declared type becomes `application/octet-stream`, streamed; a Binary body with a declared type keeps it and is the only materialised payload; the bytes of a recognised body are passed on unchanged; any other body becomes `application/ZZZ` with the placeholder `ZZZ and ZZZ`; the resolved type is never empty |
| Translate.DeclaredTypeMattersOnlyForBinary | pkg/adapter/amqpsource/adapter.go:124-139 | for any body that is not Binary, the declared content type has no effect on the selection |
| Translate.StreamedPayloadDeliversBody | pkg/adapter/amqpsource/adapter.go:128-152 | reading a streamed payload from the start with non-empty buffers yields the string or Binary body exactly, and the placeholder for any other body |
| Translate.Envelope | pkg/adapter/amqpsource/adapter.go:141-148 | the event has the library's CloudEvents version, type `amqp.message.delivery`, the coerced message id as its id, the message's creation time as its time, the bridge's SpecSource as its source, and the resolved content type and payload as its content |
| Translate.EnvelopeConstantParts | pkg/adapter/amqpsource/adapter.go:141-148 | all events from one bridge share version, type and source, whatever the message |
| Translate.Post | pkg/adapter/amqpsource/adapter.go:149-173 | posting succeeds exactly when the request is built and the round trip completes; it fails as not built exactly when the request cannot be built |
| Translate.PostIgnoresStatus | pkg/adapter/amqpsource/adapter.go:164-173 | the response status is never inspected: sinks that differ only in their status codes give the same outcome |
| Connection.ParsedUrl.Host | pkg/adapter/amqpsource/adapter.go:178-190 | the dial address is the host name, a `:` and the port, in that order |
| Connection.SpecSource | pkg/adapter/amqpsource/adapter.go:78 | SpecSource opens with the scheme and `://`, continues with the dial address `host:port`, and ends with `/` followed by the whole path |
| Connection.ReceiverAddress | pkg/adapter/amqpsource/adapter.go:85 | the link address is the path with one leading `/` removed; a path without one is kept as it is |
| Connection.SpecSourceHasDoubleSlash | pkg/adapter/amqpsource/adapter.go:78 | for a path beginning with `/`, SpecSource has `//` between the port and the receiver address |
| Connection.SpecSourceExample | pkg/adapter/amqpsource/adapter.go:78-85 | the address `amqp://broker:5672/queue1` gives SpecSource `amqp://broker:5672//queue1`, not the single-slash form, and the link address `queue1` |
| Connection.ReceiverOptions | pkg/adapter/amqpsource/adapter.go:85-87 | the receiver link gets the path with its leading `/` trimmed as its source, prefetch on, and `int(a.Credit)` as its capacity: the credit itself when it fits in an `int`, a negative number from 2^63 on |
| Connection.Dial | pkg/adapter/amqpsource/adapter.go:176-194 | scheme `amqp` dials plain TCP to the host exactly; otherwise a non-empty RootCA that fails PEM parsing is an error before any dial, exactly then; otherwise it always dials TLS to the host, with RootCAs set to the parsed pool (nil for an empty RootCA) and InsecureSkipVerify equal to the flag |
| Connection.PlainDialIgnoresTls | pkg/adapter/amqpsource/adapter.go:177-178 | under scheme `amqp` the RootCA text, its validity and the skip-verify flag do not change the dial |
| Bridge.Loop | pkg/adapter/amqpsource/adapter.go:92-107 | the loop settles at most one message per receive result, and stops only blocked in `Receive`, on a receive failure or on a dispatch failure |
| Bridge.LoopSettlesEachMessageOnce | pkg/adapter/amqpsource/adapter.go:92-103 | settlement `i` is for the `i`-th received message and no other, in order; it is an Accept exactly when posting that message succeeded, and a Reject carrying the post's error otherwise; the calls to `Receive` never outnumber the results |
| Bridge.LoopRejectIsLast | pkg/adapter/amqpsource/adapter.go:96-103 | every settlement before the last is an Accept: nothing is received after a Reject |
| Bridge.LoopRejectHalts | pkg/adapter/amqpsource/adapter.go:99-103 | the loop halts with a dispatch failure exactly when its last settlement is a Reject, and that failure carries the Reject's error |
| Bridge.LoopHaltsOnReceiveError | pkg/adapter/amqpsource/adapter.go:104-107 | the loop halts on a receive failure exactly when the result after the settled messages is an error and all of them were accepted; that error gets no settlement |
| Bridge.LoopBlockedWhenAllAccepted | pkg/adapter/amqpsource/adapter.go:92-98 | the loop is still receiving exactly when every result was a message and every message was posted and accepted |
| Bridge.Run | pkg/adapter/amqpsource/adapter.go:68-112 | each step of a start happens only once the one before it has succeeded, and the next step is always tried then: SpecSource exactly when the address parses; the transport dialed is the one `dial` chose, and nothing is dialed after a bad root CA; the link is `ReceiverOptions` of the parsed address; a dial failure, a connection failure and a receiver failure each halt with their own reason, exactly when that step fails; once the receiver is attached, the settlements and the status are those of `Loop` over the SpecSource just set and the configured sink |
| Bridge.SpecSourceSetBeforeDial | pkg/adapter/amqpsource/adapter.go:76-81 | a source address that does not parse halts the bridge before it sets SpecSource or dials; one that parses sets SpecSource from it, before and whatever the dial does |
| Bridge.BadRootCAStopsBeforeDial | pkg/adapter/amqpsource/adapter.go:180-187 | the bridge halts with a bad root CA exactly when the scheme is not `amqp`, RootCA is non-empty and it is not valid PEM; it then dials nothing |
| Bridge.SettlementsFollowAttach | pkg/adapter/amqpsource/adapter.go:85-93 | the receiver is asked for with the trimmed path and the configured credit, only after a dial; messages are settled only once the receiver is attached |
| Bridge.Adapter.constructor | pkg/adapter/amqpsource/adapter.go:49-62 | the adapter holds the given configuration, with SpecSource still empty |
| Bridge.Adapter.ReceiveLoop | pkg/adapter/amqpsource/adapter.go:92-108 | the `while` loop makes exactly the settlements `Loop` describes, and stops in the same status |
| Bridge.Adapter.Start | pkg/adapter/amqpsource/adapter.go:68-112 | a start does what `Run` describes; SpecSource is assigned exactly when the source address parses |

## Left out

- Networking and foreign libraries are inputs of the model, not modelled code:
  dialing, the electron container, connection and receiver;
  `cloudevents.Binary.NewRequest`, `http.Client.Do` and reading the response body.
  Any completed round trip counts as a success, as in the code.
- `amqp.ParseURL` and PEM decoding are not modelled. The parsed URL is a record of
  scheme, host name, port and path; the dial address `u.Host` is taken to be
  `hostname:port`, so IPv6 addresses in brackets are not modelled. A `pemValid`
  predicate stands for `AppendCertsFromPEM`.
- Logging (`log.Printf` and the zap debug output) and the unused global `msgCount`
  have no effect on behaviour and are left out.
- The container name taken from the `HOSTNAME` environment variable is left out,
  since nothing in the file depends on it.
- `log.Fatal` stops the process; here it becomes the terminal status
  `Halted(reason)`. The unreachable `return nil` after the loop has no counterpart.
- Bridge.Loop: the endless `for` loop runs over a finite sequence of receive
  results. Running out of results is the status `Blocked`, not an end of the
  bridge.
- The creation time is carried through as an opaque value. Its conversion by the
  CloudEvents library is not modelled.
- `cloudevents.CloudEventsVersion` is the library's constant. The model takes it as
  `"0.1"`, the version of the library the adapter is built with.
- The materialised payload of a Binary body with a declared content type is handed
  to the library as one value. The library's own encoding of that value into the
  request body is not modelled.
- Translate.Post: the request the library builds is modelled by the arguments
  given to it (sink address, event context, payload), not by its HTTP headers.
- A string message id is a Go string, a sequence of bytes. The model takes it as the
  characters of the UTF-8 text that an AMQP string carries, so an id whose bytes are
  not valid UTF-8 is not modelled.
- `rm.Accept()` and `rm.Reject()` return errors that the code does not look at, so
  a settlement's own failure makes no difference to the run; the model's settlements
  cannot fail.
- Concurrency in the electron library, such as prefetching and credit flow on the
  link, is not modelled; only the link options the bridge asks for are.
- The generated Kubernetes client for the `AmqpSource` resource is not part of this
  model. It has no logic of its own.
