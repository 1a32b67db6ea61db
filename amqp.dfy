/** The parts of an AMQP 1.0 message the bridge looks at, as the Qpid Proton Go
    binding hands them over (`amqp.Message`). */
module Amqp {
  import opened Basics

  /** `amqp.UUID`: the 16 bytes of an AMQP uuid (AMQP 1.0 Messaging, section 3.2.13). */
  type Uuid = s: seq<byte> | |s| == 16 witness [0, 0, 0, 0, 0, 0, 0, 0, 0, 0, 0, 0, 0, 0, 0, 0]

  /** The message-id property, by the Go type it arrives as. AMQP 1.0 admits four
      (ulong, uuid, binary, string); `OtherId` stands for an absent id and for any
      value of another type. */
  datatype MessageId =
    | StringId(text: string)
    | ULongId(number: uint64)
    | UuidId(uuid: Uuid)
    | BinaryId(bytes: seq<byte>)
    | OtherId

  /** The message body, by the Go type it arrives as. A Go string, and `amqp.Binary`
      (itself a Go string type), are sequences of bytes. `OtherBody` stands for every
      other shape (an AMQP sequence, a map, a number, ...). */
  datatype Body =
    | TextBody(text: seq<byte>)
    | BinaryBody(bytes: seq<byte>)
    | OtherBody

  /** The creation-time property, carried through without interpretation. */
  datatype Timestamp = Timestamp(unixNanos: int)

  /** An inbound message: content type ("" when not set), body, message-id, creation time. */
  datatype Message = Message(contentType: string, body: Body, messageId: MessageId, creationTime: Timestamp)
}
