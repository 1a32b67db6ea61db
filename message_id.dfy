/** `messageIdString`: the event id of the emitted event, coerced from whichever of
    the four AMQP 1.0 message-id types (AMQP 1.0 Messaging, sections 3.2.11 to
    3.2.14) the message carries. */
module MessageIds {
  import opened Basics
  import opened Amqp
  import Base64
  import Decimal
  import UuidText

  /** `messageIdString(m)`; `None` stands for a nil message pointer. */
  function MessageIdString(m: Option<Message>): (r: string)
    ensures m.None? ==> r == ""
    ensures m.Some? && m.value.messageId.StringId? ==> r == m.value.messageId.text
    ensures m.Some? && m.value.messageId.ULongId? ==>
      (forall i :: 0 <= i < |r| ==> Decimal.IsDigit(r[i])) &&
      Decimal.Value(r) == m.value.messageId.number as int &&
      |r| >= 1 && (r[0] == '0' ==> r == "0")
    ensures m.Some? && m.value.messageId.UuidId? ==>
      r == UuidText.Canonical(m.value.messageId.uuid) && UuidText.IsCanonicalText(r)
    ensures m.Some? && m.value.messageId.BinaryId? ==>
      Base64.Decode(r) == Some(m.value.messageId.bytes) &&
      (forall s :: Base64.Decode(s) == Some(m.value.messageId.bytes) ==> s == r) &&
      |r| == 4 * ((|m.value.messageId.bytes| + 2) / 3)
    ensures m.Some? && m.value.messageId.OtherId? ==> r == ""
  {
    match m
    case None => ""
    case Some(msg) =>
      match msg.messageId
      case StringId(s) => s
      case ULongId(n) =>
        Decimal.ValueOfFormat(n as nat);
        Decimal.Format(n as nat)
      case UuidId(u) =>
        UuidText.UnwrapIsCanonical(u);
        UuidText.CanonicalShape(u);
        UuidText.Unwrap(UuidText.ProtonString(u))
      case BinaryId(bs) =>
        Base64.OnlyEncodingDecodes(bs);
        Base64.Encode(bs)
      case OtherId => ""
  }

  /** A ulong id 42 and a Binary id `foo`. */
  lemma Examples(t: Timestamp)
    ensures MessageIdString(Some(Message("", OtherBody, ULongId(42), t))) == "42"
    ensures MessageIdString(Some(Message("", OtherBody, BinaryId([0x66, 0x6F, 0x6F]), t))) == "Zm9v"
  {
    assert Decimal.Format(42) == Decimal.Format(4) + [Decimal.Digit(2)];
    Base64.TestVectors();
  }

  /** The coercion forgets the id's type: a string id and a ulong id can give the same event id. */
  lemma CoercionForgetsType(t: Timestamp)
    ensures StringId("42") != ULongId(42)
    ensures MessageIdString(Some(Message("", OtherBody, StringId("42"), t))) ==
            MessageIdString(Some(Message("", OtherBody, ULongId(42), t)))
  {
    Examples(t);
  }

  /** Both ids are of the same one of the four admissible types. */
  predicate SameAdmissibleType(a: MessageId, b: MessageId) {
    || (a.StringId? && b.StringId?)
    || (a.ULongId? && b.ULongId?)
    || (a.UuidId? && b.UuidId?)
    || (a.BinaryId? && b.BinaryId?)
  }

  /** Within one id type nothing is lost: distinct ids of the same type give distinct event ids. */
  lemma CoercionInjectivePerType(m1: Message, m2: Message)
    requires m1.messageId != m2.messageId
    requires SameAdmissibleType(m1.messageId, m2.messageId)
    ensures MessageIdString(Some(m1)) != MessageIdString(Some(m2))
  {
    if m1.messageId.UuidId? {
      UuidText.CanonicalRoundTrip(m1.messageId.uuid);
      UuidText.CanonicalRoundTrip(m2.messageId.uuid);
    }
  }
}
