/**
 * The immutable message values stored by the time-delay queue:
 * PubSubMessage, its transient subtype TransientPubSubMessage, the sentinel
 * NO_MSG, and the supporting UUID and BasicMessageType values.
 *
 * A base message and a transient one are one datatype: the transient kind is
 * the one whose `lifetime` is present.
 */
module Messages {
  import opened Wrappers

  /** A java.util.UUID: two 64-bit halves, equal exactly when both halves are. */
  datatype Uuid = Uuid(mostSigBits: bv64, leastSigBits: bv64)

  /** ZERO_UUID, the identifier of the sentinel message. */
  const ZeroUuid: Uuid := Uuid(0, 0)

  /** java.util.UUID.hashCode: the two halves xor-ed, then folded to 32 bits. */
  function UuidHash(u: Uuid): bv32
  {
    var hilo := u.mostSigBits ^ u.leastSigBits;
    (((hilo >> 32) ^ hilo) & 0xFFFF_FFFF) as bv32
  }

  /** BasicMessageType: the two kinds of message, each with a description. */
  datatype MessageType = SimpleMsg | Tweet
  {
    function Description(): string
    {
      match this
      case SimpleMsg => "A simple message from a sender to one or more recipients"
      case Tweet => "A tweet from Twitter with all the metadata"
    }
  }

  /**
   * A message. Timestamps are milliseconds since the epoch. `lifetime` is
   * present exactly for a TransientPubSubMessage.
   */
  datatype Message = Message(
    id: Uuid,
    timestamp: int,
    sender: Uuid,
    receivers: seq<Uuid>,
    content: string,
    msgType: MessageType,
    lifetime: Option<int>)
  {
    function GetId(): Uuid { id }

    /** The Java getter returns a clone; as a value it is the stored timestamp. */
    function GetTimestamp(): int { timestamp }

    function GetContent(): string { content }

    function GetType(): MessageType { msgType }

    function GetSender(): Uuid { sender }

    /** The Java getter returns a fresh copy of the list; as a value it is the list. */
    function GetReceiver(): seq<Uuid> { receivers }

    predicate IsTransient() { lifetime.Some? }

    /** getLifetime exists only on the transient subtype. */
    function GetLifetime(): int
      requires IsTransient()
    {
      lifetime.value
    }

    /** hashCode: the hash of the identifier alone. */
    function HashCode(): bv32 { UuidHash(id) }

    /** equals: another message with the same identifier, whatever else it holds. */
    predicate Equals(other: AnyObject)
    {
      match other
      case AMessage(that) => id == that.id
      case NotAMessage => false
    }
  }

  /** The argument of equals(Object): either a message or some other object. */
  datatype AnyObject = AMessage(msg: Message) | NotAMessage

  /** The single-receiver constructor with explicit arguments. */
  function NewMessage(id: Uuid, timestamp: int, sender: Uuid, receiver: Uuid,
                      content: string, msgType: MessageType): (m: Message)
    ensures m.GetId() == id && m.GetTimestamp() == timestamp && m.GetSender() == sender
    ensures m.GetContent() == content && m.GetType() == msgType
    ensures m.GetReceiver() == [receiver]
    ensures !m.IsTransient()
  {
    Message(id, timestamp, sender, [receiver], content, msgType, None)
  }

  /** The receiver-list constructor with explicit arguments. */
  function NewMulticastMessage(id: Uuid, timestamp: int, sender: Uuid, receivers: seq<Uuid>,
                               content: string, msgType: MessageType): (m: Message)
    ensures m.GetId() == id && m.GetTimestamp() == timestamp && m.GetSender() == sender
    ensures m.GetContent() == content && m.GetType() == msgType
    ensures m.GetReceiver() == receivers
    ensures !m.IsTransient()
  {
    Message(id, timestamp, sender, receivers, content, msgType, None)
  }

  /**
   * The single-receiver constructor with implicit arguments: the random
   * identifier and the current time are supplied by the caller.
   */
  function NewSimpleMessage(freshId: Uuid, now: int, sender: Uuid, receiver: Uuid,
                            content: string): (m: Message)
    ensures m.GetId() == freshId && m.GetTimestamp() == now && m.GetSender() == sender
    ensures m.GetContent() == content && m.GetType() == SimpleMsg
    ensures m.GetReceiver() == [receiver]
    ensures !m.IsTransient()
  {
    NewMessage(freshId, now, sender, receiver, content, SimpleMsg)
  }

  /** The receiver-list constructor with implicit arguments. */
  function NewSimpleMulticastMessage(freshId: Uuid, now: int, sender: Uuid, receivers: seq<Uuid>,
                                     content: string): (m: Message)
    ensures m.GetId() == freshId && m.GetTimestamp() == now && m.GetSender() == sender
    ensures m.GetContent() == content && m.GetType() == SimpleMsg
    ensures m.GetReceiver() == receivers
    ensures !m.IsTransient()
  {
    NewMulticastMessage(freshId, now, sender, receivers, content, SimpleMsg)
  }

  /**
   * The TransientPubSubMessage constructor: the implicit-argument base
   * constructor plus a lifetime, which is stored unchecked.
   */
  function NewTransientMessage(freshId: Uuid, now: int, sender: Uuid, receiver: Uuid,
                               content: string, lifetime: int): (m: Message)
    ensures m.GetId() == freshId && m.GetTimestamp() == now && m.GetSender() == sender
    ensures m.GetContent() == content && m.GetType() == SimpleMsg
    ensures m.GetReceiver() == [receiver]
    ensures m.IsTransient() && m.GetLifetime() == lifetime
  {
    NewSimpleMessage(freshId, now, sender, receiver, content).(lifetime := Some(lifetime))
  }

  /** NO_MSG, the value returned when no message is available. */
  const NoMsg: Message := NewMessage(ZeroUuid, 0, ZeroUuid, ZeroUuid, "", SimpleMsg)

  /** Two messages are equal exactly when their identifiers are, in either direction. */
  lemma EqualsIsIdEquality(a: Message, b: Message)
    ensures a.Equals(AMessage(b)) <==> a.id == b.id
    ensures a.Equals(AMessage(b)) <==> b.Equals(AMessage(a))
  {
  }

  /** equals is an equivalence relation on messages. */
  lemma EqualsIsEquivalence(a: Message, b: Message, c: Message)
    ensures a.Equals(AMessage(a))
    ensures a.Equals(AMessage(b)) ==> b.Equals(AMessage(a))
    ensures a.Equals(AMessage(b)) && b.Equals(AMessage(c)) ==> a.Equals(AMessage(c))
  {
  }

  /** No message equals an object that is not a message. */
  lemma NeverEqualsNonMessage(a: Message)
    ensures !a.Equals(NotAMessage)
  {
  }

  /** Equality ignores everything but the identifier. */
  lemma EqualsIgnoresPayload(a: Message, timestamp: int, sender: Uuid, receivers: seq<Uuid>,
                             content: string, msgType: MessageType, lifetime: Option<int>)
    ensures a.Equals(AMessage(Message(a.id, timestamp, sender, receivers, content, msgType, lifetime)))
  {
  }

  /** Equal messages have equal hash codes. */
  lemma HashCodeAgreesWithEquals(a: Message, b: Message)
    requires a.Equals(AMessage(b))
    ensures a.HashCode() == b.HashCode()
  {
  }

  /** The fields of NO_MSG, and the messages it is equal to. */
  lemma NoMsgShape(m: Message)
    ensures NoMsg.id == ZeroUuid && NoMsg.sender == ZeroUuid && NoMsg.receivers == [ZeroUuid]
    ensures NoMsg.timestamp == 0 && NoMsg.content == "" && NoMsg.msgType == SimpleMsg
    ensures !NoMsg.IsTransient()
    ensures NoMsg.Equals(AMessage(m)) <==> m.id == ZeroUuid
  {
  }

  /** A transient message is equal to a base message with the same identifier. */
  lemma TransientEqualsBaseWithSameId(t: Message, b: Message)
    requires t.IsTransient() && !b.IsTransient() && t.id == b.id
    ensures t.Equals(AMessage(b)) && b.Equals(AMessage(t))
    ensures t.HashCode() == b.HashCode()
  {
  }
}
