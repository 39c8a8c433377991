/** The JSON text frames of the `/ws` endpoint and the two-phase decoding the
    handler applies to them: first only the `Type` discriminator, then the
    full request schema chosen by it.

    A frame is modelled after JSON parsing, as the four fields the schemas
    know about. Each field is absent (it decodes to Go's zero value), present
    with a value of the right type, or present with a value the schema's Go
    type cannot hold (a string where a number is due, a negative id). Ids are
    Go `uint`s, 64 bits on a 64-bit platform: a present id of 2^64 or more is an unmarshal
    error as well. */
module Frames {
  import opened Models

  datatype Field<+T> = Absent | Given(value: T) | IllTyped

  datatype RawFrame =
    | NotJson
    | JsonObject(kind: Field<string>, chatId: Field<nat>, userId: Field<nat>, message: Field<string>)

  /** A decoded request: the two handled schemas, or any other `Type`. */
  datatype Request =
    | JoinChat(chatId: ChatId, userId: UserId)
    | SendMessage(chatId: ChatId, userId: UserId, message: string)
    | Other(kind: string)

  /** `Fatal` stands for an unmarshal error, on which the handler aborts. */
  datatype Decoded = Fatal | Decoded(request: Request)

  const JoinChatType := "join_chat"
  const SendMessageType := "send_message"
  const NewMessageType := "new_message"

  predicate IsHandledType(kind: string) {
    kind == JoinChatType || kind == SendMessageType
  }

  /** One more than the largest value of a Go `uint` on a 64-bit platform. */
  const UintLimit: nat := 0x1_0000_0000_0000_0000

  /** An id field the schema's `uint` can hold: absent, or a present value
      below the limit. */
  predicate IdFits(f: Field<nat>) {
    match f
    case Absent => true
    case Given(v) => v < UintLimit
    case IllTyped => false
  }

  function FieldOr<T>(f: Field<T>, zero: T): T {
    match f
    case Given(v) => v
    case _ => zero
  }

  /** Unmarshalling into the base schema, which only has `Type`, succeeds. */
  predicate BaseDecodes(raw: RawFrame) {
    raw.JsonObject? && !raw.kind.IllTyped?
  }

  /** The `Type` the base schema decodes, "" when the field is absent. */
  function TypeOf(raw: RawFrame): string
    requires BaseDecodes(raw)
  {
    FieldOr(raw.kind, "")
  }

  /** The join schema has no `Message` field, so only the ids can break it. */
  predicate JoinDecodes(raw: RawFrame)
    requires raw.JsonObject?
  {
    IdFits(raw.chatId) && IdFits(raw.userId)
  }

  predicate SendDecodes(raw: RawFrame)
    requires raw.JsonObject?
  {
    JoinDecodes(raw) && !raw.message.IllTyped?
  }

  /** The handler's reading of one frame: the base decode, the switch on
      `Type`, and the schema decode of the chosen branch. */
  function Decode(raw: RawFrame): (d: Decoded)
    ensures d.Fatal? <==>
              || !BaseDecodes(raw)
              || (TypeOf(raw) == JoinChatType && !JoinDecodes(raw))
              || (TypeOf(raw) == SendMessageType && !SendDecodes(raw))
    ensures d.Decoded? && d.request.JoinChat? ==>
              && TypeOf(raw) == JoinChatType
              && d.request.chatId == FieldOr(raw.chatId, 0)
              && d.request.userId == FieldOr(raw.userId, 0)
              && d.request.chatId < UintLimit && d.request.userId < UintLimit
    ensures d.Decoded? && d.request.SendMessage? ==>
              && TypeOf(raw) == SendMessageType
              && d.request.chatId == FieldOr(raw.chatId, 0)
              && d.request.userId == FieldOr(raw.userId, 0)
              && d.request.message == FieldOr(raw.message, "")
              && d.request.chatId < UintLimit && d.request.userId < UintLimit
    ensures d.Decoded? && d.request.Other? ==>
              d.request.kind == TypeOf(raw) && !IsHandledType(d.request.kind)
  {
    if !BaseDecodes(raw) then Fatal
    else
      var kind := TypeOf(raw);
      if kind == JoinChatType then
        if JoinDecodes(raw) then Decoded(JoinChat(FieldOr(raw.chatId, 0), FieldOr(raw.userId, 0)))
        else Fatal
      else if kind == SendMessageType then
        if SendDecodes(raw) then
          Decoded(SendMessage(FieldOr(raw.chatId, 0), FieldOr(raw.userId, 0), FieldOr(raw.message, "")))
        else Fatal
      else Decoded(Other(kind))
  }

  /** A frame a well-behaved client sends for a request. */
  function Encode(req: Request): RawFrame {
    match req
    case JoinChat(chatId, userId) => JsonObject(Given(JoinChatType), Given(chatId), Given(userId), Absent)
    case SendMessage(chatId, userId, message) =>
      JsonObject(Given(SendMessageType), Given(chatId), Given(userId), Given(message))
    case Other(kind) => JsonObject(Given(kind), Absent, Absent, Absent)
  }

  /** Every request whose `Type` is not taken by another request and whose
      ids fit a `uint` survives encoding and decoding unchanged. */
  lemma DecodeEncode(req: Request)
    requires req.Other? ==> !IsHandledType(req.kind)
    requires !req.Other? ==> req.chatId < UintLimit && req.userId < UintLimit
    ensures Decode(Encode(req)) == Decoded(req)
  {
  }

  /** A join frame decodes the same whatever its `Message` field holds, even
      a value of the wrong type. */
  lemma JoinIgnoresMessage(raw: RawFrame, message: Field<string>)
    requires raw.JsonObject? && raw.kind == Given(JoinChatType)
    ensures Decode(raw.(message := message)) == Decode(raw)
  {
  }

  /** Fields absent from a frame decode as zero ids and empty content. */
  lemma AbsentFieldsDecodeToZero(kind: string)
    requires IsHandledType(kind)
    ensures var d := Decode(JsonObject(Given(kind), Absent, Absent, Absent));
            d.Decoded? &&
            (if kind == JoinChatType then d.request == JoinChat(0, 0) else d.request == SendMessage(0, 0, ""))
  {
  }

  /** An id too large for a `uint` in a handled frame is an unmarshal error,
      whatever the other fields hold. */
  lemma OversizedIdAborts(raw: RawFrame)
    requires raw.JsonObject? && raw.kind.Given? && IsHandledType(raw.kind.value)
    requires (raw.chatId.Given? && raw.chatId.value >= UintLimit) || (raw.userId.Given? && raw.userId.value >= UintLimit)
    ensures Decode(raw) == Fatal
  {
  }
}
