/** The records the adapter reads and writes: its settings, Bot Framework
    activities going out and coming in, the Twilio message it builds, and the
    errors it throws. Fields that JavaScript may leave `undefined` are
    `Option`s; fields the adapter never looks at are not modelled. */
module Activities {
  import opened Common

  /** The types an inbound activity can be given: Bot Framework's `message`
      and the WhatsApp status types of `WhatsAppActivityTypes`. */
  datatype ActivityType =
    | Message
    | MessageRead
    | MessageDelivered
    | MessageSent
    | MessageQueued
    | MessageFailed

  /** `TwilioWhatsAppAdapterSettings`. */
  datatype Settings = Settings(
    accountSid: Option<string>,
    authToken: Option<string>,
    phoneNumber: Option<string>,
    endpointUrl: Option<string>)

  /** The content type of a JSON attachment, such as a location. */
  const JsonType := "application/json"

  /** A button of a sign-in card. */
  datatype CardAction = CardAction(title: Option<string>, value: Option<string>)

  /** The `content` of an attachment, as far as the adapter inspects it.
      Coordinates are kept as the text they are written with. */
  datatype Content =
    | GeoCoordinates(latitude: string, longitude: string, name: Option<string>)
    | SigninCard(text: Option<string>, buttons: Option<seq<CardAction>>)
    | OtherContent

  datatype Attachment = Attachment(
    contentType: Option<string>,
    contentUrl: Option<string>,
    content: Option<Content>,
    name: Option<string>)

  /** `channelData.persistentAction`: an array, or a single value. */
  datatype ActionValue = ActionList(items: seq<string>) | SingleAction(item: string)

  datatype Conversation = Conversation(id: Option<string>)

  /** An activity the bot sends. `fromId` and `recipientId` are `from.id` and
      `recipient.id`, `None` when the id or the whole account is missing. */
  datatype OutboundActivity = OutboundActivity(
    activityType: string,
    text: Option<string>,
    conversation: Option<Conversation>,
    fromId: Option<string>,
    recipientId: Option<string>,
    persistentAction: Option<ActionValue>,
    attachments: seq<Attachment>)

  /** The Twilio message `parseActivity` builds. */
  datatype OutboundMessage = OutboundMessage(
    body: Option<string>,
    from: string,
    to: Option<string>,
    persistentAction: Option<seq<string>>,
    mediaUrl: Option<string>)

  /** `ResourceResponse`: `{}` or `{ id }`. */
  datatype ResourceResponse = ResourceResponse(id: Option<string>)

  /** An activity built from a Twilio webhook request; `channelData` is the
      decoded request body itself. */
  datatype InboundActivity = InboundActivity(
    id: Option<string>,
    channelId: string,
    conversationId: Option<string>,
    fromId: Option<string>,
    recipientId: Option<string>,
    text: Option<string>,
    channelData: map<string, string>,
    serviceUrl: Option<string>,
    labelValue: Option<string>,  // `label`
    activityType: Option<ActivityType>,
    attachments: seq<Attachment>)

  /** The `httpStatus` and `httpBody` values of a turn's state. */
  datatype TurnState = TurnState(httpStatus: int, httpBody: Option<string>)

  /** What `processActivity` writes to the web response: a status, and a body
      when `res.send` is used rather than `res.end`. */
  datatype HttpResponse = HttpResponse(status: int, body: Option<string>)

  /** The errors the adapter throws. */
  datatype AdapterError =
    | MissingSettings        // constructor: a required setting is missing
    | MissingConversationId  // sendActivities: message without conversation id
    | TypeError              // a property read on `undefined`
    | MissingBodyOrMedia     // parseActivity: neither text nor media URL
    | SendFailed             // sendActivities: processOutboundEvent threw
    | NotSupported           // updateActivity, deleteActivity
}
