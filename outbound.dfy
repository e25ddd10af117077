/** What `parseActivity` and one step of `sendActivities` produce for an
    outgoing activity, stated as functions of the activity; the methods of
    `Adapter.TwilioWhatsAppAdapter` compute the same step by step. */
module Outbound {
  import opened Common
  import opened Markup
  import opened Activities

  const SigninCardType := "application/vnd.microsoft.card.signin"
  /** The id placed in the response to a sent message, as written in the adapter. */
  const SentMessageId := "res.sid"

  /** `activity.text` after the formatting step: rewritten when truthy, as it was otherwise. */
  function FormattedText(text: Option<string>): Option<string> {
    if Truthy(text) then Some(WhatsAppMarkup(text.value)) else text
  }

  /** `channelData.persistentAction` as a list: an array is taken as it is, a
      truthy single value becomes a one-element list, anything else is dropped. */
  function NormalizedActions(p: Option<ActionValue>): Option<seq<string>> {
    match p
    case None => None
    case Some(ActionList(items)) => Some(items)
    case Some(SingleAction(item)) => if item != "" then Some([item]) else None
  }

  /** The body built from a sign-in card: its text, a blank line, the first
      button's title in bold when it has one, and the first button's value.
      Reading a card without buttons throws. */
  function SigninBody(content: Option<Content>): Result<string, AdapterError> {
    if content.Some? && content.value.SigninCard? && content.value.buttons.Some? && |content.value.buttons.value| > 0 then
      var button := content.value.buttons.value[0];
      Success(Show(content.value.text) + "\n\n" + (if Truthy(button.title) then "*" + button.title.value + "*\n" else "") + Show(button.value))
    else Failure(TypeError)
  }

  /** The location action: `geo:<latitude>,<longitude>`, followed by `|<name>` when the name is truthy. */
  function GeoAction(latitude: string, longitude: string, name: Option<string>): string {
    "geo:" + latitude + "," + longitude + (if Truthy(name) then "|" + name.value else "")
  }

  /** The effect of the first attachment on the message under construction. */
  function WithAttachment(m: OutboundMessage, att: Attachment): Result<OutboundMessage, AdapterError> {
    if att.contentType == Some(SigninCardType) then
      match SigninBody(att.content)
      case Success(body) => Success(m.(body := Some(body)))
      case Failure(e) => Failure(e)
    else if att.contentType == Some(JsonType) then
      if att.content.Some? && att.content.value.GeoCoordinates? then
        var geo := att.content.value;
        Success(m.(persistentAction := Some([GeoAction(geo.latitude, geo.longitude, geo.name)])))
      else Success(m)
    else if Truthy(att.contentUrl) then Success(m.(mediaUrl := att.contentUrl))
    else Success(m)
  }

  /** `parseActivity(a)` for an adapter whose phone number is `from`. */
  function ParsedMessage(from: string, a: OutboundActivity): Result<OutboundMessage, AdapterError> {
    if a.conversation.None? then Failure(TypeError)
    else
      var base := OutboundMessage(FormattedText(a.text), from, a.conversation.value.id, NormalizedActions(a.persistentAction), None);
      var built := if |a.attachments| > 0 then WithAttachment(base, a.attachments[0]) else Success(base);
      match built
      case Failure(e) => Failure(e)
      case Success(m) => if !Truthy(m.body) && !Truthy(m.mediaUrl) then Failure(MissingBodyOrMedia) else Success(m)
  }

  /** The synchronous part of `processOutboundEvent`: it reads `recipient.id`
      and `from.id`, and throws when either is missing. */
  predicate DispatchThrows(a: OutboundActivity) {
    a.recipientId.None? || a.fromId.None?
  }

  /** The response `sendActivities` produces for one activity, or the error that ends the loop. */
  function SendResult(from: string, a: OutboundActivity): Result<ResourceResponse, AdapterError> {
    if a.activityType == "delay" then Success(ResourceResponse(None))
    else if a.activityType == "message" then
      if a.conversation.None? || !Truthy(a.conversation.value.id) then Failure(MissingConversationId)
      else match ParsedMessage(from, a)
        case Failure(e) => Failure(e)
        case Success(_) => if DispatchThrows(a) then Failure(SendFailed) else Success(ResourceResponse(Some(SentMessageId)))
    else Success(ResourceResponse(None))
  }

  /** The message an activity hands to `processOutboundEvent` without that
      call throwing: the parsed message of a `message` activity that is
      answered with the sent id, and nothing for any other activity. */
  function DispatchedBy(from: string, a: OutboundActivity): (r: seq<OutboundMessage>)
    ensures |r| <= 1
  {
    if a.activityType == "message" && SendResult(from, a).Success? then
      match ParsedMessage(from, a)
      case Success(m) => [m]
      case Failure(_) => []
    else []
  }

  /** The messages dispatched by a run of `sendActivities` over `activities`, in order. */
  function Dispatched(from: string, activities: seq<OutboundActivity>): seq<OutboundMessage> {
    if |activities| == 0 then []
    else Dispatched(from, activities[..|activities| - 1]) + DispatchedBy(from, activities[|activities| - 1])
  }

  // ---------------------------------------------------------------------
  // Properties of parseActivity

  /** Only the first attachment is consulted. */
  lemma OnlyFirstAttachmentCounts(from: string, a: OutboundActivity, more: seq<Attachment>)
    requires |a.attachments| > 0
    ensures ParsedMessage(from, a.(attachments := a.attachments + more)) == ParsedMessage(from, a.(attachments := [a.attachments[0]]))
  {
    assert (a.attachments + more)[0] == a.attachments[0];
  }

  /** The message goes from the adapter's number to the conversation. */
  lemma ParsedMessageAddresses(from: string, a: OutboundActivity)
    requires ParsedMessage(from, a).Success?
    ensures a.conversation.Some?
    ensures ParsedMessage(from, a).value.from == from && ParsedMessage(from, a).value.to == a.conversation.value.id
  {
  }

  /** `parseActivity` throws `MissingBodyOrMedia` exactly when neither the
      final body nor a media URL is set. */
  lemma MissingBodyOrMediaIff(from: string, a: OutboundActivity)
    requires a.conversation.Some?
    requires |a.attachments| > 0 ==> WithAttachment(OutboundMessage(FormattedText(a.text), from, a.conversation.value.id, NormalizedActions(a.persistentAction), None), a.attachments[0]).Success?
    ensures ParsedMessage(from, a).Failure? <==> ParsedMessage(from, a) == Failure(MissingBodyOrMedia)
    ensures ParsedMessage(from, a) == Failure(MissingBodyOrMedia) <==>
      var base := OutboundMessage(FormattedText(a.text), from, a.conversation.value.id, NormalizedActions(a.persistentAction), None);
      var m := if |a.attachments| > 0 then WithAttachment(base, a.attachments[0]).value else base;
      !Truthy(m.body) && !Truthy(m.mediaUrl)
  {
  }

  /** Text without any of the four tag pairs is sent as it is. */
  lemma PlainTextPassesThrough(from: string, a: OutboundActivity)
    requires a.conversation.Some? && a.attachments == [] && Truthy(a.text)
    requires !HasPair(a.text.value, "b") && !HasPair(a.text.value, "i") && !HasPair(a.text.value, "s") && !HasPair(a.text.value, "code")
    ensures ParsedMessage(from, a) == Success(OutboundMessage(a.text, from, a.conversation.value.id, NormalizedActions(a.persistentAction), None))
  {
    MarkupWithoutTags(a.text.value);
  }

  /** A message without text and without attachments is refused. */
  lemma EmptyMessageRefused(from: string, a: OutboundActivity)
    requires a.conversation.Some? && a.attachments == [] && !Truthy(a.text)
    ensures ParsedMessage(from, a) == Failure(MissingBodyOrMedia)
  {
  }

  /** A sign-in card with a button always yields a body, so it is never refused
      for lacking one. The body is the card's text, a blank line, the first
      button's title in bold on a line of its own when it has one, and the
      first button's value. The persistent actions are kept and no media URL
      is set. */
  lemma SigninCardGivesBody(from: string, a: OutboundActivity, text: Option<string>, buttons: seq<CardAction>)
    requires a.conversation.Some? && |a.attachments| > 0 && |buttons| > 0
    requires a.attachments[0].contentType == Some(SigninCardType)
    requires a.attachments[0].content == Some(SigninCard(text, Some(buttons)))
    ensures ParsedMessage(from, a).Success?
    ensures var body := ParsedMessage(from, a).value.body.value;
      var head := Show(text) + "\n\n";
      |head| <= |body| && body[..|head|] == head
    ensures ParsedMessage(from, a).value.body ==
      Some(Show(text) + "\n\n" + (if Truthy(buttons[0].title) then "*" + buttons[0].title.value + "*\n" else "") + Show(buttons[0].value))
    ensures ParsedMessage(from, a).value.persistentAction == NormalizedActions(a.persistentAction) && ParsedMessage(from, a).value.mediaUrl.None?
  {
    var body := SigninBody(a.attachments[0].content).value;
    var head := Show(text) + "\n\n";
    var tail := (if Truthy(buttons[0].title) then "*" + buttons[0].title.value + "*\n" else "") + Show(buttons[0].value);
    assert body == head + tail;
    assert (head + tail)[..|head|] == head;
  }

  /** A card that is not a sign-in card with buttons throws when read as one. */
  lemma MalformedSigninCardThrows(from: string, a: OutboundActivity)
    requires a.conversation.Some? && |a.attachments| > 0
    requires a.attachments[0].contentType == Some(SigninCardType)
    requires a.attachments[0].content.None? || !a.attachments[0].content.value.SigninCard?
    ensures ParsedMessage(from, a) == Failure(TypeError)
  {
  }

  /** A location attachment sets the persistent action to the location alone,
      replacing any action from the channel data, and leaves the body as the
      formatted text; the message is still refused when it has no text. */
  lemma GeoReplacesActions(from: string, a: OutboundActivity, lat: string, lon: string, name: Option<string>)
    requires a.conversation.Some? && |a.attachments| > 0
    requires a.attachments[0].contentType == Some(JsonType)
    requires a.attachments[0].content == Some(GeoCoordinates(lat, lon, name))
    ensures ParsedMessage(from, a).Success? <==> Truthy(FormattedText(a.text))
    ensures ParsedMessage(from, a).Success? ==> ParsedMessage(from, a).value.persistentAction == Some([GeoAction(lat, lon, name)])
    ensures ParsedMessage(from, a).Success? ==> ParsedMessage(from, a).value.body == FormattedText(a.text) && ParsedMessage(from, a).value.mediaUrl.None?
  {
  }

  /** The location action of a named place, and of a place whose name is empty. */
  lemma GeoActionExample()
    ensures GeoAction("1.5", "2.5", Some("X")) == "geo:1.5,2.5|X"
    ensures GeoAction("1.5", "2.5", Some("")) == "geo:1.5,2.5"
  {
  }

  /** Any other attachment becomes the media URL exactly when it has a content
      URL, and changes nothing else. */
  lemma MediaUrlIffContentUrl(from: string, a: OutboundActivity)
    requires a.conversation.Some? && |a.attachments| > 0
    requires a.attachments[0].contentType != Some(SigninCardType) && a.attachments[0].contentType != Some(JsonType)
    ensures ParsedMessage(from, a).Success? ==>
      (ParsedMessage(from, a).value.mediaUrl.Some? <==> Truthy(a.attachments[0].contentUrl))
    ensures Truthy(a.attachments[0].contentUrl) ==>
      ParsedMessage(from, a).Success? && ParsedMessage(from, a).value.mediaUrl == a.attachments[0].contentUrl
    ensures ParsedMessage(from, a).Success? ==>
      ParsedMessage(from, a).value.body == FormattedText(a.text) && ParsedMessage(from, a).value.persistentAction == NormalizedActions(a.persistentAction)
  {
  }

  /** A truthy single action becomes a one-element list; an array is kept. */
  lemma ActionsNormalized(p: ActionValue)
    ensures p.ActionList? ==> NormalizedActions(Some(p)) == Some(p.items)
    ensures p.SingleAction? ==> (NormalizedActions(Some(p)).Some? <==> p.item != "")
    ensures p.SingleAction? && p.item != "" ==> NormalizedActions(Some(p)) == Some([p.item])
  {
  }

  // ---------------------------------------------------------------------
  // Properties of one step of sendActivities

  /** Only messages can fail; every other activity is answered with `{}`. */
  lemma OnlyMessagesFail(from: string, a: OutboundActivity)
    ensures SendResult(from, a).Failure? ==> a.activityType == "message"
    ensures a.activityType != "message" ==> SendResult(from, a) == Success(ResourceResponse(None))
  {
  }

  /** A message is answered with the sent id exactly when it has a
      conversation id, parses, and can be dispatched. */
  lemma MessageResponse(from: string, a: OutboundActivity)
    requires a.activityType == "message"
    ensures SendResult(from, a).Success? <==>
      a.conversation.Some? && Truthy(a.conversation.value.id) && ParsedMessage(from, a).Success? && !DispatchThrows(a)
    ensures SendResult(from, a).Success? ==> SendResult(from, a).value.id == Some(SentMessageId)
    ensures a.conversation.None? || !Truthy(a.conversation.value.id) ==> SendResult(from, a) == Failure(MissingConversationId)
  {
  }

  /** A run over `xs` followed by `ys` dispatches the messages of `xs`, then those of `ys`. */
  lemma {:induction false} DispatchedAppend(from: string, xs: seq<OutboundActivity>, ys: seq<OutboundActivity>)
    ensures Dispatched(from, xs + ys) == Dispatched(from, xs) + Dispatched(from, ys)
    decreases |ys|
  {
    if |ys| == 0 {
      assert xs + ys == xs;
    } else {
      var zs := ys[..|ys| - 1];
      assert (xs + ys)[..|xs + ys| - 1] == xs + zs;
      DispatchedAppend(from, xs, zs);
    }
  }

  /** A `message` activity that is answered with the sent id. */
  predicate Answered(from: string, a: OutboundActivity) {
    a.activityType == "message" && SendResult(from, a).Success?
  }

  /** The positions of the answered messages among the first `n` activities. */
  function AnsweredBelow(from: string, activities: seq<OutboundActivity>, n: nat): set<nat>
    requires n <= |activities|
  {
    set k: nat | k < n && Answered(from, activities[k])
  }

  /** An activity dispatches a message exactly when it is an answered `message`. */
  lemma DispatchedByAnswered(from: string, a: OutboundActivity)
    ensures |DispatchedBy(from, a)| == if Answered(from, a) then 1 else 0
  {
  }

  /** Extending the first `n` positions by one adds position `n` exactly when it is answered. */
  lemma AnsweredBelowStep(from: string, activities: seq<OutboundActivity>, n: nat)
    requires n < |activities|
    ensures AnsweredBelow(from, activities, n + 1) ==
      AnsweredBelow(from, activities, n) + (if Answered(from, activities[n]) then {n} else {})
    ensures n !in AnsweredBelow(from, activities, n)
  {
  }

  /** The answered positions below `n` depend only on the first `n` activities. */
  lemma AnsweredBelowPrefix(from: string, activities: seq<OutboundActivity>, n: nat)
    requires n <= |activities|
    ensures AnsweredBelow(from, activities[..n], n) == AnsweredBelow(from, activities, n)
  {
    assert forall k :: 0 <= k < n ==> activities[..n][k] == activities[k];
  }

  /** One message is dispatched per `message` activity answered with the sent id. */
  lemma {:induction false} DispatchedCount(from: string, activities: seq<OutboundActivity>)
    ensures |Dispatched(from, activities)| == |AnsweredBelow(from, activities, |activities|)|
    decreases |activities|
  {
    if |activities| > 0 {
      var n := |activities| - 1;
      var init := activities[..n];
      assert Dispatched(from, activities) == Dispatched(from, init) + DispatchedBy(from, activities[n]);
      DispatchedCount(from, init);
      AnsweredBelowPrefix(from, activities, n);
      AnsweredBelowStep(from, activities, n);
      DispatchedByAnswered(from, activities[n]);
    }
  }

  /** Every dispatched message goes from the adapter's number and carries a body or a media URL. */
  lemma {:induction false} DispatchedWellFormed(from: string, activities: seq<OutboundActivity>)
    ensures forall m :: m in Dispatched(from, activities) ==> m.from == from && (Truthy(m.body) || Truthy(m.mediaUrl))
    decreases |activities|
  {
    if |activities| > 0 {
      DispatchedWellFormed(from, activities[..|activities| - 1]);
    }
  }
}
