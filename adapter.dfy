/** The adapter object: its settings, and the operations the Bot Framework
    calls on it — sending, updating and deleting activities, and turning an
    incoming webhook request into a turn. */
module Adapter {
  import opened Common
  import opened Markup
  import opened Activities
  import Inbound
  import opened Outbound

  const Prefix := "whatsapp:"

  /** Every setting is present and non-empty. */
  predicate Complete(s: Settings) {
    Truthy(s.accountSid) && Truthy(s.authToken) && Truthy(s.phoneNumber) && Truthy(s.endpointUrl)
  }

  /** The phone number with the `whatsapp:` prefix added when it is missing. */
  function WithWhatsAppPrefix(phone: string): string {
    if StartsWith(phone, Prefix) then phone else Prefix + phone
  }

  /** The settings as the constructor leaves them. */
  function NormalizedSettings(s: Settings): Settings
    requires Complete(s)
  {
    s.(phoneNumber := Some(WithWhatsAppPrefix(s.phoneNumber.value)))
  }

  /** The prefixed number starts with `whatsapp:` and ends with the number given. */
  lemma PrefixedNumber(phone: string)
    ensures var r := WithWhatsAppPrefix(phone);
      StartsWith(r, Prefix) && |phone| <= |r| && r[|r| - |phone|..] == phone
  {
    var r := WithWhatsAppPrefix(phone);
    if !StartsWith(phone, Prefix) {
      assert (Prefix + phone)[..|Prefix|] == Prefix;
      assert (Prefix + phone)[|r| - |phone|..] == phone;
    }
  }

  /** Adding the prefix twice is adding it once. */
  lemma PrefixIdempotent(phone: string)
    ensures WithWhatsAppPrefix(WithWhatsAppPrefix(phone)) == WithWhatsAppPrefix(phone)
  {
    PrefixedNumber(phone);
  }

  /** A number that already carries the prefix is left alone. */
  lemma PrefixedNumberUnchanged(phone: string)
    requires |Prefix| <= |phone| && phone[..|Prefix|] == Prefix
    ensures WithWhatsAppPrefix(phone) == phone
  {
  }

  /** Normalized settings keep every other setting and are complete. */
  lemma NormalizedSettingsComplete(s: Settings)
    requires Complete(s)
    ensures Complete(NormalizedSettings(s))
    ensures StartsWith(NormalizedSettings(s).phoneNumber.value, Prefix)
    ensures NormalizedSettings(s).(phoneNumber := s.phoneNumber) == s
  {
    PrefixedNumber(s.phoneNumber.value);
  }

  /** `req.headers['x-twilio-signature'] || req.headers['X-Twilio-Signature']`,
      `None` when neither is truthy. */
  function Signature(headers: map<string, string>): (r: Option<string>)
    ensures r.Some? ==> r.value != ""
    ensures r.None? <==> !Truthy(Field(headers, "x-twilio-signature")) && !Truthy(Field(headers, "X-Twilio-Signature"))
  {
    if Truthy(Field(headers, "x-twilio-signature")) then Field(headers, "x-twilio-signature")
    else if Truthy(Field(headers, "X-Twilio-Signature")) then Field(headers, "X-Twilio-Signature")
    else None
  }

  /** Every activity before `i` is answered and activity `i` throws `e`. */
  predicate FailsFirstAt(from: string, activities: seq<OutboundActivity>, i: nat, e: AdapterError)
    requires i < |activities|
  {
    (forall k :: 0 <= k < i ==> SendResult(from, activities[k]).Success?) && SendResult(from, activities[i]) == Failure(e)
  }

  class TwilioWhatsAppAdapter {
    var settings: Settings
    const channel: string

    ghost predicate Valid()
      reads this
    {
      Complete(settings) && StartsWith(settings.phoneNumber.value, Prefix) && channel == Inbound.Channel
    }

    /** The constructor, for complete settings; `Create` is the constructor
        call as a whole, which throws on incomplete settings. */
    constructor (s: Settings)
      requires Complete(s)
      ensures Valid() && settings == NormalizedSettings(s)
    {
      channel := Inbound.Channel;
      settings := s;
      new;
      if !StartsWith(settings.phoneNumber.value, Prefix) {
        settings := settings.(phoneNumber := Some(Prefix + settings.phoneNumber.value));
      }
      PrefixedNumber(s.phoneNumber.value);
    }

    static method Create(s: Settings) returns (r: Result<TwilioWhatsAppAdapter, AdapterError>)
      ensures r.Failure? <==> !Complete(s)
      ensures r.Failure? ==> r.error == MissingSettings
      ensures r.Success? ==> fresh(r.value) && r.value.Valid() && r.value.settings == NormalizedSettings(s)
    {
      if !Complete(s) {
        return Failure(MissingSettings);
      }
      var adapter := new TwilioWhatsAppAdapter(s);
      r := Success(adapter);
    }

    /** `parseActivity`: the message to send for `a`, and `a.text` as the
        formatting step leaves it (it is rewritten in place, even when the
        call then throws). */
    method ParseActivity(a: OutboundActivity) returns (r: Result<OutboundMessage, AdapterError>, text: Option<string>)
      requires Valid()
      ensures text == FormattedText(a.text)
      ensures r == ParsedMessage(settings.phoneNumber.value, a)
    {
      text := a.text;
      if Truthy(text) {
        var t := ReplaceTagPairs(text.value, "b", "*");
        t := ReplaceTagPairs(t, "i", "_");
        t := ReplaceTagPairs(t, "s", "~");
        t := ReplaceTagPairs(t, "code", "```");
        text := Some(t);
      }
      if a.conversation.None? {
        return Failure(TypeError), text;
      }
      var message := OutboundMessage(text, settings.phoneNumber.value, a.conversation.value.id, None, None);
      if a.persistentAction.Some? {
        match a.persistentAction.value
        case ActionList(items) =>
          message := message.(persistentAction := Some(items));
        case SingleAction(item) =>
          if item != "" {
            message := message.(persistentAction := Some([item]));
          }
      }
      if |a.attachments| > 0 {
        var attachment := a.attachments[0];
        if attachment.contentType == Some(SigninCardType) {
          var signin := attachment.content;
          if !(signin.Some? && signin.value.SigninCard? && signin.value.buttons.Some? && |signin.value.buttons.value| > 0) {
            return Failure(TypeError), text;
          }
          var button := signin.value.buttons.value[0];
          var body := Show(signin.value.text) + "\n\n";
          body := body + (if Truthy(button.title) then "*" + button.title.value + "*\n" else "");
          body := body + Show(button.value);
          message := message.(body := Some(body));
        } else if attachment.contentType == Some(JsonType) {
          if attachment.content.Some? && attachment.content.value.GeoCoordinates? {
            var geo := attachment.content.value;
            message := message.(persistentAction := Some([GeoAction(geo.latitude, geo.longitude, geo.name)]));
          }
        } else if Truthy(attachment.contentUrl) {
          message := message.(mediaUrl := attachment.contentUrl);
        }
      }
      if !Truthy(message.body) && !Truthy(message.mediaUrl) {
        return Failure(MissingBodyOrMedia), text;
      }
      r := Success(message);
    }

    /** `sendActivities`: one response per activity, in order, unless an
        activity throws, which ends the loop with that activity's error.
        `sent` is the sequence of messages handed to `processOutboundEvent`
        by calls that did not throw. */
    method SendActivities(activities: seq<OutboundActivity>) returns (r: Result<seq<ResourceResponse>, AdapterError>, ghost sent: seq<OutboundMessage>)
      requires Valid()
      ensures r.Success? <==> forall k :: 0 <= k < |activities| ==> SendResult(settings.phoneNumber.value, activities[k]).Success?
      ensures r.Success? ==> |r.value| == |activities|
      ensures r.Success? ==> forall k :: 0 <= k < |activities| ==>
                               r.value[k] == SendResult(settings.phoneNumber.value, activities[k]).value
      ensures r.Success? ==> sent == Dispatched(settings.phoneNumber.value, activities)
      ensures r.Failure? ==> exists i :: 0 <= i < |activities| && FailsFirstAt(settings.phoneNumber.value, activities, i, r.error) &&
                               sent == Dispatched(settings.phoneNumber.value, activities[..i])
    {
      var from := settings.phoneNumber.value;
      var responses: seq<ResourceResponse> := [];
      sent := [];
      for i := 0 to |activities|
        invariant |responses| == i
        invariant forall k :: 0 <= k < i ==> SendResult(from, activities[k]) == Success(responses[k])
        invariant sent == Dispatched(from, activities[..i])
      {
        var activity := activities[i];
        assert activities[..i + 1][..i] == activities[..i];
        if activity.activityType == "delay" {
          responses := responses + [ResourceResponse(None)];
        } else if activity.activityType == "message" {
          if activity.conversation.None? || !Truthy(activity.conversation.value.id) {
            assert FailsFirstAt(from, activities, i, MissingConversationId);
            return Failure(MissingConversationId), sent;
          }
          var message, _ := ParseActivity(activity);
          if message.Failure? {
            assert FailsFirstAt(from, activities, i, message.error);
            return Failure(message.error), sent;
          }
          if DispatchThrows(activity) {
            assert FailsFirstAt(from, activities, i, SendFailed);
            return Failure(SendFailed), sent;
          }
          sent := sent + [message.value];
          responses := responses + [ResourceResponse(Some(SentMessageId))];
        } else {
          responses := responses + [ResourceResponse(None)];
        }
      }
      assert activities[..|activities|] == activities;
      r := Success(responses);
    }

    /** Twilio's check accepts the request signed with the header signature,
        for this adapter's auth token and endpoint URL. */
    predicate Accepted(headers: map<string, string>, message: map<string, string>,
                       validate: (string, string, string, map<string, string>) -> bool)
      requires Valid() && Signature(headers).Some?
      reads this
    {
      validate(settings.authToken.value, Signature(headers).value, settings.endpointUrl.value, message)
    }

    /** `updateActivity` is not supported and always throws. */
    method UpdateActivity(a: OutboundActivity) returns (o: Outcome<AdapterError>)
      ensures o.Fail? && o.error == NotSupported
    {
      o := Fail(NotSupported);
    }

    /** `deleteActivity` is not supported and always throws. */
    method DeleteActivity(reference: Conversation) returns (o: Outcome<AdapterError>)
      ensures o.Fail? && o.error == NotSupported
    {
      o := Fail(NotSupported);
    }

    /** `processActivity` for a request with headers `headers` whose body
        `retrieveBody` decodes to `body`. `validate` stands for Twilio's
        request-signature check and `logic` for the middleware pipeline and
        the bot, as the change it makes to the turn's state. `handled` is the
        activity the pipeline is run on, `None` when it is not run. */
    method ProcessActivity(
      headers: map<string, string>,
      body: Option<map<string, string>>,
      validate: (string, string, string, map<string, string>) -> bool,
      logic: (InboundActivity, TurnState) -> TurnState)
      returns (res: HttpResponse, handled: Option<InboundActivity>)
      requires Valid()
      ensures Signature(headers).None? ==> res == HttpResponse(401, None) && handled.None?
      ensures Signature(headers).Some? && body.None? ==> res == HttpResponse(400, None) && handled.None?
      ensures Signature(headers).Some? && body.Some? && !Accepted(headers, body.value, validate) ==>
                res == HttpResponse(403, None) && handled.None?
      ensures handled.Some? <==> (Signature(headers).Some? && body.Some? && Accepted(headers, body.value, validate))
      ensures handled.Some? ==> handled.value == Inbound.InboundOf(body.value)
      ensures handled.Some? ==> var state := logic(handled.value, TurnState(200, None));
                res.status == state.httpStatus && (res.body.Some? <==> Truthy(state.httpBody)) &&
                (res.body.Some? ==> res.body == state.httpBody)
    {
      var signature := Signature(headers);
      if signature.None? {
        return HttpResponse(401, None), None;
      }
      var authToken := settings.authToken.value;
      var requestUrl := settings.endpointUrl.value;
      if body.None? {
        return HttpResponse(400, None), None;
      }
      var message := body.value;
      if !validate(authToken, signature.value, requestUrl, message) {
        return HttpResponse(403, None), None;
      }
      var activity := Inbound.Canonicalize(message);
      var state := TurnState(200, None);
      state := logic(activity, state);
      handled := Some(activity);
      if Truthy(state.httpBody) {
        res := HttpResponse(state.httpStatus, state.httpBody);
      } else {
        res := HttpResponse(state.httpStatus, None);
      }
    }
  }
}
