/** How `processActivity` turns the decoded body of a Twilio webhook request
    (a form-encoded record of strings) into a Bot Framework activity: the
    activity type from `SmsStatus` and `EventType`, and the attachment list
    from the indexed media fields and the location fields. */
module Inbound {
  import opened Common
  import opened Activities

  const Channel := "whatsapp"

  /** The `SmsStatus` switch, on the lower-cased status. */
  function StatusType(status: string): Option<ActivityType> {
    var s := LowerAscii(status);
    if s == "sent" then Some(MessageSent)
    else if s == "received" then Some(Message)
    else if s == "delivered" then Some(MessageDelivered)
    else if s == "read" then Some(MessageRead)
    else None
  }

  /** The `EventType` switch, on the lower-cased event type. */
  function EventType(event: string): Option<ActivityType> {
    var s := LowerAscii(event);
    if s == "delivered" then Some(MessageDelivered)
    else if s == "read" then Some(MessageRead)
    else if s == "received" then Some(Message)
    else None
  }

  /** The type the activity ends up with: the status type, overwritten by a
      recognised event type; `None` is JavaScript's `null`. */
  function ActivityTypeOf(m: map<string, string>): Option<ActivityType> {
    var fromStatus := if Truthy(Field(m, "SmsStatus")) then StatusType(m["SmsStatus"]) else None;
    if Truthy(Field(m, "EventType")) && EventType(m["EventType"]).Some? then EventType(m["EventType"])
    else fromStatus
  }

  /** The two successive switches of `processActivity`. */
  method Classify(m: map<string, string>) returns (t: Option<ActivityType>)
    ensures t == ActivityTypeOf(m)
  {
    t := None;
    var status := Field(m, "SmsStatus");
    if Truthy(status) {
      var s := StatusType(status.value);
      if s.Some? {
        t := s;
      }
    }
    var event := Field(m, "EventType");
    if Truthy(event) {
      var e := EventType(event.value);
      if e.Some? {
        t := e;
      }
    }
  }

  /** The number of media attachments: `parseInt(NumMedia)` when `NumMedia`
      is set and parses to a positive count, otherwise none. */
  function MediaCount(m: map<string, string>): nat {
    var n := Field(m, "NumMedia");
    if Truthy(n) && ParseCount(n.value).Some? then ParseCount(n.value).value else 0
  }

  /** The attachment for media item `i`, read from `MediaContentType<i>` and `MediaUrl<i>`. */
  function MediaAttachment(m: map<string, string>, i: nat): Attachment {
    Attachment(Field(m, "MediaContentType" + NatToString(i)), Field(m, "MediaUrl" + NatToString(i)), None, None)
  }

  function MediaAttachments(m: map<string, string>, n: nat): seq<Attachment> {
    seq(n, i requires 0 <= i < n => MediaAttachment(m, i))
  }

  predicate HasGeo(m: map<string, string>) {
    Truthy(Field(m, "Latitude")) && Truthy(Field(m, "Longitude"))
  }

  /** The location attachment: JSON content holding the coordinates, named by `Address`. */
  function GeoAttachment(m: map<string, string>): Attachment
    requires HasGeo(m)
  {
    var address := Field(m, "Address");
    Attachment(Some(JsonType), None, Some(GeoCoordinates(m["Latitude"], m["Longitude"], address)), address)
  }

  /** The attachment list of an activity of type `t`. */
  function InboundAttachments(m: map<string, string>, t: Option<ActivityType>): seq<Attachment> {
    if t != Some(Message) then []
    else MediaAttachments(m, MediaCount(m)) + (if HasGeo(m) then [GeoAttachment(m)] else [])
  }

  /** The activity built from decoded body `m` (the timestamp is not modelled). */
  function InboundOf(m: map<string, string>): InboundActivity {
    var t := ActivityTypeOf(m);
    var from := Field(m, "From");
    InboundActivity(
      Field(m, "MessageSid"), Channel, from, from, Field(m, "To"), Field(m, "Body"), m,
      Field(m, "serviceUrl"), Field(m, "MessagingServiceSid"), t, InboundAttachments(m, t))
  }

  /** The activity-building part of `processActivity`. */
  method Canonicalize(m: map<string, string>) returns (a: InboundActivity)
    ensures a == InboundOf(m)
  {
    var from := Field(m, "From");
    var t := Classify(m);
    var attachments: seq<Attachment> := [];
    if t == Some(Message) {
      var numMedia := Field(m, "NumMedia");
      if Truthy(numMedia) && ParseCount(numMedia.value).Some? && ParseCount(numMedia.value).value > 0 {
        var amount := ParseCount(numMedia.value).value;
        for i := 0 to amount
          invariant attachments == MediaAttachments(m, i)
        {
          attachments := attachments + [MediaAttachment(m, i)];
        }
      }
      if HasGeo(m) {
        attachments := attachments + [GeoAttachment(m)];
      }
    }
    a := InboundActivity(
      Field(m, "MessageSid"), Channel, from, from, Field(m, "To"), Field(m, "Body"), m,
      Field(m, "serviceUrl"), Field(m, "MessagingServiceSid"), t, attachments);
  }

  // ---------------------------------------------------------------------
  // Properties of the classification

  /** A recognised `EventType` decides the type, whatever `SmsStatus` says. */
  lemma EventTypeOverrides(m: map<string, string>)
    requires "EventType" in m && EventType(m["EventType"]).Some?
    ensures ActivityTypeOf(m) == EventType(m["EventType"])
  {
  }

  /** Without a recognised event type the status decides; unknown or absent
      fields leave the type unset. */
  lemma StatusDecidesOtherwise(m: map<string, string>)
    requires "EventType" !in m || EventType(m["EventType"]).None?
    ensures "SmsStatus" in m ==> ActivityTypeOf(m) == StatusType(m["SmsStatus"])
    ensures "SmsStatus" !in m ==> ActivityTypeOf(m).None?
  {
  }

  /** The type is decided on the lower-cased fields: spellings that differ
      only in the case of their letters classify alike. */
  lemma ClassificationIgnoresCase(m: map<string, string>, n: map<string, string>)
    requires ("SmsStatus" in m) == ("SmsStatus" in n) && ("EventType" in m) == ("EventType" in n)
    requires "SmsStatus" in m ==> LowerAscii(m["SmsStatus"]) == LowerAscii(n["SmsStatus"])
    requires "EventType" in m ==> LowerAscii(m["EventType"]) == LowerAscii(n["EventType"])
    ensures ActivityTypeOf(m) == ActivityTypeOf(n)
  {
    if "SmsStatus" in m {
      assert |m["SmsStatus"]| == 0 <==> |n["SmsStatus"]| == 0;
    }
    if "EventType" in m {
      assert |m["EventType"]| == 0 <==> |n["EventType"]| == 0;
    }
  }

  /** The queued and failed types are declared but never assigned. */
  lemma NeverQueuedOrFailed(m: map<string, string>)
    ensures ActivityTypeOf(m) != Some(MessageQueued) && ActivityTypeOf(m) != Some(MessageFailed)
  {
  }

  /** A status report of a message that was sent and then read is typed `messageRead`. */
  lemma ReadEventOverridesSentStatus()
    ensures ActivityTypeOf(map["SmsStatus" := "Sent", "EventType" := "READ"]) == Some(MessageRead)
  {
    var m := map["SmsStatus" := "Sent", "EventType" := "READ"];
    assert LowerAscii("READ") == "read";
    assert Field(m, "EventType") == Some("READ");
  }

  // ---------------------------------------------------------------------
  // Properties of the attachment list

  /** Only a `message` activity carries attachments. */
  lemma AttachmentsOnlyForMessages(m: map<string, string>, t: Option<ActivityType>)
    requires |InboundAttachments(m, t)| > 0
    ensures t == Some(Message)
  {
  }

  /** A message carries the media attachments in index order, followed by
      exactly one location attachment when both coordinates are present. */
  lemma MessageAttachmentsLayout(m: map<string, string>)
    ensures var atts := InboundAttachments(m, Some(Message));
      && |atts| == MediaCount(m) + (if HasGeo(m) then 1 else 0)
      && (forall i :: 0 <= i < MediaCount(m) ==> atts[i] == MediaAttachment(m, i))
      && (HasGeo(m) ==> atts[|atts| - 1] == GeoAttachment(m) && atts[|atts| - 1].contentType == Some(JsonType))
  {
  }

  /** `NumMedia` written as the decimal number `n` yields `n` media attachments. */
  lemma MediaCountOfNumMedia(m: map<string, string>, n: nat)
    requires "NumMedia" in m && m["NumMedia"] == NatToString(n)
    ensures MediaCount(m) == n
  {
    ParseCountOfNatToString(n);
  }

  /** Media items with different indexes are read from different fields. */
  lemma MediaFieldsDistinct(i: nat, j: nat)
    requires i != j
    ensures "MediaUrl" + NatToString(i) != "MediaUrl" + NatToString(j)
    ensures "MediaContentType" + NatToString(i) != "MediaContentType" + NatToString(j)
  {
    NatToStringInjective(i, j);
    var p, q := "MediaUrl", "MediaContentType";
    assert (p + NatToString(i))[|p|..] == NatToString(i) && (p + NatToString(j))[|p|..] == NatToString(j);
    assert (q + NatToString(i))[|q|..] == NatToString(i) && (q + NatToString(j))[|q|..] == NatToString(j);
  }
}
