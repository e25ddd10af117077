# Twilio WhatsApp adapter for the Bot Framework, in Dafny

This project models the Bot Framework adapter for Twilio WhatsApp
(`TwilioWhatsAppAdapter`) and proves properties of the model. The adapter
does four things:

- **Settings.** The constructor refuses incomplete settings. It adds the
  `whatsapp:` prefix to the phone number when the number lacks it.
- **Sending.** `sendActivities` answers each outgoing activity in order.
  A message goes through `parseActivity`. That step rewrites HTML-like
  bold, italic, strike-through and code tags into WhatsApp markup. It then
  builds the Twilio message from the text, the persistent actions and the
  first attachment. `updateActivity` and `deleteActivity` are not supported.
- **Receiving.** `processActivity` checks a webhook request in a fixed
  order: signature header, then body, then signature validity. It turns
  the decoded form fields into an activity, runs the bot, and writes back
  the status and body the bot left in the turn state.
- **Classification.** The activity type comes from `SmsStatus`, and a
  recognised `EventType` overrides it. The attachments are the indexed
  media fields, plus a location attachment when both coordinates are given.

Modules:

- `Common`: JavaScript's `undefined` as `Option`, truthiness of strings, thrown
  errors as `Result`, ASCII lower-casing, and `parseInt` of a decimal count.
- `Markup`: the four replacements `/<tag>(.*?)<\/tag>/gis`.
  - `ReplaceTagPairs` is the scanning loop.
  - `Rewrite` is its specification: a leftmost, lazy, case-insensitive,
    dot-all global replacement.
- `Activities`: settings, outgoing and incoming activities, the Twilio
  message, responses and errors.
- `Inbound`: the classification tables and the attachment list, as
  functions, and `Classify` and `Canonicalize`, the step-by-step code of
  `processActivity`, proved equal to them.
- `Outbound`: `ParsedMessage` and `SendResult`, the result of
  `parseActivity` and of one step of `sendActivities` as functions of the
  activity, with their properties.
- `Adapter`: the class `TwilioWhatsAppAdapter`.
  - Its `settings` field is normalised by the constructor.
  - Its methods `ParseActivity`, `SendActivities`, `ProcessActivity`,
    `UpdateActivity` and `DeleteActivity` are proved against those
    functions.

Three behaviours of the code are worth knowing when reading the model:

- A GeoCoordinates attachment replaces `persistentAction` with the single
  `geo:` action; nothing is appended to the actions taken from the channel
  data (twilioWhatsAppAdapter.js:400).
- A `NumMedia` that does not parse as a positive number gives no media
  attachments and no error (twilioWhatsAppAdapter.js:282). Coordinates are
  never rejected either (twilioWhatsAppAdapter.js:294-301).
- Only a falsy decoded body gives status 400
  (twilioWhatsAppAdapter.js:202). An empty decoded record is an object, so
  `!message` is false for it.

## Model

| member | source | states |
|---|---|---|
| `Common.ParseCountOfNatToString` | libraries/botbuilder-adapter-twilio-whatsapp/lib/twilioWhatsAppAdapter.js:282-283 | `parseInt` of the decimal text of any count `n` gives back `n` |
| `Markup.FindFromFirst` | libraries/botbuilder-adapter-twilio-whatsapp/lib/twilioWhatsAppAdapter.js:357 | the closing tag found is the first after the opening tag (the lazy `(.*?)`), and none occurs when none is found |
| `Markup.IndexOfFrom` | libraries/botbuilder-adapter-twilio-whatsapp/lib/twilioWhatsAppAdapter.js:357 | the search loop finds exactly the first case-insensitive occurrence at or after the start offset |
| `Markup.ReplaceTagPairs` | libraries/botbuilder-adapter-twilio-whatsapp/lib/twilioWhatsAppAdapter.js:357-363 | the scanning loop computes the global lazy replacement `<tag>x</tag>` -> `mark x mark` |
| `Markup.RewriteFromWithoutPair` | libraries/botbuilder-adapter-twilio-whatsapp/lib/twilioWhatsAppAdapter.js:357-363 | with no tag pair from an offset on, the rest of the text is copied unchanged |
| `Markup.RewriteFromShortens` | libraries/botbuilder-adapter-twilio-whatsapp/lib/twilioWhatsAppAdapter.js:357-363 | since each mark is shorter than the tags it replaces, the rewritten text is never longer, and is strictly shorter when a pair is present |
| `Markup.RewriteUnchangedIff` | libraries/botbuilder-adapter-twilio-whatsapp/lib/twilioWhatsAppAdapter.js:357-363 | one replacement leaves the text unchanged if and only if the text holds no pair of that tag |
| `Markup.ShortestMatch` | libraries/botbuilder-adapter-twilio-whatsapp/lib/twilioWhatsAppAdapter.js:357 | an opening tag in any letter case, text, and the first closing tag become `mark text mark`, and the rest is rewritten on its own |
| `Markup.MarkupWithoutTags` | libraries/botbuilder-adapter-twilio-whatsapp/lib/twilioWhatsAppAdapter.js:355-364 | text holding none of the four tag pairs comes out of the four replacements unchanged |
| `Markup.BoldBecomesAsterisks` | libraries/botbuilder-adapter-twilio-whatsapp/lib/twilioWhatsAppAdapter.js:357-363 | `<b>x</b>`, with the tags in any case and `x` free of `<` (it may span lines), becomes `*x*` after all four replacements |
| `Inbound.Classify` | libraries/botbuilder-adapter-twilio-whatsapp/lib/twilioWhatsAppAdapter.js:245-277 | the two successive switches give the type `ActivityTypeOf` defines |
| `Inbound.EventTypeOverrides` | libraries/botbuilder-adapter-twilio-whatsapp/lib/twilioWhatsAppAdapter.js:263-277 | a recognised `EventType` decides the type whatever `SmsStatus` says |
| `Inbound.StatusDecidesOtherwise` | libraries/botbuilder-adapter-twilio-whatsapp/lib/twilioWhatsAppAdapter.js:245-262 | without a recognised event type, `SmsStatus` decides, and with neither field the type stays unset |
| `Inbound.ClassificationIgnoresCase` | libraries/botbuilder-adapter-twilio-whatsapp/lib/twilioWhatsAppAdapter.js:245-277 | field values that differ only in letter case classify alike |
| `Inbound.NeverQueuedOrFailed` | libraries/botbuilder-adapter-twilio-whatsapp/lib/twilioWhatsAppAdapter.js:245-277 | no request is classified `messageQueued` or `messageFailed` |
| `Inbound.ReadEventOverridesSentStatus` | libraries/botbuilder-adapter-twilio-whatsapp/lib/twilioWhatsAppAdapter.js:245-277 | `SmsStatus=Sent` with `EventType=READ` gives `messageRead` |
| `Inbound.Canonicalize` | libraries/botbuilder-adapter-twilio-whatsapp/lib/twilioWhatsAppAdapter.js:215-308 | the activity built step by step, with its media loop, is `InboundOf` of the decoded body |
| `Inbound.AttachmentsOnlyForMessages` | libraries/botbuilder-adapter-twilio-whatsapp/lib/twilioWhatsAppAdapter.js:278-309 | a non-empty attachment list implies the type is `message` |
| `Inbound.MessageAttachmentsLayout` | libraries/botbuilder-adapter-twilio-whatsapp/lib/twilioWhatsAppAdapter.js:280-308 | a message has the media attachments in index order, then exactly one JSON location attachment if and only if both coordinates are truthy |
| `Inbound.MediaCountOfNumMedia` | libraries/botbuilder-adapter-twilio-whatsapp/lib/twilioWhatsAppAdapter.js:282-290 | `NumMedia` written as `n` yields exactly `n` media items |
| `Inbound.MediaFieldsDistinct` | libraries/botbuilder-adapter-twilio-whatsapp/lib/twilioWhatsAppAdapter.js:284-289 | media items with different indexes read different `MediaUrl`/`MediaContentType` fields |
| `Outbound.OnlyFirstAttachmentCounts` | libraries/botbuilder-adapter-twilio-whatsapp/lib/twilioWhatsAppAdapter.js:387-388 | attachments after the first do not change the result |
| `Outbound.ParsedMessageAddresses` | libraries/botbuilder-adapter-twilio-whatsapp/lib/twilioWhatsAppAdapter.js:369-373 | a built message goes from the adapter's number to the conversation id |
| `Outbound.MissingBodyOrMediaIff` | libraries/botbuilder-adapter-twilio-whatsapp/lib/twilioWhatsAppAdapter.js:415-417 | once the attachment step succeeds, the only error is `MissingBodyOrMedia`, thrown exactly when the final body and media URL are both falsy |
| `Outbound.PlainTextPassesThrough` | libraries/botbuilder-adapter-twilio-whatsapp/lib/twilioWhatsAppAdapter.js:355-373 | text with no tag pairs and no attachments is sent unchanged, from the adapter to the conversation |
| `Outbound.EmptyMessageRefused` | libraries/botbuilder-adapter-twilio-whatsapp/lib/twilioWhatsAppAdapter.js:415-417 | no text and no attachments throws `MissingBodyOrMedia` |
| `Outbound.SigninCardGivesBody` | libraries/botbuilder-adapter-twilio-whatsapp/lib/twilioWhatsAppAdapter.js:390-396 | a sign-in card with a button always yields a body: the card's text, a blank line, `*title*` and a line break when the first button has a truthy title, then the first button's value; `persistentAction` stays the normalised channel-data actions and no media URL is set |
| `Outbound.MalformedSigninCardThrows` | libraries/botbuilder-adapter-twilio-whatsapp/lib/twilioWhatsAppAdapter.js:390-396 | a sign-in attachment whose content is missing or is not a card throws a `TypeError` |
| `Outbound.GeoReplacesActions` | libraries/botbuilder-adapter-twilio-whatsapp/lib/twilioWhatsAppAdapter.js:397-402 | a location sets `persistentAction` to that location alone, replacing earlier actions; the message is built if and only if the text is truthy, and then its body is the formatted text and it has no media URL |
| `Outbound.GeoActionExample` | libraries/botbuilder-adapter-twilio-whatsapp/lib/twilioWhatsAppAdapter.js:400 | `geo:1.5,2.5\|X` for a named place; the `\|name` part is left out for an empty name |
| `Outbound.MediaUrlIffContentUrl` | libraries/botbuilder-adapter-twilio-whatsapp/lib/twilioWhatsAppAdapter.js:403-411 | any other attachment sets the media URL if and only if it has a truthy content URL; the body stays the formatted text and `persistentAction` the normalised channel-data actions |
| `Outbound.ActionsNormalized` | libraries/botbuilder-adapter-twilio-whatsapp/lib/twilioWhatsAppAdapter.js:376-383 | an array of actions is kept, a truthy single action becomes a one-element list, and a falsy one is dropped |
| `Outbound.OnlyMessagesFail` | libraries/botbuilder-adapter-twilio-whatsapp/lib/twilioWhatsAppAdapter.js:72-94 | `delay` and unsupported activities are answered `{}`, and only messages throw |
| `Outbound.MessageResponse` | libraries/botbuilder-adapter-twilio-whatsapp/lib/twilioWhatsAppAdapter.js:77-90 | a message is answered `{id: 'res.sid'}` if and only if it has a conversation id, parses and can be dispatched; without a conversation id it throws that error first |
| `Outbound.DispatchedAppend` | libraries/botbuilder-adapter-twilio-whatsapp/lib/twilioWhatsAppAdapter.js:70-90 | the messages dispatched over two runs of activities in a row are those of the first run followed by those of the second |
| `Outbound.DispatchedCount` | libraries/botbuilder-adapter-twilio-whatsapp/lib/twilioWhatsAppAdapter.js:77-86 | exactly one message is dispatched per `message` activity answered `{id: 'res.sid'}` |
| `Outbound.DispatchedWellFormed` | libraries/botbuilder-adapter-twilio-whatsapp/lib/twilioWhatsAppAdapter.js:82-84 | every dispatched message goes from the adapter's number and has a body or a media URL |
| `Adapter.PrefixedNumber` | libraries/botbuilder-adapter-twilio-whatsapp/lib/twilioWhatsAppAdapter.js:50-53 | the normalised number starts with `whatsapp:` and ends with the number given |
| `Adapter.PrefixIdempotent` | libraries/botbuilder-adapter-twilio-whatsapp/lib/twilioWhatsAppAdapter.js:50-53 | normalising twice is normalising once |
| `Adapter.PrefixedNumberUnchanged` | libraries/botbuilder-adapter-twilio-whatsapp/lib/twilioWhatsAppAdapter.js:51-53 | a number that already starts with `whatsapp:` is left as it is |
| `Adapter.NormalizedSettingsComplete` | libraries/botbuilder-adapter-twilio-whatsapp/lib/twilioWhatsAppAdapter.js:46-53 | normalised settings are complete, carry the prefix, and differ from the given ones in the phone number only |
| `Adapter.Signature` | libraries/botbuilder-adapter-twilio-whatsapp/lib/twilioWhatsAppAdapter.js:192-198 | a signature exists if and only if one of the two header spellings is truthy, and it is never empty |
| `Adapter.TwilioWhatsAppAdapter.constructor` | libraries/botbuilder-adapter-twilio-whatsapp/lib/twilioWhatsAppAdapter.js:43-53 | complete settings are stored with the prefixed phone number, and the adapter is valid |
| `Adapter.TwilioWhatsAppAdapter.Create` | libraries/botbuilder-adapter-twilio-whatsapp/lib/twilioWhatsAppAdapter.js:43-60 | construction throws `MissingSettings` if and only if a setting is missing or empty |
| `Adapter.TwilioWhatsAppAdapter.ParseActivity` | libraries/botbuilder-adapter-twilio-whatsapp/lib/twilioWhatsAppAdapter.js:352-419 | the step-by-step build gives `ParsedMessage`, and the text it leaves behind is the formatted text |
| `Adapter.TwilioWhatsAppAdapter.SendActivities` | libraries/botbuilder-adapter-twilio-whatsapp/lib/twilioWhatsAppAdapter.js:67-98 | it succeeds if and only if every activity is answered; then there is one response per activity, in order, and the messages handed to `processOutboundEvent` are the parsed messages of the `message` activities, in order; otherwise it fails with the error of the first activity that throws, and only the messages of the activities before that one were dispatched |
| `Adapter.TwilioWhatsAppAdapter.UpdateActivity` | libraries/botbuilder-adapter-twilio-whatsapp/lib/twilioWhatsAppAdapter.js:157-161 | always throws "not supported" |
| `Adapter.TwilioWhatsAppAdapter.DeleteActivity` | libraries/botbuilder-adapter-twilio-whatsapp/lib/twilioWhatsAppAdapter.js:163-167 | always throws "not supported" |
| `Adapter.TwilioWhatsAppAdapter.ProcessActivity` | libraries/botbuilder-adapter-twilio-whatsapp/lib/twilioWhatsAppAdapter.js:188-322 | 401 without a signature header, then 400 without a body, then 403 on a failed validation, and the pipeline never runs in those cases; otherwise it runs on the canonical activity, the status is the turn state's `httpStatus` (starting at 200), and a body is sent if and only if `httpBody` is truthy |

## Left out

- `processOutboundEvent` (an HTTP POST that is not awaited) is modelled only by the error it can throw while it runs. That is a missing `recipient.id` or `from.id` (`Outbound.DispatchThrows`). The request it sends is not modelled.
- Twilio's request-signature check is the parameter `validate` of `ProcessActivity`. `createTwilioClient` and the constructor's error wrapping around it are a foreign library call and are not modelled.
- `retrieveBody` is the parameter `body` of `ProcessActivity`. The middleware pipeline and the bot are the parameter `logic`, a change to the turn state. Exceptions thrown by the pipeline are not modelled.
- The decoded request body is a record of strings (`map<string, string>`), and the bot's `httpBody` is a string. `retrieveBody` can also decode a repeated form key to an array, and a JSON body to any value. If `SmsStatus` or `EventType` holds such a value, `.toLowerCase()` throws a TypeError after the signature was accepted; the model does not capture that throw. A non-string `httpBody`, such as an object, is always truthy and is sent as it is; the model does not capture that either.
- `continueConversation` and `createContext` are framework plumbing and are not modelled.
- `delay` only contributes its `{}` response; the timer itself is not modelled.
- Logging, the activity timestamp, and the constant fields of the inbound activity (`isGroup`, names, `null` fields) are not modelled.
- Adapter.TwilioWhatsAppAdapter.constructor: the adapter keeps a reference to the caller's settings object, so the source also adds the prefix to the caller's object. The model copies the settings as a value.
- Adapter.TwilioWhatsAppAdapter.SendActivities: if the same activity object occurs twice, the source formats its text a second time. The model treats activities as values.
- Inbound.MediaCountOfNumMedia: `parseInt` is modelled on decimal digits only. A `NumMedia` with leading white space, a `+` sign or a `0x` prefix counts as not a number, where JavaScript would read a count.
- Lower-casing and the regular expressions' `i` flag fold ASCII letters only. This is exact for the four status words and the four tags. `toLowerCase` applies full Unicode case mapping, but the only non-ASCII character it maps to a single ASCII letter is U+212A (Kelvin sign), which becomes `k`, and no status word contains `k`. U+0130 becomes two characters, so a word containing it never equals a status word. Without the `u` flag, `/i` never folds a non-ASCII character onto an ASCII one.
- Coordinates are kept as the text received or sent. `parseFloat` and JavaScript's number formatting in the `geo:` string are not modelled.
- Attachment contents are modelled as three shapes: GeoCoordinates, a sign-in card, or anything else. The sign-in card's text, title and value are strings or `undefined`, and other content is assumed to have no `buttons`.
- The helper file for the Twitter adapter (stream reading and HMAC signing) is not part of this model.
