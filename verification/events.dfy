/**
 The envelopes the init provider's SDK callbacks send to the Flutter side:
 `{type, data}` maps built fresh per callback and sent on one of two event
 sinks. The conversion of the SDK's JSON objects into maps is not part of
 this model; it is a parameter `toMap` that either yields a map or fails
 (`None`, a thrown exception).
 */
module Events {
  import opened Wrappers

  const InboxUpdatedType: string := "inbox.updated"
  const DeepLinkPressedType: string := "in-app.deepLinkPressed"
  const LinkResolvedType: string := "deep-linking.linkResolved"

  /** A value in an envelope: the Java objects the maps hold. */
  datatype Value =
    | VNull
    | VStr(s: string)
    | VInt(i: int)
    | VMap(m: map<string, Value>)

  /** `eventSink` (immediate delivery) or `eventSinkDelayed` (buffered until a listener attaches). */
  datatype Sink = Immediate | Delayed

  /** One `send` on a sink. */
  datatype Emission = Emission(sink: Sink, envelope: map<string, Value>)

  /** A Java string reference as an envelope value. */
  function Nullable(s: Option<string>): (v: Value)
    ensures v == VNull <==> s.None?
    ensures s.Some? ==> v == VStr(s.value)
  {
    match s
    case None => VNull
    case Some(t) => VStr(t)
  }

  /** The inbox-updated callback: a bare type tag with no `data` key, on the immediate sink. */
  function InboxUpdated(): (e: Emission)
    ensures e.sink == Immediate
    ensures e.envelope.Keys == {"type"}
    ensures e.envelope["type"] == VStr(InboxUpdatedType)
  {
    Emission(Immediate, map["type" := VStr(InboxUpdatedType)])
  }

  /**
   The in-app deep-link callback. `deepLinkData` is converted first; if that
   conversion fails neither payload key is set. A missing message payload is
   stored as an explicit `null`; a failing conversion of a present one leaves
   its key out.
   */
  function DeepLinkPressed<J>(messageId: int, deepLinkData: J, messageData: Option<J>,
                              toMap: J -> Option<map<string, Value>>): (e: Emission)
    ensures e.sink == Immediate
    ensures e.envelope.Keys == {"type", "data"}
    ensures e.envelope["type"] == VStr(DeepLinkPressedType) && e.envelope["data"].VMap?
    ensures "messageId" in e.envelope["data"].m && e.envelope["data"].m["messageId"] == VInt(messageId)
    ensures "deepLinkData" in e.envelope["data"].m <==> toMap(deepLinkData).Some?
    ensures toMap(deepLinkData).Some? ==> e.envelope["data"].m["deepLinkData"] == VMap(toMap(deepLinkData).value)
    ensures "messageData" in e.envelope["data"].m <==>
              toMap(deepLinkData).Some? && (messageData.None? || toMap(messageData.value).Some?)
    ensures "messageData" in e.envelope["data"].m ==>
              e.envelope["data"].m["messageData"] ==
                (if messageData.None? then VNull else VMap(toMap(messageData.value).value))
    ensures e.envelope["data"].m.Keys <= {"messageId", "deepLinkData", "messageData"}
  {
    var base := map["messageId" := VInt(messageId)];
    var data :=
      match toMap(deepLinkData)
      case None => base
      case Some(deepLink) =>
        var withLink := base["deepLinkData" := VMap(deepLink)];
        if messageData.None? then withLink["messageData" := VNull]
        else
          match toMap(messageData.value)
          case None => withLink
          case Some(message) => withLink["messageData" := VMap(message)];
    Emission(Immediate, map["type" := VStr(DeepLinkPressedType), "data" := VMap(data)])
  }

  /** The content of a resolved deferred deep link, as the SDK hands it over. */
  datatype LinkData<J> = LinkData(title: Option<string>, description: Option<string>, data: Option<J>)

  /**
   The `link` map of a resolved deferred deep link: its content's title and
   description, and its converted data (`null` when there is none, no key when
   the conversion fails).
   */
  function LinkMap<J>(link: LinkData<J>, toMap: J -> Option<map<string, Value>>): (m: map<string, Value>)
    ensures "content" in m && m["content"] == VMap(map["title" := Nullable(link.title), "description" := Nullable(link.description)])
    ensures "data" in m <==> link.data.None? || toMap(link.data.value).Some?
    ensures "data" in m ==> m["data"] == (if link.data.None? then VNull else VMap(toMap(link.data.value).value))
    ensures m.Keys <= {"content", "data"}
  {
    var content := map["title" := Nullable(link.title), "description" := Nullable(link.description)];
    var withContent := map["content" := VMap(content)];
    if link.data.None? then withContent["data" := VNull]
    else
      match toMap(link.data.value)
      case None => withContent
      case Some(converted) => withContent["data" := VMap(converted)]
  }

  /**
   The deferred deep-link callback: `url`, the resolution's ordinal and the
   link map (`null` exactly when the SDK passed no link content), sent on the
   delayed sink.
   */
  function LinkResolved<J>(resolution: nat, url: Option<string>, link: Option<LinkData<J>>,
                           toMap: J -> Option<map<string, Value>>): (e: Emission)
    ensures e.sink == Delayed
    ensures e.envelope.Keys == {"type", "data"}
    ensures e.envelope["type"] == VStr(LinkResolvedType) && e.envelope["data"].VMap?
    ensures e.envelope["data"].m.Keys == {"url", "resolution", "link"}
    ensures e.envelope["data"].m["url"] == Nullable(url)
    ensures e.envelope["data"].m["resolution"] == VInt(resolution)
    ensures e.envelope["data"].m["link"] == VNull <==> link.None?
    ensures link.Some? ==> e.envelope["data"].m["link"] == VMap(LinkMap(link.value, toMap))
  {
    var linkValue := if link.None? then VNull else VMap(LinkMap(link.value, toMap));
    var data := map["url" := Nullable(url), "resolution" := VInt(resolution), "link" := linkValue];
    Emission(Delayed, map["type" := VStr(LinkResolvedType), "data" := VMap(data)])
  }

  /** The callbacks that produce envelopes. */
  datatype EventKind = InboxUpdatedEvent | DeepLinkPressedEvent | LinkResolvedEvent

  /** The kind an envelope announces through its `type` tag, as a receiver tells them apart. */
  function KindOf(envelope: map<string, Value>): Option<EventKind>
  {
    if "type" !in envelope then None
    else if envelope["type"] == VStr(InboxUpdatedType) then Some(InboxUpdatedEvent)
    else if envelope["type"] == VStr(DeepLinkPressedType) then Some(DeepLinkPressedEvent)
    else if envelope["type"] == VStr(LinkResolvedType) then Some(LinkResolvedEvent)
    else None
  }

  /** The sink each kind goes to: only resolved deferred deep links are buffered. */
  function SinkFor(kind: EventKind): Sink
  {
    if kind == LinkResolvedEvent then Delayed else Immediate
  }

  /**
   Each callback's envelope announces its own kind and travels on that kind's
   sink, whatever the callback's arguments and whatever the conversions do.
   */
  lemma EnvelopesAnnounceKindAndSink<J>(messageId: int, deepLinkData: J, messageData: Option<J>,
                                        resolution: nat, url: Option<string>, link: Option<LinkData<J>>,
                                        toMap: J -> Option<map<string, Value>>)
    ensures KindOf(InboxUpdated().envelope) == Some(InboxUpdatedEvent)
    ensures InboxUpdated().sink == SinkFor(InboxUpdatedEvent)
    ensures KindOf(DeepLinkPressed(messageId, deepLinkData, messageData, toMap).envelope) == Some(DeepLinkPressedEvent)
    ensures DeepLinkPressed(messageId, deepLinkData, messageData, toMap).sink == SinkFor(DeepLinkPressedEvent)
    ensures KindOf(LinkResolved(resolution, url, link, toMap).envelope) == Some(LinkResolvedEvent)
    ensures LinkResolved(resolution, url, link, toMap).sink == SinkFor(LinkResolvedEvent)
  {
  }

  /**
   A failing conversion of the deep-link payload drops the message payload
   too, even when that one would convert: both are inside one `try`.
   */
  lemma FailedDeepLinkDropsMessage<J>(messageId: int, deepLinkData: J, messageData: J,
                                      toMap: J -> Option<map<string, Value>>)
    requires toMap(deepLinkData).None? && toMap(messageData).Some?
    ensures DeepLinkPressed(messageId, deepLinkData, Some(messageData), toMap).envelope["data"]
            == VMap(map["messageId" := VInt(messageId)])
  {
  }
}
