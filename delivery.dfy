/**
 * From publisher to subscriber: what `publish_event` puts on a user's
 * channel is what that user's stream session listens to, and the reader
 * turns it into an event-stream message that the benchmark client's parser
 * reads back as the envelope's type, id and JSON text.
 */
module Delivery {
  import opened Wrappers
  import opened PyStr
  import opened JsonValues
  import opened SseWire
  import opened SseDecode
  import opened SseSession
  import opened Schemas
  import opened PubSub
  import opened EventIds

  /** The publisher and the subscriber name a user's channel the same way. */
  lemma SameChannel(userId: string)
    ensures SessionChannel(userId) == UserChannel(userId)
  {
  }

  /** The broker message a subscriber receives for a publish. */
  function Delivered(p: Published): BrokerMsg {
    Msg(Some(MessageKind), Text(p.payload))
  }

  /** `json.loads` of the envelope's JSON text gives an object with the envelope's `type` and `id`. */
  predicate LoadsEnvelope(env: EventEnvelope, dumps: EventEnvelope -> string, loads: string -> Loaded) {
    loads(dumps(env)).Object?
    && loads(dumps(env)).typ == Some(Str(env.typ))
    && loads(dumps(env)).id == Some(Str(env.id))
  }

  /**
   * A published envelope reaches its user's session as one message whose
   * event is the envelope's type (when not empty) and whose id is the
   * envelope's id; its data is the object's JSON text.
   */
  lemma ReaderFrameOfEnvelope(env: EventEnvelope, dumps: EventEnvelope -> string, loads: string -> Loaded)
    requires LoadsEnvelope(env, dumps, loads)
    ensures PublishEvent(env, dumps).channel == SessionChannel(env.userId)
    ensures ReadOne(Delivered(PublishEvent(env, dumps)), loads)
         == Put(Data(loads(dumps(env)).dumped, if env.typ != "" then Some(env.typ) else None, Some(env.id), None))
  {
  }

  /**
   * The whole way round: for an envelope with a fresh event id and a type
   * without line breaks or surrounding whitespace, whose JSON text has only
   * `\n` line breaks, no trailing one and no line with surrounding
   * whitespace, the parser reads back exactly one event carrying the type,
   * the id and that JSON text.
   */
  lemma PublishedEventParses(env: EventEnvelope, dumps: EventEnvelope -> string, loads: string -> Loaded, ms: nat, u: nat)
    requires LoadsEnvelope(env, dumps, loads)
    requires env.id == NewEventId(ms, u)
    requires env.typ != "" && NoLineBreaks(env.typ) && IsStripped(env.typ)
    requires RoundTrips(loads(dumps(env)).dumped, None, None)
    ensures var r := ReadOne(Delivered(PublishEvent(env, dumps)), loads);
      && r.Put?
      && Parse(Encode(r.frame)) == [SseDecode.Event(Some(env.typ), Some(env.id), loads(dumps(env)).dumped)]
  {
    var d := loads(dumps(env)).dumped;
    ReaderFrameOfEnvelope(env, dumps, loads);
    EventIdIsClean(ms, u);
    assert RoundTrips(d, Some(env.typ), Some(env.id));
    RoundTrip(d, Some(env.typ), Some(env.id), None);
  }

  /** A payload that is not a JSON object is passed on as raw text, with no event or id line. */
  lemma RawTextPassesThrough(text: string, loads: string -> Loaded)
    requires !loads(text).Object?
    requires RoundTrips(text, None, None)
    ensures var r := ReadOne(Msg(Some(MessageKind), Text(text)), loads);
      && r == Put(Data(text, None, None, None))
      && Parse(Encode(r.frame)) == [SseDecode.Event(None, None, text)]
  {
    RoundTrip(text, None, None, None);
  }
}
