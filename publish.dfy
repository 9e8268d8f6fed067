/**
 * The internal publish endpoint, `POST /notify/publish`
 * (app/api/v1/routes/publish.py). FastAPI reads the JSON body, then runs the
 * `internal_trusted` dependency, then validates the body, and only then
 * calls the handler, which builds the envelope, publishes it, stores it when
 * it is persistent and hands it to the offline push. The calls on the broker
 * and on the two collaborators are recorded in a trace; whether each one
 * raises is an input, and an exception ends the request with a 500.
 */
module Publish {
  import opened Wrappers
  import opened Schemas
  import opened PubSub
  import opened EventIds
  import Security

  /** The request body: not JSON, JSON but not an object, or an object with these members. */
  datatype Body = Malformed | NotAnObject | Members(raw: RawRequest)

  /** Why the body was refused with 422. */
  datatype BodyError = InvalidJson | NotAnObjectBody | FieldErrors(errors: seq<FieldError>)

  datatype Response = Accepted(id: string) | Forbidden | Unprocessable(reason: BodyError) | ServerError

  /** The HTTP status of a response. */
  function Status(r: Response): nat {
    match r
    case Accepted(_) => 202
    case Forbidden => Security.Forbidden
    case Unprocessable(_) => 422
    case ServerError => 500
  }

  /** One awaited call the handler makes, in the order it makes them. */
  datatype Call = BrokerPublish(message: Published) | SavePersistent(envelope: EventEnvelope) | PushIfOffline(envelope: EventEnvelope)

  /** Which of the three calls raise. */
  datatype Failures = Failures(publish: bool, save: bool, push: bool)

  /** What the request sees of the world: the admission check's inputs, the clock and UUID, `json.dumps`, and which calls fail. */
  datatype World = World(
    cidrs: seq<string>,
    host: Option<string>,
    parseAddr: Security.AddressParser,
    parseNet: Security.NetworkParser,
    clockMs: nat,
    uuid: nat,
    now: string,
    dumps: EventEnvelope -> string,
    fails: Failures)

  /** The envelope for a validated request: a fresh id and timestamp, the rest copied from the request. */
  function MakeEnvelope(req: PublishRequest, id: string, createdAt: string): (e: EventEnvelope)
    ensures e.typ == req.typ && e.userId == req.userId && e.data == req.data && e.permalink == req.permalink
    ensures e.id == id && e.createdAt == createdAt
  {
    EventEnvelope(id, req.typ, req.userId, req.data, req.permalink, createdAt)
  }

  /** The calls of the handler for `envelope`, up to and including the first that raises, and the response. */
  function HandlerOutcome(req: PublishRequest, envelope: EventEnvelope, w: World): (Response, seq<Call>) {
    var published := [BrokerPublish(PublishEvent(envelope, w.dumps))];
    if w.fails.publish then (ServerError, published)
    else
      var saved := published + (if req.persistent then [SavePersistent(envelope)] else []);
      if req.persistent && w.fails.save then (ServerError, saved)
      else
        var pushed := saved + [PushIfOffline(envelope)];
        if w.fails.push then (ServerError, pushed) else (Accepted(envelope.id), pushed)
  }

  /** The whole request: body parsing, admission, validation, then the handler. */
  function PublishOutcome(body: Body, w: World): (Response, seq<Call>) {
    if body.Malformed? then (Unprocessable(InvalidJson), [])
    else
      var verdict := Security.InternalTrusted(w.cidrs, w.host, w.parseAddr, w.parseNet);
      if verdict == Security.Deny then (Forbidden, [])
      else if verdict == Security.Fault then (ServerError, [])
      else if body.NotAnObject? then (Unprocessable(NotAnObjectBody), [])
      else match Validate(body.raw)
        case Err(errors) => (Unprocessable(FieldErrors(errors)), [])
        case Ok(req) => HandlerOutcome(req, MakeEnvelope(req, NewEventId(w.clockMs, w.uuid), w.now), w)
  }

  /** `publish(req, ...)` as FastAPI runs it, the awaited calls appended to `trace` as they are made. */
  method HandlePublish(body: Body, w: World) returns (resp: Response, trace: seq<Call>)
    ensures (resp, trace) == PublishOutcome(body, w)
  {
    trace := [];
    if body.Malformed? {
      return Unprocessable(InvalidJson), trace;
    }
    var verdict := Security.InternalTrusted(w.cidrs, w.host, w.parseAddr, w.parseNet);
    if verdict == Security.Deny {
      return Forbidden, trace;
    }
    if verdict == Security.Fault {
      return ServerError, trace;
    }
    if body.NotAnObject? {
      return Unprocessable(NotAnObjectBody), trace;
    }
    var checked := Validate(body.raw);
    if checked.Err? {
      return Unprocessable(FieldErrors(checked.error)), trace;
    }
    var req := checked.value;
    var envelope := EventEnvelope(NewEventId(w.clockMs, w.uuid), req.typ, req.userId, req.data, req.permalink, w.now);
    trace := trace + [BrokerPublish(PublishEvent(envelope, w.dumps))];
    assert trace == [BrokerPublish(PublishEvent(envelope, w.dumps))];
    if w.fails.publish {
      return ServerError, trace;
    }
    if req.persistent {
      trace := trace + [SavePersistent(envelope)];
      if w.fails.save {
        return ServerError, trace;
      }
    }
    assert trace == [BrokerPublish(PublishEvent(envelope, w.dumps))] + (if req.persistent then [SavePersistent(envelope)] else []);
    trace := trace + [PushIfOffline(envelope)];
    if w.fails.push {
      return ServerError, trace;
    }
    resp := Accepted(envelope.id);
  }

  /** A request the allowlist refuses, or whose address check fails, reaches no collaborator and builds no envelope. */
  lemma RejectedCallsNothing(body: Body, w: World)
    requires !body.Malformed?
    requires Security.InternalTrusted(w.cidrs, w.host, w.parseAddr, w.parseNet) != Security.Admit
    ensures PublishOutcome(body, w).1 == []
    ensures PublishOutcome(body, w).0 == Forbidden || PublishOutcome(body, w).0 == ServerError
    ensures PublishOutcome(body, w).0 == Forbidden <==> Security.InternalTrusted(w.cidrs, w.host, w.parseAddr, w.parseNet) == Security.Deny
  {
  }

  /** Every body refused with 422 reaches no collaborator. */
  lemma UnprocessableCallsNothing(body: Body, w: World)
    requires PublishOutcome(body, w).0.Unprocessable?
    ensures PublishOutcome(body, w).1 == []
  {
  }

  /** An admitted request with invalid members is answered with exactly the validation errors. */
  lemma InvalidMembersAnswered(raw: RawRequest, w: World)
    requires Security.InternalTrusted(w.cidrs, w.host, w.parseAddr, w.parseNet) == Security.Admit
    ensures Errors(raw) != [] <==> PublishOutcome(Members(raw), w) == (Unprocessable(FieldErrors(Errors(raw))), [])
  {
  }

  /** The envelope of every call made for an admitted, valid request. */
  function EnvelopeFor(req: PublishRequest, w: World): EventEnvelope {
    MakeEnvelope(req, NewEventId(w.clockMs, w.uuid), w.now)
  }

  /**
   * When nothing fails: the broker publish comes first, on the user's
   * channel; persistence follows exactly when the request is persistent;
   * the offline push comes last; the answer is 202 with the envelope's id.
   */
  lemma HappyPath(raw: RawRequest, w: World)
    requires Security.InternalTrusted(w.cidrs, w.host, w.parseAddr, w.parseNet) == Security.Admit
    requires Validate(raw).Ok?
    requires !w.fails.publish && !w.fails.save && !w.fails.push
    ensures var req := Validate(raw).value;
      var env := EnvelopeFor(req, w);
      var out := PublishOutcome(Members(raw), w);
      && out.0 == Accepted(NewEventId(w.clockMs, w.uuid)) && Status(out.0) == 202
      && out.1 == [BrokerPublish(Published(UserChannel(req.userId), w.dumps(env)))]
                  + (if req.persistent then [SavePersistent(env)] else [])
                  + [PushIfOffline(env)]
  {
  }

  /** Publish is the first call of every request that makes any, and a failed publish is the only one. */
  lemma PublishFirst(body: Body, w: World)
    ensures var out := PublishOutcome(body, w);
      && (out.1 != [] ==> out.1[0].BrokerPublish?)
      && (w.fails.publish && out.1 != [] ==> |out.1| == 1 && out.0 == ServerError)
      && (out.0.Accepted? ==> out.1 != [] && out.1[|out.1| - 1].PushIfOffline?)
  {
  }

  /** Persistence is called exactly when the request asks for it and the publish before it succeeded. */
  lemma PersistIff(raw: RawRequest, w: World)
    requires Security.InternalTrusted(w.cidrs, w.host, w.parseAddr, w.parseNet) == Security.Admit
    requires Validate(raw).Ok?
    ensures var req := Validate(raw).value;
      SavePersistent(EnvelopeFor(req, w)) in PublishOutcome(Members(raw), w).1 <==> req.persistent && !w.fails.publish
  {
  }

  /**
   * The offline push is made on every path that gets past persistence, and a
   * request is accepted exactly when no call fails.
   */
  lemma PushIff(raw: RawRequest, w: World)
    requires Security.InternalTrusted(w.cidrs, w.host, w.parseAddr, w.parseNet) == Security.Admit
    requires Validate(raw).Ok?
    ensures var req := Validate(raw).value;
      var out := PublishOutcome(Members(raw), w);
      && (PushIfOffline(EnvelopeFor(req, w)) in out.1 <==> !w.fails.publish && !(req.persistent && w.fails.save))
      && (out.0.Accepted? <==> !w.fails.publish && !(req.persistent && w.fails.save) && !w.fails.push)
  {
  }

  /** Every call carries the one envelope: the request's type, user, data and permalink, a new id and the current time. */
  lemma CallsCarryEnvelope(body: Body, w: World, c: Call)
    requires c in PublishOutcome(body, w).1
    ensures body.Members? && Validate(body.raw).Ok?
    ensures var req := Validate(body.raw).value;
      var env := EnvelopeFor(req, w);
      && (c.BrokerPublish? ==> c.message == PublishEvent(env, w.dumps))
      && (!c.BrokerPublish? ==> c.envelope == env)
      && env.typ == req.typ && env.userId == req.userId && env.data == req.data && env.permalink == req.permalink
      && env.id == NewEventId(w.clockMs, w.uuid) && env.createdAt == w.now
  {
  }
}
