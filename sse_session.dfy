/**
 * The stream session of `sse_event_stream`: a reader that turns broker
 * messages into event-stream messages on a queue, and a drain loop that
 * sends the ready message, then at most one queued message and at most one
 * heartbeat per iteration, until the client disconnects. Time is an integer
 * input (the event loop's clock), and so are the broker's messages, the
 * disconnect test and the outcome of `json.loads`.
 */
module SseSession {
  import opened Wrappers
  import opened PyStr
  import opened SseWire
  import opened JsonValues

  // ---------------------------------------------------------------------
  // The reader's decode policy
  // ---------------------------------------------------------------------

  /** The outcome of `json.loads(text)`: an object (with its `type` and `id` members, absent or not, and its `json.dumps` text), another JSON value, or a parse error. */
  datatype Loaded = Object(typ: Option<Json>, id: Option<Json>, dumped: string) | NotObject | Invalid

  /** The `data` of a broker message: text, bytes (decoded as UTF-8 when valid), or absent. */
  datatype Payload = Text(s: string) | Bytes(utf8: Option<string>) | NoData

  /** One item of `pubsub.listen()`: `None`, or a message with its `type` and `data`. */
  datatype BrokerMsg = Nothing | Msg(kind: Option<string>, data: Payload)

  /** What the reader does with one item. */
  datatype Read = Skip | Put(frame: Frame) | Crash

  /** `payload.get("type", "message")` as `_format_sse` writes it: its text when truthy, no `event:` line otherwise. */
  function EventOf(f: Option<Json>): Option<string> {
    match f
    case None => Some(MessageKind)
    case Some(j) => if Truthy(j) then Some(JsonValues.Text(j)) else None
  }

  /** `payload.get("id")` as `_format_sse` writes it: no `id:` line for a missing or null id. */
  function IdOf(f: Option<Json>): Option<string> {
    match f
    case None => None
    case Some(j) => if j.Null? then None else Some(JsonValues.Text(j))
  }

  /** The text `json.loads` is given: the data itself, or the bytes decoded. */
  function DataText(p: Payload): string
    requires !p.NoData? && p != Bytes(None)
  {
    if p.Text? then p.s else p.utf8.value
  }

  /** The broker's kind for a published message, and `str(None)`. */
  const MessageKind: string := "message"
  const NoneText: string := "None"

  /**
   * The reader's policy for one item: skip `None` and non-`message`
   * items; bytes that are not UTF-8 raise outside the inner `try` and end
   * the reader; a JSON object is sent with its `type` (default `message`)
   * and `id`; anything else is sent as raw text.
   */
  function ReadOne(m: BrokerMsg, loads: string -> Loaded): Read {
    if m.Nothing? || m.kind != Some(MessageKind) then Skip
    else if m.data == Bytes(None) then Crash
    else if m.data.NoData? then Put(Data(NoneText, None, None, None))
    else
      var text := DataText(m.data);
      match loads(text)
      case Object(typ, id, dumped) => Put(Data(dumped, EventOf(typ), IdOf(id), None))
      case _ => Put(Data(text, None, None, None))
  }

  /** The reader's body for one item: the decision, and the text `FormatSse` writes for it. */
  method ReadItem(m: BrokerMsg, loads: string -> Loaded) returns (r: Read, sse: string)
    ensures r == ReadOne(m, loads)
    ensures r.Put? ==> sse == Encode(r.frame)
  {
    sse := "";
    if m.Nothing? || m.kind != Some("message") {
      return Skip, sse;
    }
    var data := m.data;
    if data == Bytes(None) {
      return Crash, sse;
    }
    if data.NoData? {
      sse := FormatSse("None", None, None, None);
      return Put(Data("None", None, None, None)), sse;
    }
    var text := if data.Text? then data.s else data.utf8.value;
    var payload := loads(text);
    if payload.Object? {
      sse := FormatSse(payload.dumped, EventOf(payload.typ), IdOf(payload.id), None);
      r := Put(Data(payload.dumped, EventOf(payload.typ), IdOf(payload.id), None));
    } else {
      sse := FormatSse(text, None, None, None);
      r := Put(Data(text, None, None, None));
    }
  }

  /** The reader's decision for each item of `msgs`, in order. */
  function Reads(msgs: seq<BrokerMsg>, loads: string -> Loaded): (rs: seq<Read>)
    ensures |rs| == |msgs| && forall k :: 0 <= k < |msgs| ==> rs[k] == ReadOne(msgs[k], loads)
  {
    seq(|msgs|, k requires 0 <= k < |msgs| => ReadOne(msgs[k], loads))
  }

  /** What the reader queues after the decisions `rs`, and whether it ended on an item it could not decode. */
  function Collect(rs: seq<Read>): (seq<Frame>, bool)
    decreases |rs|
  {
    if rs == [] then ([], false)
    else match rs[0]
      case Skip => Collect(rs[1..])
      case Put(f) => var r := Collect(rs[1..]); ([f] + r.0, r.1)
      case Crash => ([], true)
  }

  /** What the reader queues for the items `msgs`, and whether it ended on one. */
  function ReaderRun(msgs: seq<BrokerMsg>, loads: string -> Loaded): (seq<Frame>, bool) {
    Collect(Reads(msgs, loads))
  }

  lemma {:induction false} CollectAppend(a: seq<Read>, b: seq<Read>)
    ensures Collect(a + b).0 == Collect(a).0 + (if Collect(a).1 then [] else Collect(b).0)
    ensures Collect(a + b).1 == (Collect(a).1 || Collect(b).1)
    decreases |a|
  {
    if a == [] {
      assert a + b == b;
    } else {
      assert (a + b)[0] == a[0] && (a + b)[1..] == a[1..] + b;
      CollectAppend(a[1..], b);
    }
  }

  lemma ReadsAppend(a: seq<BrokerMsg>, b: seq<BrokerMsg>, loads: string -> Loaded)
    ensures Reads(a + b, loads) == Reads(a, loads) + Reads(b, loads)
  {
    var l, r := Reads(a + b, loads), Reads(a, loads) + Reads(b, loads);
    forall k | 0 <= k < |l| ensures l[k] == r[k] {
      if k < |a| {
        assert (a + b)[k] == a[k];
      } else {
        assert (a + b)[k] == b[k - |a|];
      }
    }
  }

  /** Reading `a` then `b` is reading `a`, then `b` if the reader survived `a`. */
  lemma ReaderRunAppend(a: seq<BrokerMsg>, b: seq<BrokerMsg>, loads: string -> Loaded)
    ensures ReaderRun(a + b, loads).0 == ReaderRun(a, loads).0 + (if ReaderRun(a, loads).1 then [] else ReaderRun(b, loads).0)
    ensures ReaderRun(a + b, loads).1 == (ReaderRun(a, loads).1 || ReaderRun(b, loads).1)
  {
    ReadsAppend(a, b, loads);
    CollectAppend(Reads(a, loads), Reads(b, loads));
  }

  // ---------------------------------------------------------------------
  // The session state and one step of each task
  // ---------------------------------------------------------------------

  /** What the session has sent: the ready message, a queued message, or a heartbeat at a clock reading. */
  datatype Sent = Opening(text: string) | Item(frame: Frame) | HeartbeatAt(at: int)

  function Wire(e: Sent): string {
    match e
    case Opening(text) => text
    case Item(f) => Encode(f)
    case HeartbeatAt(_) => Heartbeat
  }

  function Wires(es: seq<Sent>): (r: seq<string>)
    ensures |r| == |es|
  {
    if es == [] then [] else [Wire(es[0])] + Wires(es[1..])
  }

  /** Calls on the broker's pub/sub connection. */
  datatype Call = Subscribe(channel: string) | Unsubscribe(channel: string)

  /** One iteration's inputs: the items the reader receives, the disconnect test, the clock after the queue wait. */
  datatype Tick = Tick(arrivals: seq<BrokerMsg>, disconnected: bool, now: int)

  /** The session; `queue` holds what the reader has queued, as the frames whose text it is. */
  datatype Session = Session(
    channel: string,
    queue: seq<Frame>,
    lastHb: int,
    alive: bool,
    closed: bool,
    sent: seq<Sent>,
    calls: seq<Call>)

  /** The channel the session subscribes to (app/services/sse_manager.py:33). */
  function SessionChannel(userId: string): string {
    "user:" + userId
  }

  function ReadyMessage(retryMs: int): string {
    Message(ReadyData, Some(ReadyEvent), None, Some(retryMs))
  }

  /** Subscribed, reader started, ready message sent, heartbeat clock started at `t0`. */
  function Start(userId: string, retryMs: int, t0: int): Session {
    Session(SessionChannel(userId), [], t0, true, false, [Opening(ReadyMessage(retryMs))], [Subscribe(SessionChannel(userId))])
  }

  /** The reader carries out one decision; once it has ended it handles nothing more. */
  function Deliver(s: Session, r: Read): Session {
    if !s.alive then s
    else match r
      case Skip => s
      case Put(f) => s.(queue := s.queue + [f])
      case Crash => s.(alive := false, calls := s.calls + [Unsubscribe(s.channel)])
  }

  function DeliverAll(s: Session, rs: seq<Read>): Session
    decreases |rs|
  {
    if rs == [] then s else DeliverAll(Deliver(s, rs[0]), rs[1..])
  }

  /** One drain iteration after the disconnect test: send the oldest queued message if any, then a heartbeat if due. */
  function Drain(s: Session, now: int, interval: int): Session {
    var s1 := if s.queue != [] then s.(queue := s.queue[1..], sent := s.sent + [Item(s.queue[0])]) else s;
    if now - s1.lastHb >= interval then s1.(sent := s1.sent + [HeartbeatAt(now)], lastHb := now) else s1
  }

  /** Teardown: the reader is cancelled, and its `finally` unsubscribes if it was still running. */
  function Close(s: Session): Session {
    s.(closed := true, alive := false, calls := s.calls + (if s.alive then [Unsubscribe(s.channel)] else []))
  }

  /** The session after the iterations `ticks`, stopping at the first disconnect. */
  function RunTicks(s: Session, ticks: seq<Tick>, interval: int, loads: string -> Loaded): Session
    decreases |ticks|
  {
    if ticks == [] then s
    else
      var s1 := DeliverAll(s, Reads(ticks[0].arrivals, loads));
      if ticks[0].disconnected then Close(s1)
      else RunTicks(Drain(s1, ticks[0].now, interval), ticks[1..], interval, loads)
  }

  function Run(userId: string, retryMs: int, interval: int, t0: int, ticks: seq<Tick>, loads: string -> Loaded): Session {
    RunTicks(Start(userId, retryMs, t0), ticks, interval, loads)
  }

  // ---------------------------------------------------------------------
  // The generator as a loop
  // ---------------------------------------------------------------------

  /**
   * `sse_event_stream` driven by `ticks`: what it yields, the calls it
   * makes on the broker, and whether it has closed.
   */
  method EventStream(userId: string, retryMs: int, interval: int, t0: int, ticks: seq<Tick>, loads: string -> Loaded)
    returns (out: seq<string>, calls: seq<Call>, closed: bool)
    ensures var r := Run(userId, retryMs, interval, t0, ticks, loads);
      out == Wires(r.sent) && calls == r.calls && closed == r.closed
  {
    var channel := "user:" + userId;
    calls := [Subscribe(channel)];
    var queue: seq<string> := [];
    ghost var frames: seq<Frame> := [];
    var alive := true;
    var ready := FormatSse(ReadyData, Some(ReadyEvent), None, Some(retryMs));
    out := [ready];
    ghost var log := [Opening(ready)];
    var lastHb := t0;
    closed := false;
    var k := 0;
    while k < |ticks| && !closed
      invariant 0 <= k <= |ticks|
      invariant out == Wires(log) && queue == Encodes(frames)
      invariant !closed ==> RunTicks(Session(channel, frames, lastHb, alive, false, log, calls), ticks[k..], interval, loads)
                            == Run(userId, retryMs, interval, t0, ticks, loads)
      invariant closed ==> Session(channel, frames, lastHb, alive, true, log, calls) == Run(userId, retryMs, interval, t0, ticks, loads)
      decreases |ticks| - k
    {
      var tick := ticks[k];
      // the reader handles what arrived during this iteration
      queue, frames, alive, calls := ReaderTurn(channel, queue, frames, alive, calls, tick.arrivals, loads, lastHb, log);
      assert ticks[k..][0] == tick && ticks[k..][1..] == ticks[k + 1..];
      if tick.disconnected {
        if alive {
          calls := calls + [Unsubscribe(channel)];
        }
        alive := false;
        closed := true;
      } else {
        out, log, queue, frames, lastHb := DrainTurn(channel, queue, frames, lastHb, alive, calls, out, log, tick.now, interval);
      }
      k := k + 1;
    }
    if !closed {
      assert ticks[k..] == [];
    }
  }

  /** The texts of `fs`, one per frame. */
  function Encodes(fs: seq<Frame>): (r: seq<string>)
    ensures |r| == |fs|
    ensures forall k :: 0 <= k < |fs| ==> r[k] == Encode(fs[k])
  {
    if fs == [] then [] else [Encode(fs[0])] + Encodes(fs[1..])
  }

  lemma {:induction false} EncodesSnoc(fs: seq<Frame>, f: Frame)
    ensures Encodes(fs + [f]) == Encodes(fs) + [Encode(f)]
  {
    if fs != [] {
      assert (fs + [f])[1..] == fs[1..] + [f];
      EncodesSnoc(fs[1..], f);
    }
  }

  /** One drain iteration after the disconnect test: the queued message, if any, then the heartbeat if due. */
  method DrainTurn(channel: string, queue: seq<string>, ghost frames: seq<Frame>, lastHb: int, ghost alive: bool, ghost calls: seq<Call>,
                   out: seq<string>, ghost log: seq<Sent>, now: int, interval: int)
    returns (out': seq<string>, ghost log': seq<Sent>, queue': seq<string>, ghost frames': seq<Frame>, lastHb': int)
    requires out == Wires(log) && queue == Encodes(frames)
    ensures out' == Wires(log') && queue' == Encodes(frames')
    ensures Drain(Session(channel, frames, lastHb, alive, false, log, calls), now, interval)
            == Session(channel, frames', lastHb', alive, false, log', calls)
  {
    out', log', queue', frames', lastHb' := out, log, queue, frames, lastHb;
    if queue' != [] {
      WiresSnoc(log', Item(frames'[0]));
      assert Encodes(frames')[1..] == Encodes(frames'[1..]);
      out' := out' + [queue'[0]];
      log' := log' + [Item(frames'[0])];
      queue' := queue'[1..];
      frames' := frames'[1..];
    }
    if now - lastHb' >= interval {
      WiresSnoc(log', HeartbeatAt(now));
      out' := out' + [Heartbeat];
      log' := log' + [HeartbeatAt(now)];
      lastHb' := now;
    }
  }

  /** The reader task handling the items that arrive during one iteration of the drain loop. */
  method ReaderTurn(channel: string, queue: seq<string>, ghost frames: seq<Frame>, alive: bool, calls: seq<Call>, arrivals: seq<BrokerMsg>,
                    loads: string -> Loaded, ghost lastHb: int, ghost log: seq<Sent>)
    returns (queue': seq<string>, ghost frames': seq<Frame>, alive': bool, calls': seq<Call>)
    requires queue == Encodes(frames)
    ensures queue' == Encodes(frames')
    ensures DeliverAll(Session(channel, frames, lastHb, alive, false, log, calls), Reads(arrivals, loads))
            == Session(channel, frames', lastHb, alive', false, log, calls')
  {
    queue', frames', alive', calls' := queue, frames, alive, calls;
    var j := 0;
    while j < |arrivals|
      invariant 0 <= j <= |arrivals|
      invariant queue' == Encodes(frames')
      invariant DeliverAll(Session(channel, frames', lastHb, alive', false, log, calls'), Reads(arrivals, loads)[j..])
                == DeliverAll(Session(channel, frames, lastHb, alive, false, log, calls), Reads(arrivals, loads))
    {
      assert Reads(arrivals, loads)[j..][0] == ReadOne(arrivals[j], loads);
      assert Reads(arrivals, loads)[j..][1..] == Reads(arrivals, loads)[j + 1..];
      if alive' {
        var r, sse := ReadItem(arrivals[j], loads);
        if r.Put? {
          EncodesSnoc(frames', r.frame);
          queue' := queue' + [sse];
          frames' := frames' + [r.frame];
        } else if r.Crash? {
          alive' := false;
          calls' := calls' + [Unsubscribe(channel)];
        }
      }
      j := j + 1;
    }
    assert Reads(arrivals, loads)[j..] == [];
  }

  lemma {:induction false} WiresSnoc(es: seq<Sent>, e: Sent)
    ensures Wires(es + [e]) == Wires(es) + [Wire(e)]
  {
    if es != [] {
      assert (es + [e])[1..] == es[1..] + [e];
      WiresSnoc(es[1..], e);
    }
  }

  // ---------------------------------------------------------------------
  // What the session promises
  // ---------------------------------------------------------------------

  /** The queued messages among `es`, in order. */
  function Items(es: seq<Sent>): seq<Frame> {
    if es == [] then [] else (if es[0].Item? then [es[0].frame] else []) + Items(es[1..])
  }

  /** The clock readings of the heartbeats among `es`, in order. */
  function BeatTimes(es: seq<Sent>): seq<int> {
    if es == [] then [] else (if es[0].HeartbeatAt? then [es[0].at] else []) + BeatTimes(es[1..])
  }

  /** All items the reader receives before the loop stops: those of every tick up to the first disconnect. */
  function Consumed(ticks: seq<Tick>): seq<BrokerMsg> {
    if ticks == [] then [] else ticks[0].arrivals + (if ticks[0].disconnected then [] else Consumed(ticks[1..]))
  }

  lemma {:induction false} ItemsSnoc(es: seq<Sent>, e: Sent)
    ensures Items(es + [e]) == Items(es) + (if e.Item? then [e.frame] else [])
    ensures BeatTimes(es + [e]) == BeatTimes(es) + (if e.HeartbeatAt? then [e.at] else [])
  {
    if es != [] {
      assert (es + [e])[0] == es[0] && (es + [e])[1..] == es[1..] + [e];
      ItemsSnoc(es[1..], e);
    } else {
      assert [e][1..] == [];
    }
  }

  /** The reader's part of an iteration: it queues what `Collect` says, ends if that says so, and touches nothing of the drain loop. */
  lemma DeliverAllEffect(s: Session, rs: seq<Read>)
    ensures var r := DeliverAll(s, rs); var c := Collect(rs);
      && r.channel == s.channel && r.sent == s.sent && r.lastHb == s.lastHb && r.closed == s.closed
      && r.queue == s.queue + (if s.alive then c.0 else [])
      && r.alive == (s.alive && !c.1)
      && r.calls == s.calls + (if s.alive && c.1 then [Unsubscribe(s.channel)] else [])
  {
    DeliverAllKeeps(s, rs);
    DeliverAllQueue(s, rs);
    DeliverAllEnds(s, rs);
  }

  lemma {:induction false} DeliverAllKeeps(s: Session, rs: seq<Read>)
    ensures var r := DeliverAll(s, rs);
      r.channel == s.channel && r.sent == s.sent && r.lastHb == s.lastHb && r.closed == s.closed
    decreases |rs|
  {
    if rs != [] {
      DeliverAllKeeps(Deliver(s, rs[0]), rs[1..]);
    }
  }

  lemma {:induction false} DeliverAllQueue(s: Session, rs: seq<Read>)
    ensures DeliverAll(s, rs).queue == s.queue + (if s.alive then Collect(rs).0 else [])
    decreases |rs|
  {
    if rs == [] {
      assert s.queue + [] == s.queue;
    } else {
      var s1 := Deliver(s, rs[0]);
      DeliverAllQueue(s1, rs[1..]);
      if !s.alive {
        assert s.queue + [] == s.queue;
      } else {
        match rs[0]
        case Skip =>
        case Put(f) =>
          assert s.queue + [f] + Collect(rs[1..]).0 == s.queue + ([f] + Collect(rs[1..]).0);
        case Crash =>
          assert s1.queue + [] == s.queue;
      }
    }
  }

  lemma {:induction false} DeliverAllEnds(s: Session, rs: seq<Read>)
    ensures var r := DeliverAll(s, rs); var c := Collect(rs);
      && r.alive == (s.alive && !c.1)
      && r.calls == s.calls + (if s.alive && c.1 then [Unsubscribe(s.channel)] else [])
    decreases |rs|
  {
    if rs == [] {
      assert s.calls + [] == s.calls;
    } else {
      var s1 := Deliver(s, rs[0]);
      DeliverAllEnds(s1, rs[1..]);
      DeliverAllKeeps(s1, rs[1..]);
      if !s.alive {
        assert s.calls + [] == s.calls;
      } else if rs[0].Crash? {
        assert s1.calls + [] == s1.calls;
      }
    }
  }

  /**
   * A drain iteration sends at most one queued message, the oldest, then at
   * most one heartbeat; the heartbeat fires exactly when `now - lastHb >=
   * interval` and then restarts the clock at `now`. Sending a message does
   * not restart it.
   */
  lemma DrainSends(s: Session, now: int, interval: int)
    ensures var d := Drain(s, now, interval); var due := now - s.lastHb >= interval;
      && d.sent == s.sent + (if s.queue != [] then [Item(s.queue[0])] else []) + (if due then [HeartbeatAt(now)] else [])
      && d.queue == (if s.queue != [] then s.queue[1..] else [])
      && d.lastHb == (if due then now else s.lastHb)
      && Items(d.sent) + d.queue == Items(s.sent) + s.queue
      && BeatTimes(d.sent) == BeatTimes(s.sent) + (if due then [now] else [])
      && d.channel == s.channel && d.alive == s.alive && d.closed == s.closed && d.calls == s.calls
  {
    var d := Drain(s, now, interval);
    var item := if s.queue != [] then [Item(s.queue[0])] else [];
    var beat := if now - s.lastHb >= interval then [HeartbeatAt(now)] else [];
    assert d.sent == s.sent + item + beat;
    SentLogs(s.sent, item, beat);
    if s.queue != [] {
      assert s.queue == [s.queue[0]] + s.queue[1..];
    }
  }

  /** What one drain iteration adds to the items and heartbeat times sent. */
  lemma SentLogs(sent: seq<Sent>, item: seq<Sent>, beat: seq<Sent>)
    requires forall e | e in item :: e.Item?
    requires |item| <= 1 && (beat == [] || (|beat| == 1 && beat[0].HeartbeatAt?))
    ensures Items(sent + item + beat) == Items(sent) + (if item != [] then [item[0].frame] else [])
    ensures BeatTimes(sent + item + beat) == BeatTimes(sent) + (if beat != [] then [beat[0].at] else [])
  {
    if item != [] {
      assert item == [item[0]];
      ItemsSnoc(sent, item[0]);
    } else {
      assert sent + item == sent;
    }
    if beat != [] {
      assert beat == [beat[0]];
      ItemsSnoc(sent + item, beat[0]);
    } else {
      assert sent + item + beat == sent + item;
    }
  }

  /** The reader's and the broker's invariant, with `done` the reader's decisions so far. */
  predicate ReaderInv(s: Session, done: seq<Read>) {
    && Items(s.sent) + s.queue == Collect(done).0
    && s.alive == (!s.closed && !Collect(done).1)
    && s.calls == [Subscribe(s.channel)] + (if s.alive then [] else [Unsubscribe(s.channel)])
  }

  lemma DeliverAllInv(s: Session, done: seq<Read>, rs: seq<Read>)
    requires ReaderInv(s, done) && !s.closed
    ensures ReaderInv(DeliverAll(s, rs), done + rs)
  {
    DeliverAllEffect(s, rs);
    CollectAppend(done, rs);
  }

  lemma {:induction false} RunTicksInv(s: Session, done: seq<Read>, ticks: seq<Tick>, interval: int, loads: string -> Loaded)
    requires ReaderInv(s, done) && !s.closed
    ensures ReaderInv(RunTicks(s, ticks, interval, loads), done + Reads(Consumed(ticks), loads))
    decreases |ticks|
  {
    if ticks == [] {
      assert done + Reads([], loads) == done;
    } else {
      var arr := Reads(ticks[0].arrivals, loads);
      var s1 := DeliverAll(s, arr);
      DeliverAllInv(s, done, arr);
      DeliverAllEffect(s, arr);
      if ticks[0].disconnected {
        CloseInv(s1, done + arr);
        assert Consumed(ticks) == ticks[0].arrivals + [] == ticks[0].arrivals;
      } else {
        DrainSends(s1, ticks[0].now, interval);
        RunTicksInv(Drain(s1, ticks[0].now, interval), done + arr, ticks[1..], interval, loads);
        ReadsAppend(ticks[0].arrivals, Consumed(ticks[1..]), loads);
        assert done + Reads(Consumed(ticks), loads) == (done + arr) + Reads(Consumed(ticks[1..]), loads);
      }
    }
  }

  lemma CloseInv(s: Session, done: seq<Read>)
    requires ReaderInv(s, done)
    ensures ReaderInv(Close(s), done)
  {
    assert Close(s).calls == [Subscribe(s.channel), Unsubscribe(s.channel)];
  }

  /**
   * Messages are sent in the order the reader queued them: the messages
   * sent, then those still queued, are what the reader made of the items it
   * received, in order.
   */
  lemma Fifo(userId: string, retryMs: int, interval: int, t0: int, ticks: seq<Tick>, loads: string -> Loaded)
    ensures var r := Run(userId, retryMs, interval, t0, ticks, loads);
      Items(r.sent) + r.queue == ReaderRun(Consumed(ticks), loads).0
  {
    var s := Start(userId, retryMs, t0);
    assert [Opening(ReadyMessage(retryMs))][1..] == [];
    RunTicksInv(s, [], ticks, interval, loads);
    assert [] + Reads(Consumed(ticks), loads) == Reads(Consumed(ticks), loads);
  }

  /**
   * The session subscribes once, first, and unsubscribes at most once: when
   * the reader ends on an undecodable item or at teardown, whichever comes
   * first. After teardown it has unsubscribed.
   */
  lemma Subscriptions(userId: string, retryMs: int, interval: int, t0: int, ticks: seq<Tick>, loads: string -> Loaded)
    ensures var r := Run(userId, retryMs, interval, t0, ticks, loads); var ch := SessionChannel(userId);
      && r.calls == [Subscribe(ch)] + (if r.alive then [] else [Unsubscribe(ch)])
      && (r.alive <==> !r.closed && !ReaderRun(Consumed(ticks), loads).1)
      && (r.closed ==> r.calls == [Subscribe(ch), Unsubscribe(ch)])
  {
    var s := Start(userId, retryMs, t0);
    assert [Opening(ReadyMessage(retryMs))][1..] == [];
    RunTicksInv(s, [], ticks, interval, loads);
    assert [] + Reads(Consumed(ticks), loads) == Reads(Consumed(ticks), loads);
    RunChannel(s, ticks, interval, loads);
  }

  lemma {:induction false} RunChannel(s: Session, ticks: seq<Tick>, interval: int, loads: string -> Loaded)
    ensures RunTicks(s, ticks, interval, loads).channel == s.channel
    decreases |ticks|
  {
    if ticks != [] {
      var s1 := DeliverAll(s, Reads(ticks[0].arrivals, loads));
      DeliverAllEffect(s, Reads(ticks[0].arrivals, loads));
      if !ticks[0].disconnected {
        DrainSends(s1, ticks[0].now, interval);
        RunChannel(Drain(s1, ticks[0].now, interval), ticks[1..], interval, loads);
      }
    }
  }

  /** Each heartbeat comes at least `interval` after the previous one, the first at least `interval` after `t0`. */
  predicate Spaced(t0: int, times: seq<int>, interval: int) {
    && (times != [] ==> times[0] - t0 >= interval)
    && forall k :: 0 < k < |times| ==> times[k] - times[k - 1] >= interval
  }

  function LastBeat(t0: int, times: seq<int>): int {
    if times == [] then t0 else times[|times| - 1]
  }

  lemma {:induction false} RunTicksBeats(s: Session, t0: int, ticks: seq<Tick>, interval: int, loads: string -> Loaded)
    requires Spaced(t0, BeatTimes(s.sent), interval) && s.lastHb == LastBeat(t0, BeatTimes(s.sent))
    ensures var r := RunTicks(s, ticks, interval, loads);
      Spaced(t0, BeatTimes(r.sent), interval) && r.lastHb == LastBeat(t0, BeatTimes(r.sent))
    decreases |ticks|
  {
    if ticks != [] {
      var s1 := DeliverAll(s, Reads(ticks[0].arrivals, loads));
      DeliverAllEffect(s, Reads(ticks[0].arrivals, loads));
      if !ticks[0].disconnected {
        var now := ticks[0].now;
        DrainSends(s1, now, interval);
        var d := Drain(s1, now, interval);
        assert s1.sent == s.sent && s1.lastHb == s.lastHb;
        if now - s1.lastHb >= interval {
          SpacedSnoc(t0, BeatTimes(s1.sent), now, interval);
        }
        RunTicksBeats(d, t0, ticks[1..], interval, loads);
      }
    }
  }

  lemma SpacedSnoc(t0: int, ts: seq<int>, now: int, interval: int)
    requires Spaced(t0, ts, interval) && now - LastBeat(t0, ts) >= interval
    ensures Spaced(t0, ts + [now], interval) && LastBeat(t0, ts + [now]) == now
  {
    var ts' := ts + [now];
    forall k | 0 < k < |ts'| ensures ts'[k] - ts'[k - 1] >= interval {
      if k < |ts| {
        assert ts'[k] == ts[k] && ts'[k - 1] == ts[k - 1];
      } else {
        assert ts'[k - 1] == ts[|ts| - 1] && ts'[k] == now;
      }
    }
  }

  /** Heartbeats are spaced by at least the interval, and the clock they restart is the last heartbeat's. */
  lemma HeartbeatSpacing(userId: string, retryMs: int, interval: int, t0: int, ticks: seq<Tick>, loads: string -> Loaded)
    ensures var r := Run(userId, retryMs, interval, t0, ticks, loads);
      Spaced(t0, BeatTimes(r.sent), interval) && r.lastHb == LastBeat(t0, BeatTimes(r.sent))
  {
    assert [Opening(ReadyMessage(retryMs))][1..] == [];
    RunTicksBeats(Start(userId, retryMs, t0), t0, ticks, interval, loads);
  }

  /** The clock part of the inputs: the disconnect test and the clock reading of each iteration. */
  function Clock(ticks: seq<Tick>): (r: seq<(bool, int)>)
    ensures |r| == |ticks|
    ensures forall k :: 0 <= k < |ticks| ==> r[k] == (ticks[k].disconnected, ticks[k].now)
  {
    if ticks == [] then [] else [(ticks[0].disconnected, ticks[0].now)] + Clock(ticks[1..])
  }

  /** When heartbeats go out depends on the clock alone, not on what the broker delivers. */
  lemma {:induction false} BeatsIgnoreArrivals(s1: Session, s2: Session, ticks1: seq<Tick>, ticks2: seq<Tick>, interval: int, loads: string -> Loaded)
    requires BeatTimes(s1.sent) == BeatTimes(s2.sent) && s1.lastHb == s2.lastHb
    requires Clock(ticks1) == Clock(ticks2)
    ensures BeatTimes(RunTicks(s1, ticks1, interval, loads).sent) == BeatTimes(RunTicks(s2, ticks2, interval, loads).sent)
    decreases |ticks1|
  {
    if ticks1 != [] {
      assert Clock(ticks1)[0] == Clock(ticks2)[0];
      assert Clock(ticks1[1..]) == Clock(ticks2[1..]) by {
        forall k | 0 <= k < |ticks1| - 1 ensures Clock(ticks1[1..])[k] == Clock(ticks2[1..])[k] {
          assert Clock(ticks1)[k + 1] == Clock(ticks2)[k + 1];
        }
      }
      var a1 := DeliverAll(s1, Reads(ticks1[0].arrivals, loads));
      var a2 := DeliverAll(s2, Reads(ticks2[0].arrivals, loads));
      DeliverAllEffect(s1, Reads(ticks1[0].arrivals, loads));
      DeliverAllEffect(s2, Reads(ticks2[0].arrivals, loads));
      if ticks1[0].disconnected {
      } else {
        var now := ticks1[0].now;
        DrainSends(a1, now, interval);
        DrainSends(a2, now, interval);
        BeatsIgnoreArrivals(Drain(a1, now, interval), Drain(a2, now, interval), ticks1[1..], ticks2[1..], interval, loads);
      }
    }
  }

  lemma {:induction false} SentGrows(s: Session, ticks: seq<Tick>, interval: int, loads: string -> Loaded)
    ensures s.sent <= RunTicks(s, ticks, interval, loads).sent
    decreases |ticks|
  {
    if ticks != [] {
      var s1 := DeliverAll(s, Reads(ticks[0].arrivals, loads));
      DeliverAllEffect(s, Reads(ticks[0].arrivals, loads));
      if !ticks[0].disconnected {
        DrainSends(s1, ticks[0].now, interval);
        SentGrows(Drain(s1, ticks[0].now, interval), ticks[1..], interval, loads);
      }
    }
  }

  /** The first thing a session sends is the ready message. */
  lemma ReadyFirst(userId: string, retryMs: int, interval: int, t0: int, ticks: seq<Tick>, loads: string -> Loaded)
    ensures var r := Run(userId, retryMs, interval, t0, ticks, loads);
      r.sent != [] && r.sent[0] == Opening(ReadyMessage(retryMs))
  {
    SentGrows(Start(userId, retryMs, t0), ticks, interval, loads);
  }

  /** The ready message: event `ready`, the configured retry, data `stream-open`, no id. */
  lemma ReadyMessageFields(retryMs: int)
    ensures var f := FieldLines(ReadyData, Some(ReadyEvent), None, Some(retryMs));
      && Fields(f, "id: ") == [] && Fields(f, "retry: ") == [IntToString(retryMs)]
      && Fields(f, "event: ") == [ReadyEvent] && Fields(f, "data: ") == [ReadyData]
  {
    MessageFields(ReadyData, Some(ReadyEvent), None, Some(retryMs));
    ReadyEventIsClean();
    ReadyDataIsClean();
    SplitLinesSingle(ReadyData);
  }

  /** The loop stops at the first disconnect: later iterations change nothing. */
  lemma {:induction false} StopsAtDisconnect(s: Session, ticks: seq<Tick>, more: seq<Tick>, interval: int, loads: string -> Loaded)
    requires ticks != [] && ticks[|ticks| - 1].disconnected
    ensures RunTicks(s, ticks + more, interval, loads) == RunTicks(s, ticks, interval, loads)
    ensures RunTicks(s, ticks, interval, loads).closed
    decreases |ticks|
  {
    assert (ticks + more)[0] == ticks[0];
    assert (ticks + more)[1..] == ticks[1..] + more;
    if !ticks[0].disconnected {
      StopsAtDisconnect(Drain(DeliverAll(s, Reads(ticks[0].arrivals, loads)), ticks[0].now, interval), ticks[1..], more, interval, loads);
    }
  }

  /** The stream closes exactly when some iteration finds the client gone. */
  lemma {:induction false} ClosedIffDisconnect(s: Session, ticks: seq<Tick>, interval: int, loads: string -> Loaded)
    requires !s.closed
    ensures RunTicks(s, ticks, interval, loads).closed <==> exists k :: 0 <= k < |ticks| && ticks[k].disconnected
    decreases |ticks|
  {
    if ticks != [] {
      var s1 := DeliverAll(s, Reads(ticks[0].arrivals, loads));
      DeliverAllEffect(s, Reads(ticks[0].arrivals, loads));
      if !ticks[0].disconnected {
        var d := Drain(s1, ticks[0].now, interval);
        DrainSends(s1, ticks[0].now, interval);
        ClosedIffDisconnect(d, ticks[1..], interval, loads);
        if exists k :: 0 <= k < |ticks| && ticks[k].disconnected {
          var k :| 0 <= k < |ticks| && ticks[k].disconnected;
          assert ticks[1..][k - 1].disconnected;
        }
        if exists k :: 0 <= k < |ticks[1..]| && ticks[1..][k].disconnected {
          var k :| 0 <= k < |ticks[1..]| && ticks[1..][k].disconnected;
          assert ticks[k + 1].disconnected;
        }
      } else {
        assert ticks[0].disconnected;
      }
    }
  }
}
