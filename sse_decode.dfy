/**
 * The event-stream decoder of the load-test client (`parse_sse_block` and the
 * `"\n\n"` buffer framing of `sse_client` in dev_tools/sse_benchmark.py),
 * and how it reads back what the encoder in `SseWire` writes.
 */
module SseDecode {
  import opened Wrappers
  import opened PyStr
  import opened SseWire

  /** One tuple the generator yields: `(event, eid, data)`. */
  datatype Event = Event(event: Option<string>, id: Option<string>, data: string)

  /** The three accumulators of the parser loop. */
  datatype Acc = Acc(event: Option<string>, id: Option<string>, dataLines: seq<string>)

  const Fresh: Acc := Acc(None, None, [])

  /** The tuple yielded at an empty line. */
  function Yielded(acc: Acc): Event {
    Event(acc.event, acc.id, Join("\n", acc.dataLines))
  }

  /** What one non-empty line does to the accumulators. */
  function Step(acc: Acc, line: string): Acc {
    if ":" <= line then acc
    else if "event:" <= line then acc.(event := Some(Strip(line[6..])))
    else if "id:" <= line then acc.(id := Some(Strip(line[3..])))
    else if "data:" <= line then acc.(dataLines := acc.dataLines + [Strip(line[5..])])
    else acc
  }

  /** The tuples yielded for the remaining `lines`, the accumulators being `acc`. */
  function ParseFrom(lines: seq<string>, acc: Acc): seq<Event>
  {
    if lines == [] then []
    else if lines[0] == "" then [Yielded(acc)] + ParseFrom(lines[1..], Fresh)
    else ParseFrom(lines[1..], Step(acc, lines[0]))
  }

  /** Everything `parse_sse_block(block)` yields. */
  function Parse(block: string): seq<Event> {
    ParseFrom(SplitLines(block), Fresh)
  }

  /** `parse_sse_block`, collecting what the generator yields. */
  method ParseSseBlock(block: string) returns (events: seq<Event>)
    ensures events == Parse(block)
  {
    var lines := SplitLines(block);
    var event: Option<string> := None;
    var eid: Option<string> := None;
    var dataLines: seq<string> := [];
    events := [];
    var i := 0;
    while i < |lines|
      invariant 0 <= i <= |lines|
      invariant events + ParseFrom(lines[i..], Acc(event, eid, dataLines)) == Parse(block)
    {
      var line := lines[i];
      assert lines[i..][1..] == lines[i + 1..];
      if line == "" {
        events := events + [Event(event, eid, Join("\n", dataLines))];
        event, eid, dataLines := None, None, [];
      } else if ":" <= line {
      } else if "event:" <= line {
        event := Some(Strip(line[6..]));
      } else if "id:" <= line {
        eid := Some(Strip(line[3..]));
      } else if "data:" <= line {
        dataLines := dataLines + [Strip(line[5..])];
      }
      i := i + 1;
    }
  }

  // ---------------------------------------------------------------------
  // What a block of lines means, independently of the loop
  // ---------------------------------------------------------------------

  /** The last value, stripped, of a line of `b` starting with `prefix`. */
  function LastValue(b: seq<string>, prefix: string): Option<string>
  {
    if b == [] then None
    else if prefix <= b[|b| - 1] then Some(Strip(b[|b| - 1][|prefix|..]))
    else LastValue(b[..|b| - 1], prefix)
  }

  /** The values, stripped, of the `data:` lines of `b`, in order. */
  function DataValues(b: seq<string>): seq<string>
  {
    if b == [] then []
    else DataValues(b[..|b| - 1]) + (if "data:" <= b[|b| - 1] then [Strip(b[|b| - 1][5..])] else [])
  }

  /** The event a block of field lines denotes: the last `event:` and `id:` values, all `data:` values. */
  function BlockEvent(b: seq<string>): Event {
    Event(LastValue(b, "event:"), LastValue(b, "id:"), Join("\n", DataValues(b)))
  }

  /** The accumulators after feeding the lines `b` one by one. */
  function Feed(acc: Acc, b: seq<string>): Acc
    decreases |b|
  {
    if b == [] then acc else Feed(Step(acc, b[0]), b[1..])
  }

  predicate NoEmptyLine(b: seq<string>) {
    forall k :: 0 <= k < |b| ==> b[k] != ""
  }

  lemma {:induction false} FeedSnoc(acc: Acc, b: seq<string>, l: string)
    ensures Feed(acc, b + [l]) == Step(Feed(acc, b), l)
    decreases |b|
  {
    if b != [] {
      assert (b + [l])[1..] == b[1..] + [l];
      FeedSnoc(Step(acc, b[0]), b[1..], l);
    }
  }

  /** The field names are told apart by their first character, so at most one branch of `Step` applies. */
  lemma StepFields(acc: Acc, l: string)
    ensures Step(acc, l).event == if "event:" <= l then Some(Strip(l[6..])) else acc.event
    ensures Step(acc, l).id == if "id:" <= l then Some(Strip(l[3..])) else acc.id
    ensures Step(acc, l).dataLines == acc.dataLines + (if "data:" <= l then [Strip(l[5..])] else [])
  {
    if ":" <= l {
      assert l[0] == ':';
    } else if "event:" <= l {
      assert l[0] == 'e';
    } else if "id:" <= l {
      assert l[0] == 'i';
    } else if "data:" <= l {
      assert l[0] == 'd';
    } else {
      assert acc.dataLines + [] == acc.dataLines;
    }
  }

  /**
   * From fresh accumulators, a block leaves its last `event:` value, its
   * last `id:` value and all its `data:` values: a later `event:` or `id:`
   * line overwrites an earlier one, `data:` lines accumulate in order.
   */
  lemma {:induction false} FeedFresh(b: seq<string>)
    ensures Feed(Fresh, b) == Acc(LastValue(b, "event:"), LastValue(b, "id:"), DataValues(b))
    decreases |b|
  {
    if b != [] {
      var init, l := b[..|b| - 1], b[|b| - 1];
      assert b == init + [l];
      FeedSnoc(Fresh, init, l);
      FeedFresh(init);
      StepFields(Feed(Fresh, init), l);
    }
  }

  /** A block of non-empty lines closed by an empty line yields exactly one tuple, then parsing starts afresh. */
  lemma {:induction false} ParseBlock(b: seq<string>, rest: seq<string>, acc: Acc)
    requires NoEmptyLine(b)
    ensures ParseFrom(b + [""] + rest, acc) == [Yielded(Feed(acc, b))] + ParseFrom(rest, Fresh)
  {
    if b == [] {
      assert b + [""] + rest == [""] + rest;
      assert ([""] + rest)[1..] == rest;
    } else {
      assert (b + [""] + rest)[0] == b[0];
      assert (b + [""] + rest)[1..] == b[1..] + [""] + rest;
      ParseBlock(b[1..], rest, Step(acc, b[0]));
    }
  }

  /** Field lines after the last empty line are never yielded. */
  lemma {:induction false} ParseTrailing(b: seq<string>, acc: Acc)
    requires NoEmptyLine(b)
    ensures ParseFrom(b, acc) == []
  {
    if b != [] {
      ParseTrailing(b[1..], Step(acc, b[0]));
    }
  }

  function CountEmpty(lines: seq<string>): nat {
    if lines == [] then 0 else (if lines[0] == "" then 1 else 0) + CountEmpty(lines[1..])
  }

  /** One tuple per empty line, no more and no fewer. */
  lemma {:induction false} ParseCount(lines: seq<string>, acc: Acc)
    ensures |ParseFrom(lines, acc)| == CountEmpty(lines)
  {
    if lines != [] {
      ParseCount(lines[1..], if lines[0] == "" then Fresh else Step(acc, lines[0]));
    }
  }

  /** Comment lines, and lines with no known field name (such as `retry:`), change nothing. */
  lemma IgnoredLine(line: string, rest: seq<string>, acc: Acc)
    requires line != ""
    requires ":" <= line || !("event:" <= line || "id:" <= line || "data:" <= line)
    ensures ParseFrom([line] + rest, acc) == ParseFrom(rest, acc)
  {
    assert ([line] + rest)[1..] == rest;
  }

  // ---------------------------------------------------------------------
  // Reading back the encoder's messages
  // ---------------------------------------------------------------------

  lemma {:induction false} LastValueAppend(a: seq<string>, b: seq<string>, prefix: string)
    ensures LastValue(a + b, prefix) == if LastValue(b, prefix).Some? then LastValue(b, prefix) else LastValue(a, prefix)
    decreases |b|
  {
    if b == [] {
      assert a + b == a;
    } else {
      assert (a + b)[..|a + b| - 1] == a + b[..|b| - 1];
      assert (a + b)[|a + b| - 1] == b[|b| - 1];
      LastValueAppend(a, b[..|b| - 1], prefix);
    }
  }

  lemma {:induction false} DataValuesAppend(a: seq<string>, b: seq<string>)
    ensures DataValues(a + b) == DataValues(a) + DataValues(b)
    decreases |b|
  {
    if b == [] {
      assert a + b == a;
    } else {
      assert (a + b)[..|a + b| - 1] == a + b[..|b| - 1];
      assert (a + b)[|a + b| - 1] == b[|b| - 1];
      DataValuesAppend(a, b[..|b| - 1]);
    }
  }

  lemma LastValueSingle(line: string, prefix: string)
    ensures LastValue([line], prefix) == if prefix <= line then Some(Strip(line[|prefix|..])) else None
  {
    assert [line][..0] == [];
  }

  lemma DataValuesSingle(line: string)
    ensures DataValues([line]) == if "data:" <= line then [Strip(line[5..])] else []
  {
    var b := [line];
    assert b[..|b| - 1] == [] && b[|b| - 1] == line;
    assert DataValues(b) == DataValues([]) + (if "data:" <= line then [Strip(line[5..])] else []);
  }

  lemma {:induction false} LastValueDataLines(ls: seq<string>, prefix: string)
    requires prefix != [] && prefix[0] != 'd'
    ensures LastValue(Prefixed("data: ", ls), prefix) == None
    decreases |ls|
  {
    if ls != [] {
      var init := ls[..|ls| - 1];
      assert ls == init + [ls[|ls| - 1]];
      PrefixedSnoc("data: ", init, ls[|ls| - 1]);
      var d := Prefixed("data: ", ls);
      assert d[|d| - 1][0] == 'd';
      assert d[..|d| - 1] == Prefixed("data: ", init);
      LastValueDataLines(init, prefix);
    }
  }

  /** The `data:` values of encoded payload lines are the payload lines, when each has no surrounding whitespace. */
  lemma {:induction false} DataValuesDataLines(ls: seq<string>)
    requires forall k :: 0 <= k < |ls| ==> IsStripped(ls[k])
    ensures DataValues(Prefixed("data: ", ls)) == ls
    decreases |ls|
  {
    if ls != [] {
      var init, l := ls[..|ls| - 1], ls[|ls| - 1];
      assert ls == init + [l];
      PrefixedSnoc("data: ", init, l);
      var d := Prefixed("data: ", ls);
      assert d[..|d| - 1] == Prefixed("data: ", init);
      assert d[|d| - 1] == "data: " + l;
      assert "data:" <= "data: " + l;
      assert ("data: " + l)[5..] == " " + l;
      StripAfterSpace(l);
      DataValuesDataLines(init);
    }
  }

  /** A line `field + " " + v` read back under its own field name. */
  lemma OwnLine(field: string, v: string)
    requires IsStripped(v)
    ensures LastValue([field + " " + v], field) == Some(v)
  {
    var l := field + " " + v;
    LastValueSingle(l, field);
    assert l[|field|..] == " " + v;
    StripAfterSpace(v);
  }

  /** A line read under a field name it does not start with. */
  lemma OtherLine(l: string, field: string)
    requires l != [] && field != [] && l[0] != field[0]
    ensures LastValue([l], field) == None
  {
    LastValueSingle(l, field);
  }

  /** A line that is not a `data:` line carries no data value. */
  lemma NonDataLine(l: string)
    requires l != [] && l[0] != 'd'
    ensures DataValues([l]) == []
  {
    DataValuesSingle(l);
  }

  lemma IdPartOwn(id: Option<string>)
    requires id.Some? ==> IsStripped(id.value)
    ensures LastValue(IdPart(id), "id:") == id
  {
    if id.Some? {
      assert "id: " + id.value == "id:" + " " + id.value;
      OwnLine("id:", id.value);
    }
  }

  lemma IdPartOther(id: Option<string>)
    ensures LastValue(IdPart(id), "event:") == None && DataValues(IdPart(id)) == []
  {
    if id.Some? {
      var l := "id: " + id.value;
      OtherLine(l, "event:");
      NonDataLine(l);
    }
  }

  lemma RetryPartOther(retryMs: Option<int>)
    ensures LastValue(RetryPart(retryMs), "id:") == None
    ensures LastValue(RetryPart(retryMs), "event:") == None && DataValues(RetryPart(retryMs)) == []
  {
    if retryMs.Some? {
      var l := "retry: " + IntToString(retryMs.value);
      OtherLine(l, "id:");
      OtherLine(l, "event:");
      NonDataLine(l);
    }
  }

  lemma EventPartOwn(event: Option<string>)
    requires event.Some? ==> IsStripped(event.value)
    ensures LastValue(EventPart(event), "event:") == if HasEvent(event) then event else None
  {
    if HasEvent(event) {
      assert "event: " + event.value == "event:" + " " + event.value;
      OwnLine("event:", event.value);
    }
  }

  lemma EventPartOther(event: Option<string>)
    ensures LastValue(EventPart(event), "id:") == None && DataValues(EventPart(event)) == []
  {
    if HasEvent(event) {
      var l := "event: " + event.value;
      OtherLine(l, "id:");
      NonDataLine(l);
    }
  }

  lemma HeaderIdValue(event: Option<string>, id: Option<string>, retryMs: Option<int>)
    requires id.Some? ==> IsStripped(id.value)
    ensures LastValue(IdPart(id) + RetryPart(retryMs) + EventPart(event), "id:") == id
  {
    var i, r, e := IdPart(id), RetryPart(retryMs), EventPart(event);
    LastValueAppend(i + r, e, "id:");
    LastValueAppend(i, r, "id:");
    IdPartOwn(id);
    RetryPartOther(retryMs);
    EventPartOther(event);
  }

  lemma HeaderEventValue(event: Option<string>, id: Option<string>, retryMs: Option<int>)
    requires event.Some? ==> IsStripped(event.value)
    ensures LastValue(IdPart(id) + RetryPart(retryMs) + EventPart(event), "event:") == if HasEvent(event) then event else None
  {
    var i, r, e := IdPart(id), RetryPart(retryMs), EventPart(event);
    LastValueAppend(i + r, e, "event:");
    LastValueAppend(i, r, "event:");
    IdPartOther(id);
    RetryPartOther(retryMs);
    EventPartOwn(event);
  }

  lemma HeaderDataValues(event: Option<string>, id: Option<string>, retryMs: Option<int>)
    ensures DataValues(IdPart(id) + RetryPart(retryMs) + EventPart(event)) == []
  {
    var i, r, e := IdPart(id), RetryPart(retryMs), EventPart(event);
    DataValuesAppend(i + r, e);
    DataValuesAppend(i, r);
    IdPartOther(id);
    RetryPartOther(retryMs);
    EventPartOther(event);
  }

  lemma LinesOfLastId(payload: seq<string>, event: Option<string>, id: Option<string>, retryMs: Option<int>)
    requires id.Some? ==> IsStripped(id.value)
    ensures LastValue(LinesOf(payload, event, id, retryMs), "id:") == id
  {
    var h, d := IdPart(id) + RetryPart(retryMs) + EventPart(event), Prefixed("data: ", payload);
    assert LinesOf(payload, event, id, retryMs) == h + d;
    LastValueAppend(h, d, "id:");
    LastValueDataLines(payload, "id:");
    HeaderIdValue(event, id, retryMs);
  }

  lemma LinesOfLastEvent(payload: seq<string>, event: Option<string>, id: Option<string>, retryMs: Option<int>)
    requires event.Some? ==> IsStripped(event.value)
    ensures LastValue(LinesOf(payload, event, id, retryMs), "event:") == if HasEvent(event) then event else None
  {
    var h, d := IdPart(id) + RetryPart(retryMs) + EventPart(event), Prefixed("data: ", payload);
    assert LinesOf(payload, event, id, retryMs) == h + d;
    LastValueAppend(h, d, "event:");
    LastValueDataLines(payload, "event:");
    HeaderEventValue(event, id, retryMs);
  }

  lemma LinesOfDataValues(payload: seq<string>, event: Option<string>, id: Option<string>, retryMs: Option<int>)
    requires forall k :: 0 <= k < |payload| ==> IsStripped(payload[k])
    ensures DataValues(LinesOf(payload, event, id, retryMs)) == payload
  {
    var h, d := IdPart(id) + RetryPart(retryMs) + EventPart(event), Prefixed("data: ", payload);
    assert LinesOf(payload, event, id, retryMs) == h + d;
    DataValuesAppend(h, d);
    DataValuesDataLines(payload);
    HeaderDataValues(event, id, retryMs);
  }

  /** The event a message's field lines denote. */
  lemma LinesOfEvent(payload: seq<string>, event: Option<string>, id: Option<string>, retryMs: Option<int>)
    requires id.Some? ==> IsStripped(id.value)
    requires event.Some? ==> IsStripped(event.value)
    requires forall k :: 0 <= k < |payload| ==> IsStripped(payload[k])
    ensures BlockEvent(LinesOf(payload, event, id, retryMs))
         == Event(if HasEvent(event) then event else None, id, Join("\n", payload))
  {
    LinesOfLastId(payload, event, id, retryMs);
    LinesOfLastEvent(payload, event, id, retryMs);
    LinesOfDataValues(payload, event, id, retryMs);
  }

  /** The payload lines joined back give the payload, under the data conditions of the round trip. */
  lemma PayloadRejoined(data: string)
    requires OnlyNewlineBreaks(data) && !EndsWithNewline(data)
    ensures Join("\n", PayloadLines(data)) == data
  {
    JoinSplitLines(data);
  }

  /** The conditions under which the decoder reads back exactly what the encoder was given. */
  predicate RoundTrips(data: string, event: Option<string>, id: Option<string>)
  {
    && (id.Some? ==> NoLineBreaks(id.value) && IsStripped(id.value))
    && (event.Some? ==> NoLineBreaks(event.value) && IsStripped(event.value))
    && OnlyNewlineBreaks(data) && !EndsWithNewline(data)
    && (forall k :: 0 <= k < |SplitLines(data)| ==> IsStripped(SplitLines(data)[k]))
  }

  lemma MessageParsesToBlock(data: string, event: Option<string>, id: Option<string>, retryMs: Option<int>)
    requires id.Some? ==> NoLineBreaks(id.value)
    requires event.Some? ==> NoLineBreaks(event.value)
    ensures Parse(Message(data, event, id, retryMs)) == [BlockEvent(FieldLines(data, event, id, retryMs))]
  {
    var f := FieldLines(data, event, id, retryMs);
    MessageLines(data, event, id, retryMs);
    FieldLinesWellFormed(data, event, id, retryMs);
    assert f + [""] == f + [""] + [];
    ParseBlock(f, [], Fresh);
    FeedFresh(f);
  }

  /**
   * Round trip: decoding an encoded message yields the one tuple
   * `(event, id, data)`, the event being omitted when it is empty.
   */
  lemma RoundTrip(data: string, event: Option<string>, id: Option<string>, retryMs: Option<int>)
    requires RoundTrips(data, event, id)
    ensures Parse(Message(data, event, id, retryMs)) == [Event(if HasEvent(event) then event else None, id, data)]
  {
    MessageParsesToBlock(data, event, id, retryMs);
    var p := PayloadLines(data);
    assert forall k :: 0 <= k < |p| ==> IsStripped(p[k]);
    LinesOfEvent(p, event, id, retryMs);
    PayloadRejoined(data);
  }

  /** A heartbeat decodes to one tuple with no event, no id and empty data. */
  lemma HeartbeatParse()
    ensures Parse(Heartbeat) == [Event(None, None, "")]
  {
    HeartbeatLines();
    assert [":", ""][1..] == [""];
    assert Step(Fresh, ":") == Fresh;
  }

  // ---------------------------------------------------------------------
  // Framing a received buffer at "\n\n"
  // ---------------------------------------------------------------------

  predicate BlankAt(s: string, i: int) {
    0 <= i && i + 1 < |s| && s[i] == '\n' && s[i + 1] == '\n'
  }

  /** `"\n\n" not in s`. */
  predicate NoBlank(s: string) {
    forall i :: 0 <= i < |s| - 1 ==> !(s[i] == '\n' && s[i + 1] == '\n')
  }

  /** The index of the first `"\n\n"` in `s`, if any. */
  function FindBlank(s: string): (r: Option<nat>)
    ensures r.None? <==> NoBlank(s)
    ensures r.Some? ==> BlankAt(s, r.value) && NoBlank(s[..r.value + 1])
  {
    if |s| < 2 then None
    else if s[0] == '\n' && s[1] == '\n' then Some(0)
    else match FindBlank(s[1..])
      case None => None
      case Some(j) =>
        assert s[..j + 2] == [s[0]] + s[1..][..j + 1];
        Some(j + 1)
  }

  /** Each block followed by the `"\n\n"` that ended it. */
  function Reframed(blocks: seq<string>): string {
    if blocks == [] then [] else blocks[0] + "\n\n" + Reframed(blocks[1..])
  }

  /** A block as framing cuts it: neither it nor it plus one `'\n'` contains `"\n\n"`. */
  predicate IsFrameBlock(b: string) {
    NoBlank(b + "\n")
  }

  /**
   * The blocks cut off by repeated `buf.split("\n\n", 1)` while
   * `"\n\n" in buf`, and the remaining buffer.
   */
  function Frames(buf: string): (r: (seq<string>, string))
    decreases |buf|
  {
    match FindBlank(buf)
    case None => ([], buf)
    case Some(i) =>
      var t := Frames(buf[i + 2..]);
      ([buf[..i]] + t.0, t.1)
  }

  /** Framing loses nothing: the remainder holds no `"\n\n"`, and the blocks, each followed by `"\n\n"`, then the remainder, are the input. */
  lemma {:induction false} FramesFacts(buf: string)
    ensures var r := Frames(buf);
      && NoBlank(r.1)
      && Reframed(r.0) + r.1 == buf
      && forall k :: 0 <= k < |r.0| ==> IsFrameBlock(r.0[k])
    decreases |buf|
  {
    match FindBlank(buf)
    case None =>
    case Some(i) =>
      var t := Frames(buf[i + 2..]);
      FramesFacts(buf[i + 2..]);
      FrameCons(buf, i, t.0, t.1);
  }

  /** Cutting the first block off keeps the three properties of framing. */
  lemma FrameCons(buf: string, i: nat, blocks: seq<string>, rest: string)
    requires BlankAt(buf, i) && NoBlank(buf[..i + 1])
    requires Reframed(blocks) + rest == buf[i + 2..]
    requires forall k :: 0 <= k < |blocks| ==> IsFrameBlock(blocks[k])
    ensures Reframed([buf[..i]] + blocks) + rest == buf
    ensures forall k :: 0 <= k < |[buf[..i]] + blocks| ==> IsFrameBlock(([buf[..i]] + blocks)[k])
  {
    var all := [buf[..i]] + blocks;
    assert all[0] == buf[..i] && all[1..] == blocks;
    assert buf[..i] + "\n" == buf[..i + 1];
    assert buf == buf[..i] + "\n\n" + buf[i + 2..];
    forall k | 0 <= k < |all| ensures IsFrameBlock(all[k]) {
      if k > 0 { assert all[k] == blocks[k - 1]; }
    }
  }

  /** The framing loop at dev_tools/sse_benchmark.py:67-68, collecting the blocks it cuts. */
  method FrameBuffer(buf: string) returns (blocks: seq<string>, rest: string)
    ensures (blocks, rest) == Frames(buf)
  {
    blocks, rest := [], buf;
    assert blocks + Frames(rest).0 == Frames(rest).0;
    while FindBlank(rest).Some?
      invariant Frames(buf) == (blocks + Frames(rest).0, Frames(rest).1)
      decreases |rest|
    {
      var i := FindBlank(rest).value;
      FramesStep(rest);
      assert blocks + ([rest[..i]] + Frames(rest[i + 2..]).0) == (blocks + [rest[..i]]) + Frames(rest[i + 2..]).0;
      blocks, rest := blocks + [rest[..i]], rest[i + 2..];
    }
    assert Frames(rest) == ([], rest);
    assert blocks + [] == blocks;
  }

  /** One turn of the framing loop: the block before the first `"\n\n"` is cut off and framing goes on after it. */
  lemma FramesStep(rest: string)
    requires FindBlank(rest).Some?
    ensures var i := FindBlank(rest).value;
      Frames(rest) == ([rest[..i]] + Frames(rest[i + 2..]).0, Frames(rest[i + 2..]).1)
  {
  }

  lemma BlankBefore(block: string, tail: string)
    requires IsFrameBlock(block)
    ensures FindBlank(block + "\n\n" + tail) == Some(|block|)
  {
    var s := block + "\n\n" + tail;
    assert BlankAt(s, |block|);
    assert s[..|block| + 1] == block + "\n";
  }

  /** A frame block followed by `"\n\n"` is the first block framing cuts. */
  lemma FramesOfCons(block: string, tail: string)
    requires IsFrameBlock(block)
    ensures Frames(block + "\n\n" + tail) == ([block] + Frames(tail).0, Frames(tail).1)
  {
    var buf := block + "\n\n" + tail;
    BlankBefore(block, tail);
    assert buf[..|block|] == block;
    assert buf[|block| + 2..] == tail;
  }

  /** Framing is the only decomposition of a buffer into frame blocks and a remainder without `"\n\n"`. */
  lemma {:induction false} FramesUnique(blocks: seq<string>, rest: string)
    requires forall k :: 0 <= k < |blocks| ==> IsFrameBlock(blocks[k])
    requires NoBlank(rest)
    ensures Frames(Reframed(blocks) + rest) == (blocks, rest)
  {
    if blocks == [] {
      assert Reframed(blocks) + rest == rest;
    } else {
      var tail := Reframed(blocks[1..]) + rest;
      assert Reframed(blocks) + rest == blocks[0] + "\n\n" + tail;
      FramesOfCons(blocks[0], tail);
      assert forall k :: 0 <= k < |blocks[1..]| ==> IsFrameBlock(blocks[1..][k]) by {
        forall k | 0 <= k < |blocks[1..]| ensures IsFrameBlock(blocks[1..][k]) {
          assert blocks[1..][k] == blocks[k + 1];
        }
      }
      FramesUnique(blocks[1..], rest);
      assert [blocks[0]] + blocks[1..] == blocks;
    }
  }

  lemma FrameBlocksAppend(a: seq<string>, b: seq<string>)
    requires forall k :: 0 <= k < |a| ==> IsFrameBlock(a[k])
    requires forall k :: 0 <= k < |b| ==> IsFrameBlock(b[k])
    ensures forall k :: 0 <= k < |a + b| ==> IsFrameBlock((a + b)[k])
  {
    forall k | 0 <= k < |a + b| ensures IsFrameBlock((a + b)[k]) {
      if k < |a| { assert (a + b)[k] == a[k]; } else { assert (a + b)[k] == b[k - |a|]; }
    }
  }

  lemma {:induction false} ReframedAppend(a: seq<string>, b: seq<string>)
    ensures Reframed(a + b) == Reframed(a) + Reframed(b)
  {
    if a != [] {
      assert (a + b)[0] == a[0] && (a + b)[1..] == a[1..] + b;
      ReframedAppend(a[1..], b);
    } else {
      assert a + b == b;
    }
  }

  lemma Regroup(a: string, rest: string, b: string, rest2: string, chunk: string)
    requires b + rest2 == rest + chunk
    ensures (a + b) + rest2 == (a + rest) + chunk
  {
    calc {
      (a + b) + rest2;
      a + (b + rest2);
      a + (rest + chunk);
    }
  }

  /**
   * Reading chunk by chunk frames the same blocks as reading everything at
   * once: framing the remainder with the next chunk appended continues the
   * framing of the whole.
   */
  lemma FramesChunks(buf: string, chunk: string)
    ensures var f := Frames(buf); var g := Frames(f.1 + chunk);
      Frames(buf + chunk) == (f.0 + g.0, g.1)
  {
    var f := Frames(buf);
    var g := Frames(f.1 + chunk);
    FramesFacts(buf);
    FramesFacts(f.1 + chunk);
    ReframedAppend(f.0, g.0);
    Regroup(Reframed(f.0), f.1, Reframed(g.0), g.1, chunk);
    FrameBlocksAppend(f.0, g.0);
    FramesUnique(f.0 + g.0, g.1);
  }

  // ---------------------------------------------------------------------
  // The client reading a whole stream, as written and as intended
  // ---------------------------------------------------------------------

  /** The lines of a text made of non-empty lines without `'\n'`, each ended by `'\n'`, hold no `"\n\n"`. */
  lemma {:induction false} TerminatedNoBlank(lines: seq<string>)
    requires WellFormedLines(lines)
    ensures NoBlank(Terminated(lines))
    ensures Terminated(lines) == [] || Terminated(lines)[0] != '\n'
  {
    if lines != [] {
      var l, rest := lines[0], Terminated(lines[1..]);
      assert WellFormedLines(lines[1..]) by {
        forall k | 0 <= k < |lines[1..]| ensures lines[1..][k] != [] && NoLineBreaks(lines[1..][k]) {
          assert lines[1..][k] == lines[k + 1];
        }
      }
      TerminatedNoBlank(lines[1..]);
      var t := l + "\n" + rest;
      assert Terminated(lines) == t;
      assert l != [] && NoLineBreaks(l);
      assert !IsLineBreak(l[0]);
      forall i | 0 <= i < |t| - 1 ensures !(t[i] == '\n' && t[i + 1] == '\n') {
        if i < |l| {
          assert t[i] == l[i];
          assert !IsLineBreak(l[i]);
        } else if i == |l| {
          assert t[i + 1] == rest[0];
        } else {
          assert t[i] == rest[i - |l| - 1] && t[i + 1] == rest[i - |l|];
        }
      }
    }
  }

  /** What framing cuts out of an encoded frame. */
  function Block(f: Frame): string {
    match f
    case Data(data, event, id, retryMs) => Join("\n", FieldLines(data, event, id, retryMs))
    case Beat => ":"
  }

  /** A frame whose `id` and `event` hold no line break: every line written is a whole field line. */
  predicate Sendable(f: Frame) {
    f.Data? ==> (f.id.Some? ==> NoLineBreaks(f.id.value)) && (f.event.Some? ==> NoLineBreaks(f.event.value))
  }

  /** An encoded frame is its block followed by `"\n\n"`, and the block is one framing cuts whole. */
  lemma EncodeFramed(f: Frame)
    requires Sendable(f)
    ensures IsFrameBlock(Block(f)) && Encode(f) == Block(f) + "\n\n"
  {
    if f.Data? {
      var ls := FieldLines(f.data, f.event, f.id, f.retryMs);
      FieldLinesWellFormed(f.data, f.event, f.id, f.retryMs);
      MessageTerminated(f.data, f.event, f.id, f.retryMs);
      assert ls != [];
      JoinTerminated(ls);
      TerminatedNoBlank(ls);
    } else {
      assert Block(f) + "\n" == ":\n";
    }
  }

  function Blocks(fs: seq<Frame>): (r: seq<string>)
    ensures |r| == |fs|
  {
    if fs == [] then [] else [Block(fs[0])] + Blocks(fs[1..])
  }

  /** Framing a stream of frames cuts exactly one block per frame and leaves nothing. */
  lemma {:induction false} FramesOfStream(fs: seq<Frame>)
    requires forall k :: 0 <= k < |fs| ==> Sendable(fs[k])
    ensures Frames(EncodeAll(fs)) == (Blocks(fs), "")
  {
    StreamReframed(fs);
    assert Reframed(Blocks(fs)) + "" == EncodeAll(fs);
    FramesUnique(Blocks(fs), "");
  }

  lemma {:induction false} StreamReframed(fs: seq<Frame>)
    requires forall k :: 0 <= k < |fs| ==> Sendable(fs[k])
    ensures Reframed(Blocks(fs)) == EncodeAll(fs)
    ensures forall k :: 0 <= k < |fs| ==> IsFrameBlock(Blocks(fs)[k])
  {
    if fs != [] {
      EncodeFramed(fs[0]);
      assert forall k :: 0 <= k < |fs[1..]| ==> Sendable(fs[1..][k]) by {
        forall k | 0 <= k < |fs[1..]| ensures Sendable(fs[1..][k]) {
          assert fs[1..][k] == fs[k + 1];
        }
      }
      StreamReframed(fs[1..]);
      var b := Blocks(fs);
      assert b[0] == Block(fs[0]) && b[1..] == Blocks(fs[1..]);
      forall k | 0 <= k < |fs| ensures IsFrameBlock(b[k]) {
        if k > 0 { assert b[k] == Blocks(fs[1..])[k - 1]; }
      }
    }
  }

  /** The events the client counts for the blocks it cut, each block parsed with `suffix` appended. */
  function ParseEach(blocks: seq<string>, suffix: string): seq<Event> {
    if blocks == [] then [] else Parse(blocks[0] + suffix) + ParseEach(blocks[1..], suffix)
  }

  /** As written (dev_tools/sse_benchmark.py:69): a block plus one `'\n'` has no empty line, so it yields nothing. */
  lemma BlockAsWritten(f: Frame)
    requires Sendable(f)
    ensures Parse(Block(f) + "\n") == []
  {
    if f.Data? {
      var ls := FieldLines(f.data, f.event, f.id, f.retryMs);
      FieldLinesWellFormed(f.data, f.event, f.id, f.retryMs);
      assert ls != [];
      JoinTerminated(ls);
      SplitTerminated(ls);
      ParseTrailing(ls, Fresh);
    } else {
      assert ":\n" == Terminated([":"]);
      SplitTerminated([":"]);
    }
  }

  /** The tuple a frame should be counted as. */
  function Expected(f: Frame): Event {
    match f
    case Data(data, event, id, _) => Event(if HasEvent(event) then event else None, id, data)
    case Beat => Event(None, None, "")
  }

  predicate ReadsBack(f: Frame) {
    f.Data? ==> RoundTrips(f.data, f.event, f.id)
  }

  lemma ReadsBackSendable(f: Frame)
    requires ReadsBack(f)
    ensures Sendable(f)
  {
  }

  /** Corrected: a block with its `"\n\n"` restored yields the one tuple that was sent. */
  lemma BlockCorrected(f: Frame)
    requires ReadsBack(f)
    ensures Parse(Block(f) + "\n\n") == [Expected(f)]
  {
    EncodeFramed(f);
    if f.Data? {
      RoundTrip(f.data, f.event, f.id, f.retryMs);
    } else {
      HeartbeatParse();
    }
  }

  /** As written, the client counts no event at all for a stream whose ids and event names have no line breaks. */
  lemma {:induction false} StreamAsWritten(fs: seq<Frame>)
    requires forall k :: 0 <= k < |fs| ==> Sendable(fs[k])
    ensures ParseEach(Frames(EncodeAll(fs)).0, "\n") == []
  {
    FramesOfStream(fs);
    NothingCounted(fs);
  }

  /** An event name holding `"\n\n"`, as a published `type` may: framing splits its message in two. */
  const BrokenName: string := "e" + "\n\n"
  const BrokenData: string := "x"

  /** The message for `BrokenName`: the event line, then the `"\n\n"` inside it, then the data line. */
  lemma BrokenText()
    ensures Encode(Data(BrokenData, Some(BrokenName), None, None))
      == ("event: " + "e") + "\n\n" + (("\n" + ("data: " + BrokenData)) + "\n\n" + "")
  {
    var head, dl := "event: " + "e", "data: " + BrokenData;
    SplitLinesSingle(BrokenData);
    assert PayloadLines(BrokenData) == [BrokenData];
    var p := Prefixed("data: ", [BrokenData]);
    assert |p| == 1 && p[0] == dl;
    assert p == [dl];
    assert "event: " + BrokenName == head + "\n\n";
    assert EventPart(Some(BrokenName)) == [head + "\n\n"];
    var lines := FieldLines(BrokenData, Some(BrokenName), None, None);
    assert lines == [head + "\n\n"] + [dl];
    BrokenJoin(head + "\n\n", dl);
  }

  lemma BrokenJoin(a: string, b: string)
    ensures Join("\n", [a] + [b] + [""]) + "\n" == a + "\n" + (b + "\n" + "") + "\n"
  {
    var parts := [a] + [b] + [""];
    assert parts == [a, b, ""];
    assert parts[1..] == [b, ""];
    assert [b, ""][1..] == [""];
    assert Join("\n", [""]) == "";
    assert Join("\n", [b, ""]) == b + "\n" + "";
    assert Join("\n", parts) == a + "\n" + Join("\n", [b, ""]);
  }

  lemma BrokenBlocksClean()
    ensures IsFrameBlock("event: " + "e")
    ensures IsFrameBlock("\n" + ("data: " + BrokenData))
  {
  }

  /** Framing cuts the message for `BrokenName` into two blocks. */
  lemma BrokenFrames()
    ensures Frames(Encode(Data(BrokenData, Some(BrokenName), None, None))).0
      == ["event: " + "e", "\n" + ("data: " + BrokenData)]
  {
    var head, tail := "event: " + "e", "\n" + ("data: " + BrokenData);
    BrokenText();
    BrokenBlocksClean();
    FramesOfCons(tail, "");
    assert Frames("") == ([], "");
    FramesOfCons(head, tail + "\n\n" + "");
  }

  /** The second block, which starts with an empty line, parses to one empty event. */
  lemma BrokenTailParses()
    ensures Parse("\n" + ("data: " + BrokenData) + "\n") == [Event(None, None, "")]
  {
    var dl := "data: " + BrokenData;
    assert Terminated([dl]) == dl + "\n";
    assert ["", dl][1..] == [dl];
    assert Terminated(["", dl]) == "\n" + (dl + "\n");
    assert NoLineBreaks(dl) && NoLineBreaks("");
    SplitTerminated(["", dl]);
    assert "\n" + dl + "\n" == "\n" + (dl + "\n");
    ParseTrailing([dl], Fresh);
    assert ParseFrom(["", dl], Fresh) == [Yielded(Fresh)] + ParseFrom([dl], Fresh);
  }

  /** The first block, the event line alone, yields nothing. */
  lemma BrokenHeadParses()
    ensures Parse(("event: " + "e") + "\n") == []
  {
    var head := "event: " + "e";
    assert Terminated([head]) == head + "\n";
    SplitTerminated([head]);
    ParseTrailing([head], Fresh);
  }

  /**
   * As written, a message whose event name holds `"\n\n"` is counted: its
   * second piece starts with an empty line, which yields `(None, None, "")`.
   */
  lemma BrokenNameCounted()
    ensures var f := Data(BrokenData, Some(BrokenName), None, None);
      && !Sendable(f)
      && ParseEach(Frames(Encode(f)).0, "\n") == [Event(None, None, "")]
  {
    assert IsLineBreak(BrokenName[1]);
    var head, tail := "event: " + "e", "\n" + ("data: " + BrokenData);
    BrokenFrames();
    BrokenHeadParses();
    BrokenTailParses();
    var blocks := [head, tail];
    assert blocks[1..] == [tail];
    assert ParseEach([tail], "\n") == Parse(tail + "\n") + ParseEach([], "\n");
    assert ParseEach(blocks, "\n") == Parse(head + "\n") + ParseEach([tail], "\n");
  }

  lemma {:induction false} NothingCounted(fs: seq<Frame>)
    requires forall k :: 0 <= k < |fs| ==> Sendable(fs[k])
    ensures ParseEach(Blocks(fs), "\n") == []
  {
    if fs != [] {
      BlockAsWritten(fs[0]);
      assert Blocks(fs)[1..] == Blocks(fs[1..]);
      assert forall k :: 0 <= k < |fs[1..]| ==> Sendable(fs[1..][k]) by {
        forall k | 0 <= k < |fs[1..]| ensures Sendable(fs[1..][k]) {
          assert fs[1..][k] == fs[k + 1];
        }
      }
      NothingCounted(fs[1..]);
    }
  }

  function ExpectedAll(fs: seq<Frame>): (r: seq<Event>)
    ensures |r| == |fs|
  {
    if fs == [] then [] else [Expected(fs[0])] + ExpectedAll(fs[1..])
  }

  /** Corrected, the client reads back one tuple per frame sent, in order. */
  lemma {:induction false} StreamCorrected(fs: seq<Frame>)
    requires forall k :: 0 <= k < |fs| ==> ReadsBack(fs[k])
    ensures ParseEach(Frames(EncodeAll(fs)).0, "\n\n") == ExpectedAll(fs)
  {
    forall k | 0 <= k < |fs| ensures Sendable(fs[k]) {
      ReadsBackSendable(fs[k]);
    }
    FramesOfStream(fs);
    AllCounted(fs);
  }

  lemma {:induction false} AllCounted(fs: seq<Frame>)
    requires forall k :: 0 <= k < |fs| ==> ReadsBack(fs[k])
    ensures ParseEach(Blocks(fs), "\n\n") == ExpectedAll(fs)
  {
    if fs != [] {
      BlockCorrected(fs[0]);
      assert Blocks(fs)[1..] == Blocks(fs[1..]);
      assert forall k :: 0 <= k < |fs[1..]| ==> ReadsBack(fs[1..][k]) by {
        forall k | 0 <= k < |fs[1..]| ensures ReadsBack(fs[1..][k]) {
          assert fs[1..][k] == fs[k + 1];
        }
      }
      AllCounted(fs[1..]);
    }
  }

  /** The stream's first message, the ready message, is not counted as written and is counted once corrected. */
  lemma ReadyMessageMissed()
    ensures var f := Data(ReadyData, Some(ReadyEvent), None, Some(1500));
      && Parse(Block(f) + "\n") == []
      && Parse(Block(f) + "\n\n") == [Event(Some(ReadyEvent), None, ReadyData)]
  {
    var f := Data(ReadyData, Some(ReadyEvent), None, Some(1500));
    ReadyReadsBack();
    BlockAsWritten(f);
    BlockCorrected(f);
  }

  lemma ReadyReadsBack()
    ensures ReadsBack(Data(ReadyData, Some(ReadyEvent), None, Some(1500)))
  {
    ReadyEventIsClean();
    ReadyDataIsClean();
    SplitLinesSingle(ReadyData);
  }

}
