/**
 * The event-stream encoder of the stream session (`_format_sse` and
 * `_heartbeat`): one message is a block of `field: value` lines closed by an
 * empty line, in the text/event-stream format of section 9.2 of the WHATWG
 * HTML Living Standard.
 */
module SseWire {
  import opened Wrappers
  import opened PyStr

  /** Python's `if event:` on an optional string: present and non-empty. */
  predicate HasEvent(event: Option<string>) {
    event.Some? && event.value != ""
  }

  /** The lines of the payload: `data.splitlines() or [""]`. */
  function PayloadLines(data: string): (r: seq<string>)
    ensures r != []
  {
    if SplitLines(data) == [] then [""] else SplitLines(data)
  }

  /** `seq` of `prefix + l` for each `l` of `ls`. */
  function Prefixed(prefix: string, ls: seq<string>): (r: seq<string>)
    ensures |r| == |ls|
    ensures forall k :: 0 <= k < |ls| ==> r[k] == prefix + ls[k]
  {
    if ls == [] then [] else [prefix + ls[0]] + Prefixed(prefix, ls[1..])
  }

  lemma {:induction false} PrefixedSnoc(prefix: string, ls: seq<string>, x: string)
    ensures Prefixed(prefix, ls + [x]) == Prefixed(prefix, ls) + [prefix + x]
  {
    if ls != [] {
      assert (ls + [x])[1..] == ls[1..] + [x];
      PrefixedSnoc(prefix, ls[1..], x);
    }
  }

  /** The lines of one message before its closing empty line, in the order written. */
  function FieldLines(data: string, event: Option<string>, id: Option<string>, retryMs: Option<int>): seq<string>
  {
    LinesOf(PayloadLines(data), event, id, retryMs)
  }

  /** The field lines for a payload already split into lines. */
  function LinesOf(payload: seq<string>, event: Option<string>, id: Option<string>, retryMs: Option<int>): seq<string>
  {
    IdPart(id) + RetryPart(retryMs) + EventPart(event) + Prefixed("data: ", payload)
  }

  /** The text `_format_sse` returns: the field lines and an empty line, joined by `'\n'`, plus a final `'\n'`. */
  function Message(data: string, event: Option<string>, id: Option<string>, retryMs: Option<int>): string
  {
    Join("\n", FieldLines(data, event, id, retryMs) + [""]) + "\n"
  }

  /** `_heartbeat()`: a comment line and the empty line that ends it. */
  const Heartbeat: string := ":\n\n"

  /** One unit the stream sends: a `_format_sse` message or a heartbeat. */
  datatype Frame = Data(data: string, event: Option<string>, id: Option<string>, retryMs: Option<int>) | Beat

  function Encode(f: Frame): string {
    match f
    case Data(data, event, id, retryMs) => Message(data, event, id, retryMs)
    case Beat => Heartbeat
  }

  /** The text of a stream that sends `fs` in order. */
  function EncodeAll(fs: seq<Frame>): string {
    if fs == [] then [] else Encode(fs[0]) + EncodeAll(fs[1..])
  }

  /** `_format_sse`: collects the lines in a list, one `data: ` line per payload line, then joins them. */
  method FormatSse(data: string, event: Option<string>, id: Option<string>, retryMs: Option<int>)
    returns (text: string)
    ensures text == Message(data, event, id, retryMs)
  {
    // the three optional header lines, in the order the source tests them
    var lines := IdPart(id) + RetryPart(retryMs) + EventPart(event);
    var payload := SplitLines(data);
    if payload == [] {
      payload := [""];
    }
    ghost var header := lines;
    var k := 0;
    while k < |payload|
      invariant 0 <= k <= |payload|
      invariant lines == header + Prefixed("data: ", payload[..k])
    {
      assert payload[..k + 1] == payload[..k] + [payload[k]];
      PrefixedSnoc("data: ", payload[..k], payload[k]);
      lines := lines + ["data: " + payload[k]];
      k := k + 1;
    }
    assert payload[..k] == payload;
    ghost var fields := lines;
    lines := lines + [""];
    text := Join("\n", lines) + "\n";
    MessageOfLines(data, event, id, retryMs, payload, fields);
  }

  lemma MessageOfLines(data: string, event: Option<string>, id: Option<string>, retryMs: Option<int>,
                       payload: seq<string>, fields: seq<string>)
    requires payload == PayloadLines(data)
    requires fields == IdPart(id) + RetryPart(retryMs) + EventPart(event) + Prefixed("data: ", payload)
    ensures Join("\n", fields + [""]) + "\n" == Message(data, event, id, retryMs)
  {
  }

  // ---------------------------------------------------------------------
  // What a message contains
  // ---------------------------------------------------------------------

  /** The values of the lines of `ls` that start with `prefix`, in order. */
  function Fields(ls: seq<string>, prefix: string): seq<string>
  {
    if ls == [] then []
    else (if prefix <= ls[0] then [ls[0][|prefix|..]] else []) + Fields(ls[1..], prefix)
  }

  lemma {:induction false} FieldsAppend(a: seq<string>, b: seq<string>, prefix: string)
    ensures Fields(a + b, prefix) == Fields(a, prefix) + Fields(b, prefix)
  {
    if a != [] {
      assert (a + b)[0] == a[0] && (a + b)[1..] == a[1..] + b;
      FieldsAppend(a[1..], b, prefix);
    } else {
      assert a + b == b;
    }
  }

  lemma {:induction false} FieldsPrefixed(p: string, ls: seq<string>, prefix: string)
    requires p == prefix
    ensures Fields(Prefixed(p, ls), prefix) == ls
  {
    if ls != [] {
      assert Prefixed(p, ls)[1..] == Prefixed(p, ls[1..]);
      assert (p + ls[0])[|prefix|..] == ls[0];
      FieldsPrefixed(p, ls[1..], prefix);
    }
  }

  lemma {:induction false} FieldsPrefixedOther(p: string, ls: seq<string>, prefix: string)
    requires p != [] && prefix != [] && p[0] != prefix[0]
    ensures Fields(Prefixed(p, ls), prefix) == []
  {
    if ls != [] {
      assert Prefixed(p, ls)[1..] == Prefixed(p, ls[1..]);
      assert (p + ls[0])[0] == p[0];
      FieldsPrefixedOther(p, ls[1..], prefix);
    }
  }

  lemma FieldsSingle(line: string, prefix: string)
    ensures Fields([line], prefix) == if prefix <= line then [line[|prefix|..]] else []
  {
    assert [line][1..] == [];
  }

  /** The four parts of the field lines, in the order `_format_sse` writes them. */
  function IdPart(id: Option<string>): seq<string> {
    if id.Some? then ["id: " + id.value] else []
  }

  function RetryPart(retryMs: Option<int>): seq<string> {
    if retryMs.Some? then ["retry: " + IntToString(retryMs.value)] else []
  }

  function EventPart(event: Option<string>): seq<string> {
    if HasEvent(event) then ["event: " + event.value] else []
  }

  lemma FieldsOfParts(payload: seq<string>, event: Option<string>, id: Option<string>, retryMs: Option<int>, prefix: string)
    ensures Fields(LinesOf(payload, event, id, retryMs), prefix)
      == Fields(IdPart(id), prefix) + Fields(RetryPart(retryMs), prefix) + Fields(EventPart(event), prefix)
         + Fields(Prefixed("data: ", payload), prefix)
  {
    var i, r, e, d := IdPart(id), RetryPart(retryMs), EventPart(event), Prefixed("data: ", payload);
    FieldsAppend(i + r + e, d, prefix);
    FieldsAppend(i + r, e, prefix);
    FieldsAppend(i, r, prefix);
  }

  lemma FieldsSingleOther(line: string, prefix: string)
    requires line != [] && prefix != [] && line[0] != prefix[0]
    ensures Fields([line], prefix) == []
  {
    FieldsSingle(line, prefix);
  }

  lemma FieldsOfIdPart(id: Option<string>)
    ensures Fields(IdPart(id), "id: ") == (if id.Some? then [id.value] else [])
    ensures Fields(IdPart(id), "retry: ") == [] && Fields(IdPart(id), "event: ") == [] && Fields(IdPart(id), "data: ") == []
  {
    if id.Some? {
      var l := "id: " + id.value;
      assert l[0] == 'i';
      FieldsSingle(l, "id: ");
      assert l[|"id: "|..] == id.value;
      FieldsSingleOther(l, "retry: ");
      FieldsSingleOther(l, "event: ");
      FieldsSingleOther(l, "data: ");
    }
  }

  lemma FieldsOfRetryPart(retryMs: Option<int>)
    ensures Fields(RetryPart(retryMs), "retry: ") == (if retryMs.Some? then [IntToString(retryMs.value)] else [])
    ensures Fields(RetryPart(retryMs), "id: ") == [] && Fields(RetryPart(retryMs), "event: ") == [] && Fields(RetryPart(retryMs), "data: ") == []
  {
    if retryMs.Some? {
      var l := "retry: " + IntToString(retryMs.value);
      assert l[0] == 'r';
      FieldsSingle(l, "retry: ");
      assert l[|"retry: "|..] == IntToString(retryMs.value);
      FieldsSingleOther(l, "id: ");
      FieldsSingleOther(l, "event: ");
      FieldsSingleOther(l, "data: ");
    }
  }

  lemma FieldsOfEventPart(event: Option<string>)
    ensures Fields(EventPart(event), "event: ") == (if HasEvent(event) then [event.value] else [])
    ensures Fields(EventPart(event), "id: ") == [] && Fields(EventPart(event), "retry: ") == [] && Fields(EventPart(event), "data: ") == []
  {
    if HasEvent(event) {
      var l := "event: " + event.value;
      assert l[0] == 'e';
      FieldsSingle(l, "event: ");
      assert l[|"event: "|..] == event.value;
      FieldsSingleOther(l, "id: ");
      FieldsSingleOther(l, "retry: ");
      FieldsSingleOther(l, "data: ");
    }
  }

  lemma LinesOfIdField(payload: seq<string>, event: Option<string>, id: Option<string>, retryMs: Option<int>)
    ensures Fields(LinesOf(payload, event, id, retryMs), "id: ") == (if id.Some? then [id.value] else [])
  {
    FieldsOfIdPart(id);
    FieldsOfRetryPart(retryMs);
    FieldsOfEventPart(event);
    FieldsOfParts(payload, event, id, retryMs, "id: ");
    FieldsPrefixedOther("data: ", payload, "id: ");
  }

  lemma LinesOfRetryField(payload: seq<string>, event: Option<string>, id: Option<string>, retryMs: Option<int>)
    ensures Fields(LinesOf(payload, event, id, retryMs), "retry: ") == (if retryMs.Some? then [IntToString(retryMs.value)] else [])
  {
    FieldsOfIdPart(id);
    FieldsOfRetryPart(retryMs);
    FieldsOfEventPart(event);
    FieldsOfParts(payload, event, id, retryMs, "retry: ");
    FieldsPrefixedOther("data: ", payload, "retry: ");
  }

  lemma LinesOfEventField(payload: seq<string>, event: Option<string>, id: Option<string>, retryMs: Option<int>)
    ensures Fields(LinesOf(payload, event, id, retryMs), "event: ") == (if HasEvent(event) then [event.value] else [])
  {
    FieldsOfIdPart(id);
    FieldsOfRetryPart(retryMs);
    FieldsOfEventPart(event);
    FieldsOfParts(payload, event, id, retryMs, "event: ");
    FieldsPrefixedOther("data: ", payload, "event: ");
  }

  lemma LinesOfDataField(payload: seq<string>, event: Option<string>, id: Option<string>, retryMs: Option<int>)
    ensures Fields(LinesOf(payload, event, id, retryMs), "data: ") == payload
  {
    FieldsOfIdPart(id);
    FieldsOfRetryPart(retryMs);
    FieldsOfEventPart(event);
    FieldsOfParts(payload, event, id, retryMs, "data: ");
    FieldsPrefixed("data: ", payload, "data: ");
  }

  /**
   * The fields of a message: an `id` line exactly when `id` is given, a
   * `retry` line exactly when `retryMs` is given, an `event` line exactly
   * when `event` is non-empty, and one `data` line per payload line, in
   * order (a single empty one for an empty payload).
   */
  lemma MessageFields(data: string, event: Option<string>, id: Option<string>, retryMs: Option<int>)
    ensures Fields(FieldLines(data, event, id, retryMs), "id: ") == (if id.Some? then [id.value] else [])
    ensures Fields(FieldLines(data, event, id, retryMs), "retry: ") == (if retryMs.Some? then [IntToString(retryMs.value)] else [])
    ensures Fields(FieldLines(data, event, id, retryMs), "event: ") == (if HasEvent(event) then [event.value] else [])
    ensures Fields(FieldLines(data, event, id, retryMs), "data: ") == PayloadLines(data)
  {
    var p := PayloadLines(data);
    LinesOfIdField(p, event, id, retryMs);
    LinesOfRetryField(p, event, id, retryMs);
    LinesOfEventField(p, event, id, retryMs);
    LinesOfDataField(p, event, id, retryMs);
  }

  /** A message is its field lines, each ended by `'\n'`, then the empty line: it always ends in `"\n\n"`. */
  lemma MessageTerminated(data: string, event: Option<string>, id: Option<string>, retryMs: Option<int>)
    ensures Message(data, event, id, retryMs) == Terminated(FieldLines(data, event, id, retryMs)) + "\n"
    ensures Message(data, event, id, retryMs) == Join("\n", FieldLines(data, event, id, retryMs)) + "\n\n"
  {
    var f := FieldLines(data, event, id, retryMs);
    assert f != [];
    JoinAppendEmpty(f);
    JoinTerminated(f);
  }

  lemma {:induction false} JoinAppendEmpty(f: seq<string>)
    requires f != []
    ensures Join("\n", f + [""]) == Join("\n", f) + "\n"
  {
    if |f| == 1 {
      assert f + [""] == [f[0], ""];
      assert [f[0], ""][1..] == [""];
    } else {
      assert (f + [""])[1..] == f[1..] + [""];
      JoinAppendEmpty(f[1..]);
    }
  }

  /** Every line is non-empty and contains no line break. */
  predicate WellFormedLines(ls: seq<string>)
  {
    forall k :: 0 <= k < |ls| ==> ls[k] != [] && NoLineBreaks(ls[k])
  }

  lemma WellFormedAppend(a: seq<string>, b: seq<string>)
    requires WellFormedLines(a) && WellFormedLines(b)
    ensures WellFormedLines(a + b)
  {
    forall k | 0 <= k < |a + b|
      ensures (a + b)[k] != [] && NoLineBreaks((a + b)[k])
    {
      if k < |a| { assert (a + b)[k] == a[k]; } else { assert (a + b)[k] == b[k - |a|]; }
    }
  }

  lemma HeaderWellFormed(event: Option<string>, id: Option<string>, retryMs: Option<int>)
    requires id.Some? ==> NoLineBreaks(id.value)
    requires event.Some? ==> NoLineBreaks(event.value)
    ensures WellFormedLines(IdPart(id) + RetryPart(retryMs) + EventPart(event))
  {
    if id.Some? { NoLineBreaksConcat("id: ", id.value); }
    if retryMs.Some? {
      IntToStringNoBreaks(retryMs.value);
      NoLineBreaksConcat("retry: ", IntToString(retryMs.value));
    }
    if HasEvent(event) { NoLineBreaksConcat("event: ", event.value); }
    WellFormedAppend(IdPart(id), RetryPart(retryMs));
    WellFormedAppend(IdPart(id) + RetryPart(retryMs), EventPart(event));
  }

  lemma DataPrefixNoBreaks()
    ensures NoLineBreaks("data: ")
  {
    var p := "data: ";
    forall i | 0 <= i < |p|
      ensures !IsLineBreak(p[i])
    {
      assert p[i] in "dat: ";
    }
  }

  lemma DataWellFormed(payload: seq<string>)
    requires forall k :: 0 <= k < |payload| ==> NoLineBreaks(payload[k])
    ensures WellFormedLines(Prefixed("data: ", payload))
  {
    var d := Prefixed("data: ", payload);
    forall k | 0 <= k < |d|
      ensures d[k] != [] && NoLineBreaks(d[k])
    {
      DataPrefixNoBreaks();
      NoLineBreaksConcat("data: ", payload[k]);
    }
  }

  lemma LinesOfWellFormed(payload: seq<string>, event: Option<string>, id: Option<string>, retryMs: Option<int>)
    requires forall k :: 0 <= k < |payload| ==> NoLineBreaks(payload[k])
    requires id.Some? ==> NoLineBreaks(id.value)
    requires event.Some? ==> NoLineBreaks(event.value)
    ensures WellFormedLines(LinesOf(payload, event, id, retryMs))
  {
    HeaderWellFormed(event, id, retryMs);
    DataWellFormed(payload);
    WellFormedAppend(IdPart(id) + RetryPart(retryMs) + EventPart(event), Prefixed("data: ", payload));
  }

  /** Every line `_format_sse` writes is non-empty, and free of line breaks when `event` and `id` are. */
  lemma FieldLinesWellFormed(data: string, event: Option<string>, id: Option<string>, retryMs: Option<int>)
    requires id.Some? ==> NoLineBreaks(id.value)
    requires event.Some? ==> NoLineBreaks(event.value)
    ensures WellFormedLines(FieldLines(data, event, id, retryMs))
  {
    SplitLinesNoBreaks(data);
    LinesOfWellFormed(PayloadLines(data), event, id, retryMs);
  }

  /** Read back line by line, a message is its field lines followed by one empty line. */
  lemma MessageLines(data: string, event: Option<string>, id: Option<string>, retryMs: Option<int>)
    requires id.Some? ==> NoLineBreaks(id.value)
    requires event.Some? ==> NoLineBreaks(event.value)
    ensures SplitLines(Message(data, event, id, retryMs)) == FieldLines(data, event, id, retryMs) + [""]
  {
    var f := FieldLines(data, event, id, retryMs);
    MessageTerminated(data, event, id, retryMs);
    FieldLinesWellFormed(data, event, id, retryMs);
    assert Terminated(f + [""]) == Terminated(f) + "\n" by {
      TerminatedAppend(f, [""]);
      assert Terminated([""]) == "\n";
    }
    SplitTerminated(f + [""]);
  }

  lemma {:induction false} TerminatedAppend(a: seq<string>, b: seq<string>)
    ensures Terminated(a + b) == Terminated(a) + Terminated(b)
  {
    if a != [] {
      assert (a + b)[0] == a[0] && (a + b)[1..] == a[1..] + b;
      TerminatedAppend(a[1..], b);
    } else {
      assert a + b == b;
    }
  }

  /** The heartbeat read back line by line is one comment line and the empty line. */
  lemma HeartbeatLines()
    ensures SplitLines(Heartbeat) == [":", ""]
  {
    assert Heartbeat == Terminated([":", ""]);
    SplitTerminated([":", ""]);
  }

  // ---------------------------------------------------------------------
  // The ready message's words
  // ---------------------------------------------------------------------

  /** The event and data of the message that opens every stream. */
  const ReadyEvent: string := "ready"
  const ReadyData: string := "stream-open"

  lemma ReadyEventIsClean()
    ensures ReadyEvent != [] && NoLineBreaks(ReadyEvent) && IsStripped(ReadyEvent)
  {
    var e := ReadyEvent;
    forall i | 0 <= i < |e| ensures !IsLineBreak(e[i]) {
      assert e[i] in e;
    }
  }

  lemma ReadyDataIsClean()
    ensures ReadyData != [] && NoLineBreaks(ReadyData) && IsStripped(ReadyData)
    ensures OnlyNewlineBreaks(ReadyData) && !EndsWithNewline(ReadyData)
  {
    var d := ReadyData;
    forall i | 0 <= i < |d| ensures !IsLineBreak(d[i]) {
      assert d[i] in d;
    }
  }
}
