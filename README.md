# notify_service in Dafny

A model of the core of notify_service, a small server-sent-events
notification service. Internal publishers post an event for a user to
`POST /notify/publish`. The service stamps it with an id and a timestamp and
publishes it on the Redis channel `user:<id>`. Every stream session of that
user listens on the channel and forwards what it reads as a
`text/event-stream` message, with heartbeats in between. A load-test client
reads those messages back.

The model has one module per source file, two helper modules and one
end-to-end module:

- `Wrappers`: `Option` and `Result`.
- `PyStr`: the str builtins the code relies on. It covers `isspace`/`strip`,
  `splitlines` with Python's full set of line boundaries, `join`,
  `split(",")`, `startswith`/`removeprefix` and `str(int)`.
- `JsonValues`: JSON values, as the plain data the model needs. These are
  `null`, booleans, integers, strings, and any other value, given by its
  `str()` text and its truthiness.
- `Config` (app/core/config.py): the settings. They are the environment
  variables with their defaults, and the trusted-network allowlist parsed
  from a comma-separated string. `Settings` is a class whose constructor
  fills its fields.
- `JwtAuth` (app/auth/jwt_backend.py, app/auth/base.py): token extraction
  from the query or the `Authorization: Bearer` header, and the chain of 401
  answers. `JWTAuthBackend.Authenticate` is an imperative method proved
  against the function `AuthOutcome`. `jwt.decode` is an input.
- `Security` (app/core/security.py): `auth_required`, and the
  `internal_trusted` allowlist guard. Addresses are integers and networks
  are a base and a prefix length; the match is on the leading bits, as in
  section 3.1 of RFC 4632. `ipaddress` parsing is an input.
- `Schemas` (app/api/v1/schemas.py): validation of the publish request body
  and the envelope record.
- `PubSub` (app/services/pubsub.py): channel naming and what
  `publish_event` sends.
- `EventIds` (app/utils/ids.py): the event id, which is the decimal
  millisecond clock, a `-` and eight hex digits of a UUID.
- `Publish` (app/api/v1/routes/publish.py): the whole request. That is
  FastAPI's body parsing, the admission dependency and validation, then the
  handler's ordered calls on the broker, persistence and offline push. Each
  call is appended to a trace.
- `SseWire` (`_format_sse`, `_heartbeat` in app/services/sse_manager.py):
  the encoder. It follows the event-stream format of section 9.2 of the
  WHATWG HTML Living Standard.
- `SseDecode` (`parse_sse_block` and the `"\n\n"` buffer framing of
  dev_tools/sse_benchmark.py): the decoder, and how it reads back what the
  encoder writes.
- `SseSession` (`sse_event_stream` in app/services/sse_manager.py): the
  reader's decode policy and the drain loop. They form a state machine over
  integer time; broker items, the disconnect test and `json.loads` are
  inputs. `EventStream` is the generator written as a loop, proved against
  the state machine's run.
- `Delivery`: the path from publisher to subscriber. A published envelope
  reaches its user's session, and `parse_sse_block` parses it back as the
  envelope's type, id and JSON text.

Five behaviours of the code worth knowing; the model follows the code:

- The drain loop does not restart the heartbeat clock when it sends a
  message (app/services/sse_manager.py:79-82). A heartbeat is due
  `interval` after the previous heartbeat, whatever was sent in between.
- The queue is an unbounded `asyncio.Queue`; there is no capacity or
  overflow policy.
- The disconnect test comes first in each iteration, before the queue is
  read.
- The persistence and push calls are awaited directly, so an exception from
  either one ends the request with a 500. The model takes whether each call
  raises as an input, and a call that raises is the last one made.
- Bytes that are not valid UTF-8 make `data.decode()` raise outside the
  inner `try` (app/services/sse_manager.py:49-50). This ends the reader,
  which unsubscribes in its `finally`. The drain loop keeps sending
  heartbeats. As wired, app/main.py:14 builds the client with
  `decode_responses=True`, so broker data arrives as `str` and this branch
  is not reached. A decoding error would then come from the client library
  inside `listen()`, with the same effect: the reader ends and unsubscribes.

## Model

| member | source | states |
|---|---|---|
| Config.Settings.constructor | app/core/config.py:16-35 | each JWT and event-stream setting is its variable's value if set, else its default; the allowlist is the comma-separated entries of the raw string, stripped, blank ones dropped |
| Config.UnsetDefaults | app/core/config.py:16-25 | with nothing set: `HS256`, `dev-secret`, `sub`, 20 seconds, 1500 ms, and an empty allowlist |
| Config.BlankGivesEmpty | app/core/config.py:26-32 | an empty or whitespace-only raw string gives the empty allowlist |
| Config.CidrEntriesClean | app/core/config.py:33-35 | every allowlist entry `ParseCidrList` returns is non-empty and has no surrounding whitespace |
| Config.StripsAt | app/core/config.py:34 | the k-th stripped field is `strip()` of the k-th field |
| Config.ParseCidrListConcat | app/core/config.py:33-35 | under `ParseCidrList`, the entries of `a + "," + b` are the entries of `a` followed by those of `b`, so order is kept |
| Config.ParseCidrListJoin | app/core/config.py:33-35 | clean entries joined by commas, none included, are read back by `ParseCidrList` as exactly those entries, in order |
| JwtAuth.JWTAuthBackend.constructor | app/auth/jwt_backend.py:11-14 | the backend's algorithm, secret and user claim are the settings' |
| JwtAuth.JWTAuthBackend.Authenticate | app/auth/jwt_backend.py:16-46 | the step-by-step token choice and guard chain give exactly `AuthOutcome` |
| JwtAuth.QueryTokenWins | app/auth/jwt_backend.py:17-19 | a non-empty query token is used as given, whatever the header |
| JwtAuth.HeaderTokenRule | app/auth/jwt_backend.py:19-22 | with no query token, the token is what follows `Bearer `, stripped, or nothing when the header does not start with `Bearer ` |
| JwtAuth.LowercaseSchemeIgnored | app/auth/jwt_backend.py:21 | `bearer abc` gives no token: the scheme is case-sensitive |
| JwtAuth.SchemeNeedsSpace | app/auth/jwt_backend.py:21 | `Bearerabc` gives no token |
| JwtAuth.ExtraSpaceDropped | app/auth/jwt_backend.py:22 | `Bearer  t` and `Bearer t` both give `t` |
| JwtAuth.TokenShape | app/auth/jwt_backend.py:17-22 | a token taken from the header has no surrounding whitespace |
| JwtAuth.ErrorChain | app/auth/jwt_backend.py:24-43 | "Missing token" iff there is no token, and then the decoder is irrelevant; "Invalid token" iff decoding fails; "Invalid user claim" iff the claim is missing or falsy; success iff none of these; every error is 401 |
| JwtAuth.SuccessContext | app/auth/jwt_backend.py:45-46 | on success the user id is the claim's text and the scopes are the token's, `[]` if it has none |
| JwtAuth.UserClaimText | app/auth/jwt_backend.py:46 | `str()` of a string claim is the string, and of an integer claim its decimal text |
| Security.ProtectedIsAuthenticate | app/core/security.py:13-16 | `auth_required` (`AuthRequired`, which answers 401 "Unauthorized" to a context naming no user) after `authenticate` changes no outcome |
| Security.OtherVersionNotIn | app/core/security.py:28 | an IPv4 address is never in an IPv6 network, and vice versa |
| Security.FullPrefixIsExact | app/core/security.py:28 | a `/32` or `/128` network holds exactly its own address |
| Security.ZeroPrefixAdmitsAll | app/core/security.py:28 | a `/0` network holds every address of its version |
| Security.EmptyAllowlistAdmits | app/core/security.py:21-22 | an empty allowlist admits every request |
| Security.NoHostDenied | app/core/security.py:23-25 | with an allowlist, a request without a client host is refused with 403 |
| Security.UnparsableHostFaults | app/core/security.py:26 | with an allowlist, a host that is not an address raises |
| Security.SearchAdmitsIffSomeHit | app/core/security.py:27-30 | when every entry parses, the loop `Search` admits iff some network holds the address, and otherwise refuses |
| Security.SearchFaultsIffBadEntryFirst | app/core/security.py:27-29 | the loop raises iff it reaches an entry that does not parse before any match |
| Security.InternalTrustedIff | app/core/security.py:19-30 | with parseable entries and a parseable host, the guard `InternalTrusted` (whose loop is `Search`) admits exactly the addresses some entry holds, and refuses the rest with 403 |
| Schemas.ValidateSound | app/api/v1/schemas.py:6-11 | a request `Validate` accepts has a 1 to 64 character type and a non-empty user id, carries what was sent, and defaults `permalink` to None and `persistent` to false |
| Schemas.ValidateComplete | app/api/v1/schemas.py:6-11 | a request is valid iff `Validate` maps the body that sends it back to it |
| Schemas.ValidateErrors | app/api/v1/schemas.py:7-9 | each missing, too short or too long field is reported exactly when it is so |
| Schemas.ValidateWrongKind | app/api/v1/schemas.py:7-11 | a field is reported as of the wrong kind exactly when it is present and not a string (`type`, `user_id`), neither null nor a string (`permalink`) or not a boolean (`persistent`); `data` never is |
| Schemas.TypeLengthBoundary | app/api/v1/schemas.py:7 | a 64-character type passes; a 65-character or empty type fails with just that error |
| PubSub.ChannelRoundTrip | app/services/pubsub.py:8-9 | the user can be read back from a channel name, and only from channel names `UserChannel` makes |
| PubSub.UserChannelInjective | app/services/pubsub.py:8-9 | `UserChannel` gives distinct users distinct channels |
| PubSub.PublishEventRecipient | app/services/pubsub.py:11-14 | the one publish `PublishEvent` makes goes to the envelope user's channel, which is no other user's |
| EventIds.HexDigits | app/utils/ids.py:8 | a hex rendering has the requested width and only lowercase hex digits |
| EventIds.EventIdShape | app/utils/ids.py:7-8 | an id `NewEventId` makes is the decimal clock, one `-`, then the UUID's first eight hex digits; `-` is at that one position only |
| EventIds.EventIdSplits | app/utils/ids.py:8 | splitting a `NewEventId` id at `-` gives the two parts, and the first reads back as the clock value |
| EventIds.EventIdIsClean | app/utils/ids.py:8 | an id has no line break and no surrounding whitespace |
| Publish.HandlePublish | app/api/v1/routes/publish.py:16-35 | the response and call trace the method builds step by step are exactly `PublishOutcome` |
| Publish.RejectedCallsNothing | app/api/v1/routes/publish.py:17 | a request the guard refuses, or whose guard raises, makes no call; it is 403 iff refused |
| Publish.UnprocessableCallsNothing | app/api/v1/routes/publish.py:16-17 | a 422 request makes no call |
| Publish.InvalidMembersAnswered | app/api/v1/routes/publish.py:17 | an admitted body with field errors gets 422 with exactly those errors, and makes no call |
| Publish.HappyPath | app/api/v1/routes/publish.py:18-35 | with no failure: publish on the user's channel, then persistence if requested, then the push; 202 with the new id |
| Publish.PublishFirst | app/api/v1/routes/publish.py:28-33 | publish is the first call of any request that makes calls, and a failed publish is the only call; an accepted request ends with the push |
| Publish.PersistIff | app/api/v1/routes/publish.py:30-31 | persistence is called iff the request is persistent and the publish succeeded |
| Publish.PushIff | app/api/v1/routes/publish.py:33-35 | the push is called iff no earlier call failed; the request is accepted iff no call fails |
| Publish.CallsCarryEnvelope | app/api/v1/routes/publish.py:18-33 | every call carries the one envelope `MakeEnvelope` builds: type, user, data and permalink copied from the request, with the new id and timestamp |
| SseWire.FormatSse | app/services/sse_manager.py:11-22 | the text the line-appending loop builds is exactly `Message` |
| SseWire.MessageFields | app/services/sse_manager.py:13-20 | an `id` line iff an id is given, a `retry` line iff a retry is given, an `event` line iff the event is non-empty, and one `data` line per payload line, in order, a single one for an empty payload |
| SseWire.MessageTerminated | app/services/sse_manager.py:21-22 | a message is its field lines, each ended by a newline, then an empty line; it ends in `"\n\n"` |
| SseWire.FieldLinesWellFormed | app/services/sse_manager.py:12-20 | every field line is non-empty, and free of line breaks when the id and event are |
| SseWire.MessageLines | app/services/sse_manager.py:11-22 | read back by `splitlines`, a message is its field lines and one empty line |
| SseWire.HeartbeatLines | app/services/sse_manager.py:24-25 | the heartbeat is one comment line and an empty line |
| SseDecode.ParseSseBlock | dev_tools/sse_benchmark.py:30-43 | the tuples the accumulator loop yields are exactly `Parse` |
| SseDecode.StepFields | dev_tools/sse_benchmark.py:38-43 | a line changes the event, id or data accumulator only under its own field name |
| SseDecode.FeedFresh | dev_tools/sse_benchmark.py:38-43 | a block leaves its last `event:` value, its last `id:` value, and all `data:` values in order, each stripped |
| SseDecode.ParseBlock | dev_tools/sse_benchmark.py:33-35 | an empty line yields one tuple and resets the accumulators |
| SseDecode.ParseTrailing | dev_tools/sse_benchmark.py:32-34 | fields after the last empty line are not yielded |
| SseDecode.ParseCount | dev_tools/sse_benchmark.py:32-35 | exactly one tuple per empty line |
| SseDecode.IgnoredLine | dev_tools/sse_benchmark.py:36-43 | comment lines and lines with other field names (`retry:`) change nothing |
| SseDecode.RoundTrip | dev_tools/sse_benchmark.py:30-43 | under the stated conditions, decoding an encoded message yields the one tuple `(event, id, data)`, with an empty event omitted |
| SseDecode.HeartbeatParse | dev_tools/sse_benchmark.py:33-37 | a heartbeat decodes to `(None, None, "")` |
| SseDecode.FrameBuffer | dev_tools/sse_benchmark.py:67-68 | the cutting loop collects exactly `Frames` |
| SseDecode.FramesFacts | dev_tools/sse_benchmark.py:67-68 | after framing the remainder holds no `"\n\n"`, and the blocks, each followed by `"\n\n"`, then the remainder, are the input |
| SseDecode.FramesUnique | dev_tools/sse_benchmark.py:67-68 | framing is the only such decomposition |
| SseDecode.FramesChunks | dev_tools/sse_benchmark.py:63-68 | framing chunk by chunk cuts the same blocks as framing all the input at once |
| SseDecode.FramesOfStream | dev_tools/sse_benchmark.py:67-68 | a stream of encoded frames whose ids and event names have no line breaks is cut into one block per frame, leaving nothing |
| SseDecode.BlockAsWritten | dev_tools/sse_benchmark.py:69 | the block of a frame whose id and event name have no line breaks, plus one newline, yields no tuple |
| SseDecode.StreamAsWritten | dev_tools/sse_benchmark.py:67-69 | as written, the client counts no event at all for a stream whose ids and event names have no line breaks |
| SseDecode.BrokenNameCounted | dev_tools/sse_benchmark.py:67-69 | as written, a message whose event name is `"e\n\n"` is cut into two blocks, and the second yields one empty tuple `(None, None, "")`, which is counted |
| SseDecode.BlockCorrected | dev_tools/sse_benchmark.py:69 | a block with its `"\n\n"` restored yields the one tuple that was sent, for a frame meeting the conditions of `RoundTrip` |
| SseDecode.StreamCorrected | dev_tools/sse_benchmark.py:67-69 | corrected, the client reads one tuple per frame sent, in order, for frames meeting the conditions of `RoundTrip` |
| SseDecode.ReadyMessageMissed | dev_tools/sse_benchmark.py:69 | the ready message yields nothing as written, and yields `(ready, None, stream-open)` corrected |
| SseSession.ReadItem | app/services/sse_manager.py:43-58 | the reader's decision for one item is `ReadOne`, and a queued item is the encoded frame |
| SseSession.ReadsAppend | app/services/sse_manager.py:42-58 | the decisions `Reads` makes for `a + b` are those for `a` followed by those for `b`, so the reader handles items one at a time, in arrival order |
| SseSession.ReaderRunAppend | app/services/sse_manager.py:43-60 | the reader's run over the decisions `Reads` makes: reading `a` then `b` queues what `a` queues, then what `b` queues if the reader survived `a` |
| SseSession.EventStream | app/services/sse_manager.py:27-86 | what the generator loop yields, its broker calls and its closing are exactly those of the state machine's `Run` |
| SseSession.DrainTurn | app/services/sse_manager.py:73-82 | one iteration of the drain loop is the state machine's `Drain` step |
| SseSession.ReaderTurn | app/services/sse_manager.py:43-58 | the reader's work during an iteration is the state machine's `DeliverAll` step |
| SseSession.DeliverAllEffect | app/services/sse_manager.py:41-60 | the reader queues what it decodes and unsubscribes when it fails; it touches nothing of the drain loop |
| SseSession.DrainSends | app/services/sse_manager.py:73-82 | at most one message, the oldest, then at most one heartbeat, which is sent iff `now - last_hb >= interval` and moves `last_hb` to `now`; sending a message does not move it |
| SseSession.RunTicksInv | app/services/sse_manager.py:41-86 | the messages sent plus those queued are what the reader made of its items; the reader runs iff it has not failed and the stream is open; subscribe once, unsubscribe once after it stops |
| SseSession.Fifo | app/services/sse_manager.py:58-75 | messages are sent in the order the reader queued them, one `Reads` decision per consumed item |
| SseSession.Subscriptions | app/services/sse_manager.py:33-86 | subscribe once, first; unsubscribe at most once, when the reader fails or at teardown; after teardown both calls have been made |
| SseSession.HeartbeatSpacing | app/services/sse_manager.py:79-82 | heartbeats are at least `interval` apart, the first at least `interval` after the start |
| SseSession.BeatsIgnoreArrivals | app/services/sse_manager.py:79-82 | heartbeat times depend only on the clock and disconnect readings, not on broker traffic |
| SseSession.ReadyFirst | app/services/sse_manager.py:62-65 | the first thing a session sends is the ready message |
| SseSession.ReadyMessageFields | app/services/sse_manager.py:65 | the ready message has event `ready`, the configured retry, data `stream-open` and no id |
| SseSession.StopsAtDisconnect | app/services/sse_manager.py:69-71 | the loop closes at the first disconnect, and later iterations change nothing |
| SseSession.ClosedIffDisconnect | app/services/sse_manager.py:69-71 | the stream closes iff some iteration finds the client gone |
| Delivery.SameChannel | app/services/sse_manager.py:33 | the subscriber's channel is the publisher's `user_channel` |
| Delivery.ReaderFrameOfEnvelope | app/services/sse_manager.py:52-55 | a published envelope reaches its user's session as a message with the envelope's type (if non-empty) as event and its id as id |
| Delivery.PublishedEventParses | app/services/pubsub.py:11-14 | a published envelope with a clean type and a fresh id is parsed back by `parse_sse_block` as exactly (type, id, JSON text) |
| Delivery.RawTextPassesThrough | app/services/sse_manager.py:56-57 | a payload that is not a JSON object is sent as raw text with no event or id, and parses back as such |

## Left out

- Redis, asyncio and HTTP: the pub/sub connection, tasks and cancellation, `wait_for` timeouts, `is_disconnected`, `StreamingResponse` and the Redis lifecycle in app/main.py. These are I/O and concurrency. Broker items, the disconnect test and the clock are inputs, one `Tick` per loop iteration.
- The one-second `wait_for` timeout: an iteration either finds a queued message or does not. The items that arrive during an iteration are queued before the drain step reads the queue.
- `contextlib.suppress(Exception)` around the cancelled reader: `CancelledError` is a `BaseException`, so what teardown does with it is asyncio behaviour and is not modelled.
- JSON: `json.loads`, `json.dumps` and `model_dump` are library calls. They are inputs: `loads` gives an object with its `type`/`id` members and its `dumps` text, or another value, or a parse error.
- JWT: `jwt.decode` verifies signatures (RFC 7519, RFC 7515). It is an input that gives claims or a failure.
- Address parsing: `ipaddress.ip_address` and `ip_network` string parsing are inputs that give an address or network, or a parse error.
- Clock and randomness: `time.time()` in milliseconds (already truncated), `uuid.uuid4()` and `now_iso()` are inputs.
- Pydantic: the model accepts only JSON strings and booleans for `str` and `bool` fields. Pydantic's lax coercions are not modelled.
- Config.Settings.constructor: does not model `APP_NAME`, `API_V1_PREFIX`, `REDIS_URL` or `ALLOWED_ORIGINS`, which only wire the app. It does not model pydantic-settings' own loading of the environment or of `.env`. For the `List[str]` field `INTERNAL_TRUSTED_CIDRS` (app/core/config.py:26) that loading decodes the variable as JSON. A comma-separated value then makes `super().__init__` (app/core/config.py:31) raise before lines 32-35 run, and a JSON list reaches line 34 as a single entry that `ip_network` cannot parse. The model starts from the raw string the constructor's lines 32-35 expect.
- Config.IntSetting: `int()` of a set variable is the input `toInt`. Decimal parsing, and the error on a non-number, are not modelled.
- Persistence and offline push: `app.services.persistence` and `app.services.push_offline` are not part of this model. Each is a call recorded in the trace, and whether it raises is an input.
- Routing: app/api/v1/routes/stream.py, app/api/v1/routes/health.py and app/main.py are wiring and are not modelled. `AuthBackend` in app/auth/base.py is an abstract method.
- Benchmark drivers: the connection, statistics and latency parts of dev_tools/sse_benchmark.py, and dev_tools/publish_benchmark.py and dev_tools/end_to_end_benchmark.py, are network and floating-point code.
- SseDecode.StreamAsWritten: covers only streams whose ids and event names have no line breaks. A published `type` may hold `"\n\n"`; framing then splits its message in two, and the second piece, which starts with an empty line, is counted as the event `(None, None, "")`. SseDecode.BrokenNameCounted proves this for the event name `"e\n\n"`.
- Closing the stream at the ready message: the ready `yield` (app/services/sse_manager.py:65) comes before the `try` at line 67. A generator closed at that `yield` skips the `finally`, so the reader task is never cancelled and stays subscribed. The model's ticks start after the ready message and cannot express a close at that point.
- SseDecode.RoundTrip: the data must use only `\n` line breaks. `splitlines` also splits at `\r`, `\r\n`, `\v`, `\f`, `\x1c`-`\x1e`, `\x85` and the Unicode line and paragraph separators, and these come back as `\n`.
- Text: strings are sequences of characters. UTF-8 encoding of the yielded text (`.encode()`) and decoding with `errors="ignore"` are not modelled; bytes are given as their decoded text, or as undecodable.

## Findings

| source | as written | input that shows it | evidently intended | confidence | as-written member | corrected member |
|---|---|---|---|---|---|---|
| dev_tools/sse_benchmark.py:69 | each framed block is parsed as `block + "\n"`. Framing has already removed the block's closing `"\n\n"`, so the text has no empty line and `parse_sse_block` yields nothing | the ready message's block `retry: 1500\nevent: ready\ndata: stream-open`: with one `"\n"` appended it yields no tuple. The same holds for every block whose id and event name have no line breaks, so such a stream has no event counted | parse `block + "\n\n"`, so that each block yields the one event sent | not executed | SseDecode.StreamAsWritten | SseDecode.StreamCorrected |
