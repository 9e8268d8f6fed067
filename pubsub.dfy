/**
 * Channel naming and event publishing (app/services/pubsub.py). The
 * broker's `PUBLISH` is recorded as a value, and `json.dumps` of the
 * envelope is an input.
 */
module PubSub {
  import opened Wrappers
  import opened Schemas

  const ChannelPrefix: string := "user:"

  /** `user_channel(user_id)`. */
  function UserChannel(userId: string): string {
    ChannelPrefix + userId
  }

  /** The user whose channel `ch` is, if it is one. */
  function ChannelUser(ch: string): (u: Option<string>) {
    if |ch| >= |ChannelPrefix| && ch[..|ChannelPrefix|] == ChannelPrefix then Some(ch[|ChannelPrefix|..]) else None
  }

  /** `ChannelUser` inverts `UserChannel`, and names only channels that `UserChannel` makes. */
  lemma ChannelRoundTrip(userId: string, ch: string)
    ensures ChannelUser(UserChannel(userId)) == Some(userId)
    ensures ChannelUser(ch) == Some(userId) ==> UserChannel(userId) == ch
  {
    assert UserChannel(userId)[..|ChannelPrefix|] == ChannelPrefix;
    assert UserChannel(userId)[|ChannelPrefix|..] == userId;
    if ChannelUser(ch) == Some(userId) {
      assert ch == ch[..|ChannelPrefix|] + ch[|ChannelPrefix|..];
    }
  }

  /** Distinct users have distinct channels. */
  lemma UserChannelInjective(a: string, b: string)
    ensures UserChannel(a) == UserChannel(b) ==> a == b
  {
    ChannelRoundTrip(a, UserChannel(b));
    ChannelRoundTrip(b, UserChannel(b));
  }

  /** One `PUBLISH channel payload` on the broker. */
  datatype Published = Published(channel: string, payload: string)

  /** `publish_event(r, envelope)`: one publish, on the envelope user's channel, of the envelope's JSON text. */
  function PublishEvent(envelope: EventEnvelope, dumps: EventEnvelope -> string): Published {
    Published(UserChannel(envelope.userId), dumps(envelope))
  }

  /** The channel of a published event names the envelope's user, and only that user. */
  lemma PublishEventRecipient(envelope: EventEnvelope, dumps: EventEnvelope -> string, userId: string)
    ensures ChannelUser(PublishEvent(envelope, dumps).channel) == Some(envelope.userId)
    ensures PublishEvent(envelope, dumps).channel == UserChannel(userId) <==> userId == envelope.userId
  {
    ChannelRoundTrip(envelope.userId, UserChannel(envelope.userId));
    UserChannelInjective(userId, envelope.userId);
  }
}
