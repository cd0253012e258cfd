/** What the relay decodes and encodes again: the SUBSCRIBE that it sends to a publisher, and the
    SUBSCRIBE_OK and PUBLISH_DONE that it sends to subscribers (moqt-relay/src/relay.rs over
    moqt-core/src/session). */
module Forwarding {
  import opened Words
  import opened Codec
  import opened Varint
  import opened Blocks
  import opened Wire
  import opened Parameters
  import opened Namespaces
  import opened ReasonPhrases
  import opened Messages
  import opened RelaySystem
  import opened Utf8
  import RelayRuns

  /** The SUBSCRIBE of MoqtSession::subscribe: a new request ID, delta 0, the rest as received. */
  function Upstreamed(m: SubscribeMessage, requestId: u64): SubscribeMessage {
    SubscribeMessage(requestId, 0, m.trackNamespace, m.trackName, m.parameters)
  }

  lemma FilterCheckIsEncodable(ps: seq<MessageParameter>)
    ensures HasOtherFilter(ps) <==> exists p :: p in ps && !Encodable(p)
  {
    if HasOtherFilter(ps) {
      var i :| 0 <= i < |ps| && ps[i].FilterParameter? && !ps[i].filter.NextGroupStart?;
      assert ps[i] in ps && !Encodable(ps[i]);
    }
  }

  /** The filter check of handle_subscribe is exact: a SUBSCRIBE that was read from the wire can be
      sent on to a publisher if and only if it passes the check. */
  lemma SubscribeIsForwardable(s: bytes, requestId: u64)
    requires ParseSubscribe(s).Accept?
    ensures var m := ParseSubscribe(s).value;
            PayloadOf(Subscribe(Upstreamed(m, requestId))).Some? <==> !HasUnsupportedFilter(m)
  {
    hide ParseVarint, ParseNamespace, ParseBlock, ParseParameters, EncodeParams, SubscribePayload, HasOtherFilter;
    var s2 := ParseVarint(ParseVarint(s).rest).rest;
    AcceptedNamespace(s2);
    var s4 := ParseBlock(ParseNamespace(s2).rest).rest;
    AcceptedParametersReencode(s4);
    FilterCheckIsEncodable(ParseSubscribe(s).value.parameters);
  }

  /** An accepted SUBSCRIBE is made no longer by encoding it again. */
  lemma SubscribeIsShortest(s: bytes)
    requires ParseSubscribe(s).Accept?
    ensures var m := ParseSubscribe(s).value;
            && (PayloadOf(Subscribe(m)).Some? <==> !HasUnsupportedFilter(m))
            && (PayloadOf(Subscribe(m)).Some? ==> |PayloadOf(Subscribe(m)).value| <= |s|)
  {
    hide Encode, ParseVarint, ParseNamespace, NamespaceBytes, ParseBlock, EncodeBlock, ParseParameters, EncodeParams,
      HasOtherFilter, InLimits;
    EncodeIsShortest(s);
    var s1 := ParseVarint(s).rest;
    EncodeIsShortest(s1);
    var s2 := ParseVarint(s1).rest;
    AcceptedNamespace(s2);
    var s3 := ParseNamespace(s2).rest;
    BlockIsShortest(s3);
    AcceptedParametersReencode(ParseBlock(s3).rest);
    FilterCheckIsEncodable(ParseSubscribe(s).value.parameters);
  }

  /** The new request ID and delta take the places of the old ones. */
  lemma UpstreamedLength(m: SubscribeMessage, requestId: u64)
    requires PayloadOf(Subscribe(m)).Some?
    ensures PayloadOf(Subscribe(Upstreamed(m, requestId))).Some?
    ensures |PayloadOf(Subscribe(Upstreamed(m, requestId))).value| ==
            |PayloadOf(Subscribe(m)).value| - |Encode(m.requestId)| - |Encode(m.requiredRequestIdDelta)|
            + |Encode(requestId)| + 1
  {
    OneByteDelta();
    hide Encode, NamespaceBytes, EncodeBlock, EncodeParams, InLimits;
  }

  lemma OneByteDelta()
    ensures |Encode(0)| == 1
  {
  }

  /** What the two fields in front leave for the rest. */
  predicate FitsUpstream(m: SubscribeMessage, requestId: u64, length: nat) {
    length + |Encode(requestId)| + 1 < U16 + |Encode(m.requestId)| + |Encode(m.requiredRequestIdDelta)|
  }

  /** The SUBSCRIBE that the relay sends on for one that it read from the wire is decoded by the
      publisher to the message that was meant if and only if the payload, with the new request ID,
      still fits the 16-bit length. A received payload of a length that leaves room for the new ID is
      enough, and an ID no longer than the old one always is. */
  lemma SubscribeReachesPublisher(s: bytes, requestId: u64, rest: bytes)
    requires |s| < U16 && ParseSubscribe(s).Accept? && !HasUnsupportedFilter(ParseSubscribe(s).value)
    ensures var m := ParseSubscribe(s).value;
            var up := Subscribe(Upstreamed(m, requestId));
            && PayloadOf(Subscribe(m)).Some? && MessageBytes(up).Some?
            && var back := ParseRequest(MessageBytes(up).value + rest);
            && ((back.Accept? && back.value == up) <==> FitsUpstream(m, requestId, |PayloadOf(Subscribe(m)).value|))
            && (FitsUpstream(m, requestId, |s|) ==> back == Accept(up, rest))
            && (|Encode(requestId)| <= |Encode(m.requestId)| ==> back == Accept(up, rest))
  {
    var m := ParseSubscribe(s).value;
    var up := Subscribe(Upstreamed(m, requestId));
    SubscribeIsShortest(s);
    UpstreamedLength(m, requestId);
    hide Encode, ParseSubscribe, PayloadOf, FrameBytes, ParseRequest, HasUnsupportedFilter;
    MessageRoundTrip(up, rest);
  }

  // ----- a SUBSCRIBE that does not fit -----

  /** 65528 letters. */
  const LONG_NAME: blob := seq(65528, i => 0x61)

  const LONG_SUBSCRIBE := SubscribeMessage(0, 0, TrackNamespace([]), LONG_NAME, [])

  lemma LongLengths()
    ensures PayloadOf(Subscribe(LONG_SUBSCRIBE)).Some?
    ensures |PayloadOf(Subscribe(LONG_SUBSCRIBE)).value| == 65535
    ensures |Encode(129)| == 2
  {
    assert |Encode(65528)| == 3 && |Encode(0)| == 1;
    NoParameters([]);
    hide Encode, EncodeParams;
  }

  /** The limit is met: a SUBSCRIBE with request ID 0 and a payload of 65535 bytes arrives, passes every
      check of the relay, and cannot be sent on under request ID 129. */
  lemma LongSubscribeIsLost(rest: bytes)
    ensures ParseRequest(MessageBytes(Subscribe(LONG_SUBSCRIBE)).value + rest) == Accept(Subscribe(LONG_SUBSCRIBE), rest)
    ensures !HasUnsupportedFilter(LONG_SUBSCRIBE) && IsUtf8(LONG_SUBSCRIBE.trackName)
    ensures var up := Subscribe(Upstreamed(LONG_SUBSCRIBE, 129));
            && PayloadOf(up).Some? && |PayloadOf(up).value| == U16
            && var back := ParseRequest(MessageBytes(up).value + rest);
            !(back.Accept? && back.value == up)
  {
    LongLengths();
    OneByteDelta();
    UpstreamedLength(LONG_SUBSCRIBE, 129);
    AsciiIsUtf8(LONG_NAME);
    hide Encode, PayloadOf, FrameBytes, ParseRequest, IsUtf8, LONG_NAME;
    MessageRoundTrip(Subscribe(LONG_SUBSCRIBE), rest);
    MessageRoundTrip(Subscribe(Upstreamed(LONG_SUBSCRIBE, 129)), rest);
  }

  /** An accepted SUBSCRIBE_OK is made no longer by encoding it again. */
  lemma SubscribeOkIsShortest(s: bytes)
    requires ParseSubscribeOk(s).Accept?
    ensures var m := ParseSubscribeOk(s).value;
            && (PayloadOf(SubscribeOk(m)).Some? <==> !HasOtherFilter(m.parameters))
            && (PayloadOf(SubscribeOk(m)).Some? ==> |PayloadOf(SubscribeOk(m)).value| <= |s|)
  {
    hide Encode, ParseVarint, ParseParameters, EncodeParams, ParseBlock, EncodeBlock, HasOtherFilter;
    EncodeIsShortest(s);
    var s1 := ParseVarint(s).rest;
    AcceptedParametersReencode(s1);
    FilterCheckIsEncodable(ParseSubscribeOk(s).value.parameters);
    BlockIsShortest(ParseParameters(s1).rest);
  }

  lemma FrameIsShort(s: bytes)
    requires ParseFrame(s).Accept?
    ensures |ParseFrame(s).value.payload| < U16
  {
    hide ParseVarint;
  }

  /** The SUBSCRIBE_OK of a publisher reaches the subscriber unchanged, whatever its parameters and
      properties, unless it carries a filter other than NextGroupStart; then it cannot be sent. */
  lemma SubscribeOkReachesSubscriber(received: bytes, rest: bytes)
    requires ParseRequest(received).Accept? && ParseRequest(received).value.SubscribeOk?
    ensures var m := ParseRequest(received).value;
            && (MessageBytes(m).Some? <==> !HasOtherFilter(m.subscribeOk.parameters))
            && (MessageBytes(m).Some? ==> ParseRequest(MessageBytes(m).value + rest) == Accept(m, rest))
  {
    var m := ParseRequest(received).value;
    var payload := ParseFrame(received).value.payload;
    FrameIsShort(received);
    PayloadOfOk(received);
    SubscribeOkIsShortest(payload);
    hide ParseRequest, ParseSubscribeOk, PayloadOf, FrameBytes, ParseFrame;
    if MessageBytes(m).Some? {
      MessageRoundTrip(m, rest);
    }
  }

  /** The payload of a SUBSCRIBE_OK as a publisher may send it, with any of the four filters. */
  function OkFromPublisher(alias: u64, ps: seq<SpecParameter>, properties: blob): bytes
    requires |ps| < U64 && Ascending(ps, 0)
  {
    Encode(alias) + (SpecEncoding(ps) + EncodeBlock(properties))
  }

  /** The relay reads every SUBSCRIBE_OK whose parameters it keeps, and can send on precisely those
      without a filter other than NextGroupStart. */
  lemma ReceivedAndNotSent(alias: u64, ps: seq<SpecParameter>, properties: blob, rest: bytes)
    requires |ps| < U64 && Ascending(ps, 0) && AllKept(ps)
    requires |OkFromPublisher(alias, ps, properties)| < U16
    ensures var m := SubscribeOk(SubscribeOkMessage(alias, KeptOf(ps), properties));
            var received := FrameBytes(MSG_SUBSCRIBE_OK, OkFromPublisher(alias, ps, properties)) + rest;
            && ParseRequest(received) == Accept(m, rest)
            && (MessageBytes(m) == None <==> HasOtherFilter(KeptOf(ps)))
  {
    hide ParseFrame, FrameBytes, OkFromPublisher, ParseSubscribeOk, MessageBytes, HasOtherFilter;
    var payload := OkFromPublisher(alias, ps, properties);
    OkIsRead(alias, ps, properties);
    FrameRoundTrip(MSG_SUBSCRIBE_OK, payload, rest);
    assert |payload| % U16 == |payload| && payload[..|payload|] == payload && payload[|payload|..] + rest == rest;
    SubscribeOkReachesSubscriber(FrameBytes(MSG_SUBSCRIBE_OK, payload) + rest, rest);
  }

  lemma OkIsRead(alias: u64, ps: seq<SpecParameter>, properties: blob)
    requires |ps| < U64 && Ascending(ps, 0) && AllKept(ps)
    ensures ParseSubscribeOk(OkFromPublisher(alias, ps, properties)) ==
            Accept(SubscribeOkMessage(alias, KeptOf(ps), properties), [])
  {
    hide Encode, ParseVarint, ParseParameters, SpecEncoding, ParseBlock, EncodeBlock, KeptOf;
    var s2 := EncodeBlock(properties);
    RoundTrip(alias, SpecEncoding(ps) + s2);
    KeptRoundTrip(ps, s2);
    assert s2 + [] == s2;
    ParseEncodedBlock(properties, []);
  }

  /** The answer of `RelayRuns.UnencodableRun` is one that a publisher can give. */
  lemma BadOkIsReceived(rest: bytes) returns (received: bytes)
    ensures ParseRequest(received + rest) == Accept(SubscribeOk(RelayRuns.BAD_OK), rest)
    ensures MessageBytes(SubscribeOk(RelayRuns.BAD_OK)) == None
  {
    var ps := [Kept(FilterParameter(LargestObjectFilter))];
    assert KeptOf(ps) == RelayRuns.BAD_OK.parameters;
    received := FrameBytes(MSG_SUBSCRIBE_OK, OkFromPublisher(7, ps, []));
    assert |OkFromPublisher(7, ps, [])| < U16 by {
      BadOkIsSmall(ps);
    }
    RelayRuns.BadOkIsBad();
    hide Encode, OkFromPublisher, FrameBytes, ParseRequest, MessageBytes;
    ReceivedAndNotSent(7, ps, [], rest);
  }

  lemma BadOkIsSmall(ps: seq<SpecParameter>)
    requires ps == [Kept(FilterParameter(LargestObjectFilter))]
    ensures |OkFromPublisher(7, ps, [])| < U16
  {
    OneByte(0);
    OneByte(1);
    OneByte(2);
    OneByte(7);
    OneByte(0x21);
    hide Encode;
    assert BodyBytes(ps, 0) == ItemBytes(ps[0], 0) + [];
  }

  lemma PayloadOfOk(received: bytes)
    requires ParseRequest(received).Accept? && ParseRequest(received).value.SubscribeOk?
    ensures ParseFrame(received).Accept?
    ensures var p := ParseSubscribeOk(ParseFrame(received).value.payload);
            p.Accept? && p.value == ParseRequest(received).value.subscribeOk
  {
    hide ParseFrame, ParsePublishNamespace, ParseSubscribe, ParseSubscribeOk, ParseRequestOk, ParseRequestError,
      ParsePublishDone;
  }

  /** The PUBLISH_DONE of a publisher always reaches the subscriber unchanged. */
  lemma PublishDoneReachesSubscriber(received: bytes, rest: bytes)
    requires ParseRequest(received).Accept? && ParseRequest(received).value.PublishDone?
    ensures var m := ParseRequest(received).value;
            MessageBytes(m).Some? && ParseRequest(MessageBytes(m).value + rest) == Accept(m, rest)
  {
    var m := ParseRequest(received).value;
    DoneFits(received);
    DoneIsShort(m);
    hide ParseRequest, PayloadOf, FrameBytes;
    MessageRoundTrip(m, rest);
  }

  lemma DoneFits(received: bytes)
    requires ParseRequest(received).Accept? && ParseRequest(received).value.PublishDone?
    ensures ReasonInLimit(ParseRequest(received).value)
  {
    hide ParseFrame, ParsePublishNamespace, ParseSubscribe, ParseSubscribeOk, ParseRequestOk, ParseRequestError,
      ParseVarint, ParseBlock;
  }

  lemma DoneIsShort(m: RequestMessage)
    requires m.PublishDone? && ReasonInLimit(m)
    ensures PayloadOf(m).Some? && |PayloadOf(m).value| < U16
  {
    hide Encode;
  }
}
