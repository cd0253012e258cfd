/** Control-message framing (moqt-core/src/wire/mod.rs) and the six request messages, section 9 of
    draft-ietf-moq-transport-17, with the dispatch of moqt-core/src/stream/request.rs. */
module Messages {
  import opened Words
  import opened Codec
  import opened Varint
  import opened Blocks
  import opened Wire
  import opened Parameters
  import opened Namespaces
  import opened ReasonPhrases

  // ----- framing -----

  datatype Frame = Frame(msgType: u64, payload: bytes)

  /** encode_message casts the length to u16. */
  function FrameBytes(t: u64, payload: bytes): bytes {
    Encode(t) + (BigEndian(|payload| % U16, 2) + payload)
  }

  function ParseLength(s: bytes): Parse<nat> {
    if |s| < 2 then Reject
    else
      var n: nat := (s[0] as int) * 256 + s[1] as int;
      Accept(n, s[2..])
  }

  function ParseFrame(s: bytes): Parse<Frame> {
    var (t, s1) :- ParseVarint(s);
    var (len, s2) :- ParseLength(s1);
    var (payload, s3) :- TakeBytes(s2, len);
    Accept(Frame(t, payload), s3)
  }

  lemma LengthRoundTrip(n: nat, rest: bytes)
    requires n < U16
    ensures ParseLength(BigEndian(n, 2) + rest) == Accept(n, rest)
  {
    var s := BigEndian(n, 2);
    assert s == [n / 256 % 256, n % 256] by {
      assert BigEndian(n / 256, 1) == BigEndian(n / 256 / 256, 0) + [n / 256 % 256];
    }
    assert (s + rest)[2..] == rest;
  }

  /** What the decoder sees of a frame: the payload up to its length modulo 2^16. The remainder of
      a longer payload is left in front of the next frame. */
  lemma FrameRoundTrip(t: u64, payload: bytes, rest: bytes)
    ensures var n := |payload| % U16;
            ParseFrame(FrameBytes(t, payload) + rest) == Accept(Frame(t, payload[..n]), payload[n..] + rest)
  {
    hide ParseVarint, ParseLength, ParseFrame, Encode, BigEndian;
    var n := |payload| % U16;
    var s2 := payload + rest;
    var s1 := BigEndian(n, 2) + s2;
    FrameConcat(Encode(t), BigEndian(n, 2), payload, rest);
    RoundTrip(t, s1);
    LengthRoundTrip(n, s2);
    assert s2[..n] == payload[..n] && s2[n..] == payload[n..] + rest;
    FrameFromParts(FrameBytes(t, payload) + rest, t, s1, n, s2);
  }

  lemma FrameConcat(a: bytes, b: bytes, c: bytes, rest: bytes)
    ensures a + (b + c) + rest == a + (b + (c + rest))
  {
  }

  lemma FrameFromParts(s: bytes, t: u64, s1: bytes, n: nat, s2: bytes)
    requires ParseVarint(s) == Accept(t, s1) && ParseLength(s1) == Accept(n, s2)
    ensures ParseFrame(s) == if |s2| < n then Reject else Accept(Frame(t, s2[..n]), s2[n..])
  {
    hide ParseVarint, ParseLength;
  }

  method EncodeMessage(msgType: u64, payload: bytes, buf: Buffer)
    modifies buf
    ensures buf.data == old(buf.data) + FrameBytes(msgType, payload)
  {
    ghost var before := buf.data;
    var len := |payload| % U16;
    EncodeVarint(msgType, buf);
    buf.Extend([len / 256, len % 256]);
    buf.Extend(payload);
    LengthBytes(len);
    FrameConcat(before, Encode(msgType), BigEndian(len, 2), payload);
    Concat3(Encode(msgType), BigEndian(len, 2), payload);
    Concat3(before, Encode(msgType), BigEndian(len, 2));
  }

  /** u16::to_be_bytes */
  lemma LengthBytes(n: nat)
    requires n < U16
    ensures [n / 256, n % 256] == BigEndian(n, 2)
  {
    assert BigEndian(n / 256, 1) == BigEndian(n / 256 / 256, 0) + [n / 256 % 256];
  }

  method DecodeMessage(buf: Cursor) returns (r: Result<Frame>)
    modifies buf
    ensures Follows(r, buf.left, ParseFrame(old(buf.left)))
  {
    var msgType :- DecodeVarint(buf);
    if |buf.left| < 2 {
      return Err;
    }
    var len: nat := (buf.left[0] as int) * 256 + buf.left[1] as int;
    buf.left := buf.left[2..];
    var payload :- buf.Take(len);
    r := Ok(Frame(msgType, payload));
  }

  // ----- payloads -----

  function PublishNamespacePayload(m: PublishNamespaceMessage): bytes
    requires InLimits(m.trackNamespace)
  {
    Encode(m.requestId) + (Encode(m.requiredRequestIdDelta) + (NamespaceBytes(m.trackNamespace) + Encode(0)))
  }

  function SubscribePayload(m: SubscribeMessage): bytes
    requires InLimits(m.trackNamespace) && EncodeParams(m.parameters).Some?
  {
    Encode(m.requestId) + (Encode(m.requiredRequestIdDelta) +
      (NamespaceBytes(m.trackNamespace) + (EncodeBlock(m.trackName) + EncodeParams(m.parameters).value)))
  }

  function SubscribeOkPayload(m: SubscribeOkMessage): bytes
    requires EncodeParams(m.parameters).Some?
  {
    Encode(m.trackAlias) + (EncodeParams(m.parameters).value + EncodeBlock(m.trackPropertiesRaw))
  }

  function RequestErrorPayload(m: RequestErrorMessage): bytes {
    Encode(m.errorCode) + (Encode(m.retryInterval) + ReasonBytes(m.reasonPhrase))
  }

  function PublishDonePayload(m: PublishDoneMessage): bytes {
    Encode(m.statusCode) + (Encode(m.streamCount) + ReasonBytes(m.reasonPhrase))
  }

  function ParsePublishNamespace(s: bytes): Parse<PublishNamespaceMessage> {
    var (requestId, s1) :- ParseVarint(s);
    var (delta, s2) :- ParseVarint(s1);
    var (ns, s3) :- ParseNamespace(s2);
    var (_, s4) :- ParseParameters(s3);
    Accept(PublishNamespaceMessage(requestId, delta, ns), s4)
  }

  function ParseSubscribe(s: bytes): Parse<SubscribeMessage> {
    var (requestId, s1) :- ParseVarint(s);
    var (delta, s2) :- ParseVarint(s1);
    var (ns, s3) :- ParseNamespace(s2);
    var (name, s4) :- ParseBlock(s3);
    var (params, s5) :- ParseParameters(s4);
    Accept(SubscribeMessage(requestId, delta, ns, name, params), s5)
  }

  function ParseSubscribeOk(s: bytes): Parse<SubscribeOkMessage> {
    var (alias, s1) :- ParseVarint(s);
    var (params, s2) :- ParseParameters(s1);
    var (properties, s3) :- ParseBlock(s2);
    Accept(SubscribeOkMessage(alias, params, properties), s3)
  }

  function ParseRequestOk(s: bytes): Parse<RequestOkMessage> {
    var (_, s1) :- ParseParameters(s);
    Accept(RequestOkMessage, s1)
  }

  function ParseRequestError(s: bytes): Parse<RequestErrorMessage> {
    var (code, s1) :- ParseVarint(s);
    var (retry, s2) :- ParseVarint(s1);
    var (reason, s3) :- ParseReason(s2);
    Accept(RequestErrorMessage(code, retry, reason), s3)
  }

  function ParsePublishDone(s: bytes): Parse<PublishDoneMessage> {
    var (status, s1) :- ParseVarint(s);
    var (streams, s2) :- ParseVarint(s1);
    var (reason, s3) :- ParseReason(s2);
    Accept(PublishDoneMessage(status, streams, reason), s3)
  }

  // ----- parameters that are dropped -----

  /** Whatever parameters a PUBLISH_NAMESPACE carries, they are read and dropped; it is rejected if and only
      if they cannot be read. */
  lemma NamespaceWithParameters(m: PublishNamespaceMessage, s: bytes)
    requires InLimits(m.trackNamespace)
    ensures ParsePublishNamespace(
              Encode(m.requestId) + (Encode(m.requiredRequestIdDelta) + (NamespaceBytes(m.trackNamespace) + s))) ==
            match ParseParameters(s) case Accept(_, rest) => Accept(m, rest) case Reject => Reject
  {
    hide Encode, NamespaceBytes, ParseVarint, ParseNamespace, ParseParameters;
    var s2 := NamespaceBytes(m.trackNamespace) + s;
    var s1 := Encode(m.requiredRequestIdDelta) + s2;
    RoundTrip(m.requestId, s1);
    RoundTrip(m.requiredRequestIdDelta, s2);
    NamespaceRoundTrip(m.trackNamespace, s);
  }

  /** The same for REQUEST_OK: with any list of kept parameters it is read to its end. */
  lemma RequestOkWithParameters(ps: seq<SpecParameter>, rest: bytes)
    requires |ps| < U64 && Ascending(ps, 0) && AllKept(ps)
    ensures ParseRequestOk(SpecEncoding(ps) + rest) == Accept(RequestOkMessage, rest)
    ensures forall s :: ParseParameters(s).Reject? ==> ParseRequestOk(s).Reject?
  {
    hide ParseParameters, SpecEncoding;
    KeptRoundTrip(ps, rest);
  }

  // ----- payload round trips -----

  lemma NoParameters(rest: bytes)
    ensures EncodeParams([]) == Some(Encode(0))
    ensures ParseParameters(Encode(0) + rest) == Accept([], rest)
  {
    assert Encode(0) + [] == Encode(0);
    ParametersRoundTrip([], rest);
  }

  lemma PublishNamespaceRoundTrip(m: PublishNamespaceMessage)
    requires InLimits(m.trackNamespace)
    ensures ParsePublishNamespace(PublishNamespacePayload(m)) == Accept(m, [])
  {
    hide Encode, NamespaceBytes, ParseVarint, ParseNamespace, ParseParameters, EncodeParams;
    var s3 := Encode(0) + [];
    assert s3 == Encode(0);
    var s2 := NamespaceBytes(m.trackNamespace) + s3;
    var s1 := Encode(m.requiredRequestIdDelta) + s2;
    RoundTrip(m.requestId, s1);
    RoundTrip(m.requiredRequestIdDelta, s2);
    NamespaceRoundTrip(m.trackNamespace, s3);
    NoParameters([]);
  }

  lemma SubscribeRoundTrip(m: SubscribeMessage)
    requires InLimits(m.trackNamespace) && EncodeParams(m.parameters).Some?
    ensures ParseSubscribe(SubscribePayload(m)) == Accept(m, [])
  {
    hide Encode, NamespaceBytes, EncodeBlock, EncodeParams, ParseVarint, ParseNamespace, ParseBlock, ParseParameters;
    var s4 := EncodeParams(m.parameters).value + [];
    assert s4 == EncodeParams(m.parameters).value;
    var s3 := EncodeBlock(m.trackName) + s4;
    var s2 := NamespaceBytes(m.trackNamespace) + s3;
    var s1 := Encode(m.requiredRequestIdDelta) + s2;
    RoundTrip(m.requestId, s1);
    RoundTrip(m.requiredRequestIdDelta, s2);
    NamespaceRoundTrip(m.trackNamespace, s3);
    ParseEncodedBlock(m.trackName, s4);
    ParametersRoundTrip(m.parameters, []);
  }

  lemma SubscribeOkRoundTrip(m: SubscribeOkMessage)
    requires EncodeParams(m.parameters).Some?
    ensures ParseSubscribeOk(SubscribeOkPayload(m)) == Accept(m, [])
  {
    hide Encode, EncodeBlock, EncodeParams, ParseVarint, ParseBlock, ParseParameters;
    var s2 := EncodeBlock(m.trackPropertiesRaw) + [];
    assert s2 == EncodeBlock(m.trackPropertiesRaw);
    var s1 := EncodeParams(m.parameters).value + s2;
    RoundTrip(m.trackAlias, s1);
    ParametersRoundTrip(m.parameters, s2);
    ParseEncodedBlock(m.trackPropertiesRaw, []);
  }

  lemma TwoThenReason(a: u64, b: u64, rp: ReasonPhrase) returns (s1: bytes, s2: bytes)
    ensures ParseVarint(Encode(a) + (Encode(b) + ReasonBytes(rp))) == Accept(a, s1)
    ensures ParseVarint(s1) == Accept(b, s2)
    ensures ParseReason(s2) == if ReasonFits(rp) then Accept(rp, []) else Reject
  {
    hide Encode, ReasonBytes, ParseVarint, ParseReason;
    s2 := ReasonBytes(rp) + [];
    assert s2 == ReasonBytes(rp);
    s1 := Encode(b) + s2;
    RoundTrip(a, s1);
    RoundTrip(b, s2);
    ReasonRoundTrip(rp, []);
  }

  lemma RequestErrorRoundTrip(m: RequestErrorMessage)
    ensures ParseRequestError(RequestErrorPayload(m)) ==
            if ReasonFits(m.reasonPhrase) then Accept(m, []) else Reject
  {
    hide Encode, ReasonBytes, ParseVarint, ParseReason;
    var s1, s2 := TwoThenReason(m.errorCode, m.retryInterval, m.reasonPhrase);
  }

  lemma PublishDoneRoundTrip(m: PublishDoneMessage)
    ensures ParsePublishDone(PublishDonePayload(m)) ==
            if ReasonFits(m.reasonPhrase) then Accept(m, []) else Reject
  {
    hide Encode, ReasonBytes, ParseVarint, ParseReason;
    var s1, s2 := TwoThenReason(m.statusCode, m.streamCount, m.reasonPhrase);
  }

  // ----- payload locality -----

  lemma PublishNamespaceIsLocal(s: bytes, more: bytes)
    requires ParsePublishNamespace(s).Accept?
    ensures ParsePublishNamespace(s + more) ==
            Accept(ParsePublishNamespace(s).value, ParsePublishNamespace(s).rest + more)
  {
    hide ParseVarint, ParseNamespace, ParseParameters;
    ParseIsLocal(s, more);
    var s1 := ParseVarint(s).rest;
    ParseIsLocal(s1, more);
    var s2 := ParseVarint(s1).rest;
    NamespaceIsLocal(s2, more);
    ParametersAreLocal(ParseNamespace(s2).rest, more);
  }

  lemma SubscribeIsLocal(s: bytes, more: bytes)
    requires ParseSubscribe(s).Accept?
    ensures ParseSubscribe(s + more) == Accept(ParseSubscribe(s).value, ParseSubscribe(s).rest + more)
  {
    hide ParseVarint, ParseNamespace, ParseBlock, ParseParameters;
    ParseIsLocal(s, more);
    var s1 := ParseVarint(s).rest;
    ParseIsLocal(s1, more);
    var s2 := ParseVarint(s1).rest;
    NamespaceIsLocal(s2, more);
    var s3 := ParseNamespace(s2).rest;
    BlockIsLocal(s3, more);
    ParametersAreLocal(ParseBlock(s3).rest, more);
  }

  lemma SubscribeOkIsLocal(s: bytes, more: bytes)
    requires ParseSubscribeOk(s).Accept?
    ensures ParseSubscribeOk(s + more) == Accept(ParseSubscribeOk(s).value, ParseSubscribeOk(s).rest + more)
  {
    hide ParseVarint, ParseBlock, ParseParameters;
    ParseIsLocal(s, more);
    var s1 := ParseVarint(s).rest;
    ParametersAreLocal(s1, more);
    BlockIsLocal(ParseParameters(s1).rest, more);
  }

  // ----- typed messages -----

  function TypeOfMessage(m: RequestMessage): u64 {
    match m
    case PublishNamespace(_) => MSG_PUBLISH_NAMESPACE
    case Subscribe(_) => MSG_SUBSCRIBE
    case SubscribeOk(_) => MSG_SUBSCRIBE_OK
    case RequestOk(_) => MSG_REQUEST_OK
    case RequestError(_) => MSG_REQUEST_ERROR
    case PublishDone(_) => MSG_PUBLISH_DONE
  }

  /** The payload that encode builds, or nothing where encode returns an error. */
  function PayloadOf(m: RequestMessage): Option<bytes> {
    match m
    case PublishNamespace(p) =>
      if InLimits(p.trackNamespace) then Some(PublishNamespacePayload(p)) else None
    case Subscribe(p) =>
      if InLimits(p.trackNamespace) && EncodeParams(p.parameters).Some? then Some(SubscribePayload(p)) else None
    case SubscribeOk(p) =>
      if EncodeParams(p.parameters).Some? then Some(SubscribeOkPayload(p)) else None
    case RequestOk(_) => Some(Encode(0))
    case RequestError(p) => Some(RequestErrorPayload(p))
    case PublishDone(p) => Some(PublishDonePayload(p))
  }

  function MapParse<T, U>(f: T -> U, p: Parse<T>): Parse<U> {
    match p case Reject => Reject case Accept(value, rest) => Accept(f(value), rest)
  }

  function ParsePayload(t: u64, s: bytes): Parse<RequestMessage> {
    if t == MSG_PUBLISH_NAMESPACE then MapParse(m => PublishNamespace(m), ParsePublishNamespace(s))
    else if t == MSG_SUBSCRIBE then MapParse(m => Subscribe(m), ParseSubscribe(s))
    else if t == MSG_SUBSCRIBE_OK then MapParse(m => SubscribeOk(m), ParseSubscribeOk(s))
    else if t == MSG_REQUEST_OK then MapParse(m => RequestOk(m), ParseRequestOk(s))
    else if t == MSG_REQUEST_ERROR then MapParse(m => RequestError(m), ParseRequestError(s))
    else if t == MSG_PUBLISH_DONE then MapParse(m => PublishDone(m), ParsePublishDone(s))
    else Reject
  }

  /** A message of type `t`. Bytes of the payload that the message does not use are ignored. */
  function OfType<T>(t: u64, payload: bytes -> Parse<T>, s: bytes): Parse<T> {
    var (frame, rest) :- ParseFrame(s);
    if frame.msgType != t then Reject
    else
      var (m, _) :- payload(frame.payload);
      Accept(m, rest)
  }

  /** parse_request_message, with the bytes that its caller's frame would leave. */
  function ParseRequest(s: bytes): Parse<RequestMessage> {
    var (frame, rest) :- ParseFrame(s);
    var (m, _) :- ParsePayload(frame.msgType, frame.payload);
    Accept(m, rest)
  }

  /** The typed decoders and the dispatch on the type say the same: each accepts precisely the frames that the
      dispatch takes for its message. */
  lemma TypedDecodersAgree(s: bytes)
    ensures OfType(MSG_PUBLISH_NAMESPACE, ParsePublishNamespace, s) ==
            match ParseRequest(s) case Accept(PublishNamespace(m), rest) => Accept(m, rest) case _ => Reject
    ensures OfType(MSG_SUBSCRIBE, ParseSubscribe, s) ==
            match ParseRequest(s) case Accept(Subscribe(m), rest) => Accept(m, rest) case _ => Reject
    ensures OfType(MSG_SUBSCRIBE_OK, ParseSubscribeOk, s) ==
            match ParseRequest(s) case Accept(SubscribeOk(m), rest) => Accept(m, rest) case _ => Reject
    ensures OfType(MSG_REQUEST_OK, ParseRequestOk, s) ==
            match ParseRequest(s) case Accept(RequestOk(m), rest) => Accept(m, rest) case _ => Reject
    ensures OfType(MSG_REQUEST_ERROR, ParseRequestError, s) ==
            match ParseRequest(s) case Accept(RequestError(m), rest) => Accept(m, rest) case _ => Reject
    ensures OfType(MSG_PUBLISH_DONE, ParsePublishDone, s) ==
            match ParseRequest(s) case Accept(PublishDone(m), rest) => Accept(m, rest) case _ => Reject
  {
    hide ParseFrame, ParsePublishNamespace, ParseSubscribe, ParseSubscribeOk, ParseRequestOk, ParseRequestError,
      ParsePublishDone;
  }

  /** A frame of any other type is rejected, whatever it carries. */
  lemma OtherTypesAreRejected(t: u64, payload: bytes, rest: bytes)
    requires t !in {MSG_SUBSCRIBE, MSG_SUBSCRIBE_OK, MSG_REQUEST_ERROR, MSG_PUBLISH_NAMESPACE, MSG_REQUEST_OK,
                    MSG_PUBLISH_DONE}
    ensures ParseRequest(FrameBytes(t, payload) + rest) == Reject
  {
    hide ParseFrame, FrameBytes;
    FrameRoundTrip(t, payload, rest);
  }

  function MessageBytes(m: RequestMessage): Option<bytes> {
    match PayloadOf(m) case None => None case Some(p) => Some(FrameBytes(TypeOfMessage(m), p))
  }

  predicate ReasonInLimit(m: RequestMessage) {
    match m
    case RequestError(p) => ReasonFits(p.reasonPhrase)
    case PublishDone(p) => ReasonFits(p.reasonPhrase)
    case _ => true
  }

  lemma PayloadRoundTrip(m: RequestMessage)
    requires PayloadOf(m).Some?
    ensures ParsePayload(TypeOfMessage(m), PayloadOf(m).value) == if ReasonInLimit(m) then Accept(m, []) else Reject
  {
    hide Encode, EncodeParams, InLimits, ReasonFits, ParseParameters;
    hide PublishNamespacePayload, SubscribePayload, SubscribeOkPayload, RequestErrorPayload, PublishDonePayload;
    hide ParsePublishNamespace, ParseSubscribe, ParseSubscribeOk, ParseRequestError, ParsePublishDone;
    match m
    case PublishNamespace(p) => PublishNamespaceRoundTrip(p);
    case Subscribe(p) => SubscribeRoundTrip(p);
    case SubscribeOk(p) => SubscribeOkRoundTrip(p);
    case RequestOk(p) =>
      NoParameters([]);
      assert p == RequestOkMessage;
      assert Encode(0) + [] == Encode(0);
    case RequestError(p) => RequestErrorRoundTrip(p);
    case PublishDone(p) => PublishDoneRoundTrip(p);
  }

  lemma RequestErrorIsLocal(s: bytes, more: bytes)
    requires ParseRequestError(s).Accept?
    ensures ParseRequestError(s + more) == Accept(ParseRequestError(s).value, ParseRequestError(s).rest + more)
  {
    hide ParseVarint, ParseReason;
    ParseIsLocal(s, more);
    ParseIsLocal(ParseVarint(s).rest, more);
    ReasonIsLocal(ParseVarint(ParseVarint(s).rest).rest, more);
  }

  lemma PublishDoneIsLocal(s: bytes, more: bytes)
    requires ParsePublishDone(s).Accept?
    ensures ParsePublishDone(s + more) == Accept(ParsePublishDone(s).value, ParsePublishDone(s).rest + more)
  {
    hide ParseVarint, ParseReason;
    ParseIsLocal(s, more);
    ParseIsLocal(ParseVarint(s).rest, more);
    ReasonIsLocal(ParseVarint(ParseVarint(s).rest).rest, more);
  }

  lemma PayloadIsLocal(t: u64, s: bytes, more: bytes)
    requires ParsePayload(t, s).Accept?
    ensures ParsePayload(t, s + more) == Accept(ParsePayload(t, s).value, ParsePayload(t, s).rest + more)
  {
    hide ParsePublishNamespace, ParseSubscribe, ParseSubscribeOk, ParseRequestError, ParsePublishDone, ParseParameters;
    if t == MSG_PUBLISH_NAMESPACE {
      PublishNamespaceIsLocal(s, more);
    } else if t == MSG_SUBSCRIBE {
      SubscribeIsLocal(s, more);
    } else if t == MSG_SUBSCRIBE_OK {
      SubscribeOkIsLocal(s, more);
    } else if t == MSG_REQUEST_OK {
      ParametersAreLocal(s, more);
    } else if t == MSG_REQUEST_ERROR {
      RequestErrorIsLocal(s, more);
    } else {
      PublishDoneIsLocal(s, more);
    }
  }

  /** A message comes back from its encoding if and only if its payload fits the 16-bit length and
      its reason phrase fits the decoder's limit. */
  lemma MessageRoundTrip(m: RequestMessage, rest: bytes)
    requires PayloadOf(m).Some?
    ensures var back := ParseRequest(MessageBytes(m).value + rest);
            (back.Accept? && back.value == m) <==> (|PayloadOf(m).value| < U16 && ReasonInLimit(m))
    ensures |PayloadOf(m).value| < U16 && ReasonInLimit(m) ==>
              ParseRequest(MessageBytes(m).value + rest) == Accept(m, rest)
  {
    hide PayloadOf, ParsePayload, FrameBytes, ParseFrame, ReasonInLimit;
    var t, p := TypeOfMessage(m), PayloadOf(m).value;
    FrameRoundTrip(t, p, rest);
    PayloadRoundTrip(m);
    if |p| < U16 {
      assert |p| % U16 == |p| && p[..|p|] == p && p[|p|..] + rest == rest;
    } else {
      TruncatedPayload(m, |p| % U16);
    }
  }

  /** Nothing that is cut off the end of a payload can be missed without the message changing. */
  lemma TruncatedPayload(m: RequestMessage, n: nat)
    requires PayloadOf(m).Some? && n < |PayloadOf(m).value|
    ensures ParsePayload(TypeOfMessage(m), PayloadOf(m).value[..n]) != Accept(m, [])
    ensures var q := ParsePayload(TypeOfMessage(m), PayloadOf(m).value[..n]); q.Reject? || q.value != m
  {
    hide PayloadOf, ParsePayload, ReasonInLimit;
    var t, p := TypeOfMessage(m), PayloadOf(m).value;
    assert p == p[..n] + p[n..];
    PayloadRoundTrip(m);
    if ParsePayload(t, p[..n]).Accept? {
      PayloadIsLocal(t, p[..n], p[n..]);
    }
  }

  /** For REQUEST_ERROR and PUBLISH_DONE the limit on the reason phrase implies the limit on the
      payload, so the reason phrase alone decides. */
  lemma ReasonDecides(m: RequestMessage, rest: bytes)
    requires m.RequestError? || m.PublishDone?
    ensures var back := ParseRequest(MessageBytes(m).value + rest);
            (back.Accept? && back.value == m) <==> ReasonInLimit(m)
  {
    hide Encode, ParseRequest, MessageBytes;
    MessageRoundTrip(m, rest);
  }

  // ----- the code -----

  lemma Concat4(a: bytes, b: bytes, c: bytes, d: bytes)
    ensures a + b + c + d == a + (b + (c + d))
  {
  }

  lemma Concat5(a: bytes, b: bytes, c: bytes, d: bytes, e: bytes)
    ensures a + b + c + d + e == a + (b + (c + (d + e)))
  {
  }

  method EncodePublishNamespace(m: PublishNamespaceMessage, buf: Buffer) returns (r: Result<()>)
    modifies buf
    ensures match MessageBytes(PublishNamespace(m))
            case Some(s) => r == Ok(()) && buf.data == old(buf.data) + s
            case None => r == Err
  {
    hide Encode, NamespaceBytes, InLimits, EncodeParams, FrameBytes;
    var payload := new Buffer();
    EncodeVarint(m.requestId, payload);
    EncodeVarint(m.requiredRequestIdDelta, payload);
    var _ :- EncodeTrackNamespace(m.trackNamespace, payload);
    NoParameters([]);
    var never := EncodeParameters([], payload); // an empty list never fails
    NoPrefix(Encode(m.requestId));
    Concat4(Encode(m.requestId), Encode(m.requiredRequestIdDelta), NamespaceBytes(m.trackNamespace), Encode(0));
    EncodeMessage(MSG_PUBLISH_NAMESPACE, payload.data, buf);
    r := Ok(());
  }

  lemma NoPrefix(s: bytes)
    ensures [] + s == s
  {
  }

  method DecodePublishNamespace(buf: Cursor) returns (r: Result<PublishNamespaceMessage>)
    modifies buf
    ensures Follows(r, buf.left, OfType(MSG_PUBLISH_NAMESPACE, ParsePublishNamespace, old(buf.left)))
  {
    hide ParseVarint, ParseNamespace, ParseParameters, ParseFrame;
    var frame :- DecodeMessage(buf);
    if frame.msgType != MSG_PUBLISH_NAMESPACE {
      return Err;
    }
    var p := new Cursor(frame.payload);
    var requestId :- DecodeVarint(p);
    var requiredRequestIdDelta :- DecodeVarint(p);
    var trackNamespace :- DecodeTrackNamespace(p);
    var _ :- DecodeParameters(p);
    r := Ok(PublishNamespaceMessage(requestId, requiredRequestIdDelta, trackNamespace));
  }

  method EncodeSubscribe(m: SubscribeMessage, buf: Buffer) returns (r: Result<()>)
    modifies buf
    ensures match MessageBytes(Subscribe(m))
            case Some(s) => r == Ok(()) && buf.data == old(buf.data) + s
            case None => r == Err
  {
    hide Encode, NamespaceBytes, InLimits, EncodeParams, FrameBytes;
    var payload := new Buffer();
    EncodeVarint(m.requestId, payload);
    EncodeVarint(m.requiredRequestIdDelta, payload);
    var _ :- EncodeTrackNamespace(m.trackNamespace, payload);
    EncodeVarint(|m.trackName|, payload);
    payload.Extend(m.trackName);
    var _ :- EncodeParameters(m.parameters, payload);
    NoPrefix(Encode(m.requestId));
    ghost var head := Encode(m.requestId) + Encode(m.requiredRequestIdDelta) + NamespaceBytes(m.trackNamespace);
    Concat3(head, Encode(|m.trackName|), m.trackName);
    Concat5(Encode(m.requestId), Encode(m.requiredRequestIdDelta), NamespaceBytes(m.trackNamespace),
            EncodeBlock(m.trackName), EncodeParams(m.parameters).value);
    EncodeMessage(MSG_SUBSCRIBE, payload.data, buf);
    r := Ok(());
  }

  method DecodeSubscribe(buf: Cursor) returns (r: Result<SubscribeMessage>)
    modifies buf
    ensures Follows(r, buf.left, OfType(MSG_SUBSCRIBE, ParseSubscribe, old(buf.left)))
  {
    hide ParseVarint, ParseNamespace, ParseParameters, ParseFrame;
    var frame :- DecodeMessage(buf);
    if frame.msgType != MSG_SUBSCRIBE {
      return Err;
    }
    var p := new Cursor(frame.payload);
    var requestId :- DecodeVarint(p);
    var requiredRequestIdDelta :- DecodeVarint(p);
    var trackNamespace :- DecodeTrackNamespace(p);
    var nameLen :- DecodeVarint(p);
    var trackName :- p.Take(nameLen);
    var parameters :- DecodeParameters(p);
    r := Ok(SubscribeMessage(requestId, requiredRequestIdDelta, trackNamespace, trackName, parameters));
  }

  method EncodeSubscribeOk(m: SubscribeOkMessage, buf: Buffer) returns (r: Result<()>)
    modifies buf
    ensures match MessageBytes(SubscribeOk(m))
            case Some(s) => r == Ok(()) && buf.data == old(buf.data) + s
            case None => r == Err
  {
    hide Encode, EncodeParams, FrameBytes;
    var payload := new Buffer();
    EncodeVarint(m.trackAlias, payload);
    var _ :- EncodeParameters(m.parameters, payload);
    EncodeVarint(|m.trackPropertiesRaw|, payload);
    payload.Extend(m.trackPropertiesRaw);
    NoPrefix(Encode(m.trackAlias));
    Concat4(Encode(m.trackAlias), EncodeParams(m.parameters).value, Encode(|m.trackPropertiesRaw|),
            m.trackPropertiesRaw);
    EncodeMessage(MSG_SUBSCRIBE_OK, payload.data, buf);
    r := Ok(());
  }

  method DecodeSubscribeOk(buf: Cursor) returns (r: Result<SubscribeOkMessage>)
    modifies buf
    ensures Follows(r, buf.left, OfType(MSG_SUBSCRIBE_OK, ParseSubscribeOk, old(buf.left)))
  {
    hide ParseVarint, ParseParameters, ParseFrame;
    var frame :- DecodeMessage(buf);
    if frame.msgType != MSG_SUBSCRIBE_OK {
      return Err;
    }
    var p := new Cursor(frame.payload);
    var trackAlias :- DecodeVarint(p);
    var parameters :- DecodeParameters(p);
    var propsLen :- DecodeVarint(p);
    var trackPropertiesRaw :- p.Take(propsLen);
    r := Ok(SubscribeOkMessage(trackAlias, parameters, trackPropertiesRaw));
  }

  method EncodeRequestOk(m: RequestOkMessage, buf: Buffer)
    modifies buf
    ensures buf.data == old(buf.data) + MessageBytes(RequestOk(m)).value
  {
    hide Encode, EncodeParams, FrameBytes;
    var payload := new Buffer();
    NoParameters([]);
    NoPrefix(Encode(0));
    var never := EncodeParameters([], payload); // an empty list never fails
    EncodeMessage(MSG_REQUEST_OK, payload.data, buf);
  }

  method DecodeRequestOk(buf: Cursor) returns (r: Result<RequestOkMessage>)
    modifies buf
    ensures Follows(r, buf.left, OfType(MSG_REQUEST_OK, ParseRequestOk, old(buf.left)))
  {
    hide ParseVarint, ParseParameters, ParseFrame;
    var frame :- DecodeMessage(buf);
    if frame.msgType != MSG_REQUEST_OK {
      return Err;
    }
    var p := new Cursor(frame.payload);
    var _ :- DecodeParameters(p);
    r := Ok(RequestOkMessage);
  }

  method EncodeRequestError(m: RequestErrorMessage, buf: Buffer)
    modifies buf
    ensures buf.data == old(buf.data) + MessageBytes(RequestError(m)).value
  {
    hide Encode, ReasonBytes, FrameBytes;
    var payload := new Buffer();
    EncodeVarint(m.errorCode, payload);
    EncodeVarint(m.retryInterval, payload);
    EncodeReasonPhrase(m.reasonPhrase, payload);
    NoPrefix(Encode(m.errorCode));
    Concat3(Encode(m.errorCode), Encode(m.retryInterval), ReasonBytes(m.reasonPhrase));
    EncodeMessage(MSG_REQUEST_ERROR, payload.data, buf);
  }

  method DecodeRequestError(buf: Cursor) returns (r: Result<RequestErrorMessage>)
    modifies buf
    ensures Follows(r, buf.left, OfType(MSG_REQUEST_ERROR, ParseRequestError, old(buf.left)))
  {
    hide ParseVarint, ParseReason, ParseFrame;
    var frame :- DecodeMessage(buf);
    if frame.msgType != MSG_REQUEST_ERROR {
      return Err;
    }
    var p := new Cursor(frame.payload);
    var errorCode :- DecodeVarint(p);
    var retryInterval :- DecodeVarint(p);
    var reasonPhrase :- DecodeReasonPhrase(p);
    r := Ok(RequestErrorMessage(errorCode, retryInterval, reasonPhrase));
  }

  method EncodePublishDone(m: PublishDoneMessage, buf: Buffer)
    modifies buf
    ensures buf.data == old(buf.data) + MessageBytes(PublishDone(m)).value
  {
    hide Encode, ReasonBytes, FrameBytes;
    var payload := new Buffer();
    EncodeVarint(m.statusCode, payload);
    EncodeVarint(m.streamCount, payload);
    EncodeReasonPhrase(m.reasonPhrase, payload);
    NoPrefix(Encode(m.statusCode));
    Concat3(Encode(m.statusCode), Encode(m.streamCount), ReasonBytes(m.reasonPhrase));
    EncodeMessage(MSG_PUBLISH_DONE, payload.data, buf);
  }

  method DecodePublishDone(buf: Cursor) returns (r: Result<PublishDoneMessage>)
    modifies buf
    ensures Follows(r, buf.left, OfType(MSG_PUBLISH_DONE, ParsePublishDone, old(buf.left)))
  {
    hide ParseVarint, ParseReason, ParseFrame;
    var frame :- DecodeMessage(buf);
    if frame.msgType != MSG_PUBLISH_DONE {
      return Err;
    }
    var p := new Cursor(frame.payload);
    var statusCode :- DecodeVarint(p);
    var streamCount :- DecodeVarint(p);
    var reasonPhrase :- DecodeReasonPhrase(p);
    r := Ok(PublishDoneMessage(statusCode, streamCount, reasonPhrase));
  }

  /** The type is read twice: once to choose the decoder, once by the decoder. */
  method ParseRequestMessage(s: bytes) returns (r: Result<RequestMessage>)
    ensures r == match ParseRequest(s) case Accept(m, _) => Ok(m) case Reject => Err
  {
    hide ParseVarint, ParseFrame, ParsePublishNamespace, ParseSubscribe, ParseSubscribeOk, ParseRequestOk,
      ParseRequestError, ParsePublishDone;
    var slice := new Cursor(s);
    FrameNeedsType(s);
    var msgType :- DecodeVarint(slice);
    slice := new Cursor(s);
    if msgType == MSG_PUBLISH_NAMESPACE {
      var m :- DecodePublishNamespace(slice);
      r := Ok(PublishNamespace(m));
    } else if msgType == MSG_SUBSCRIBE {
      var m :- DecodeSubscribe(slice);
      r := Ok(Subscribe(m));
    } else if msgType == MSG_SUBSCRIBE_OK {
      var m :- DecodeSubscribeOk(slice);
      r := Ok(SubscribeOk(m));
    } else if msgType == MSG_REQUEST_OK {
      var m :- DecodeRequestOk(slice);
      r := Ok(RequestOk(m));
    } else if msgType == MSG_REQUEST_ERROR {
      var m :- DecodeRequestError(slice);
      r := Ok(RequestError(m));
    } else if msgType == MSG_PUBLISH_DONE {
      var m :- DecodePublishDone(slice);
      r := Ok(PublishDone(m));
    } else {
      r := Err;
    }
  }

  lemma FrameNeedsType(s: bytes)
    ensures ParseFrame(s).Accept? ==> ParseVarint(s).Accept? && ParseVarint(s).value == ParseFrame(s).value.msgType
  {
    hide ParseVarint, ParseLength;
  }
}
