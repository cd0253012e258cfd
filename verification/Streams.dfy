/** Reading from a QUIC stream: varints and message frames (moqt-core/src/stream/mod.rs), request
    streams (stream/request.rs) and data streams (stream/data.rs). Each reader is tied to the slice
    parser of the same shape. */
module Streams {
  import opened Words
  import opened Codec
  import opened Varint
  import opened Blocks
  import opened Wire
  import opened Messages
  import opened Subgroups

  /** The two kinds of error that read_object tells apart. */
  datatype StreamResult<+T> = Done(value: T) | ReadExactError | OtherError {
    predicate IsFailure() { !Done? }

    function PropagateFailure<U>(): (r: StreamResult<U>)
      requires !Done?
      ensures !r.Done? && r.ReadExactError? == ReadExactError?
    {
      if ReadExactError? then ReadExactError else OtherError
    }

    function Extract(): T
      requires Done?
    {
      value
    }
  }

  /** The receive side of a stream: the bytes that the peer delivers before the stream ends, by FIN
      or by a reset, and that have not been read. */
  class RecvStream {
    var unread: bytes

    constructor (content: bytes)
      ensures unread == content
    {
      unread := content;
    }

    method ReadExact(n: nat) returns (r: StreamResult<bytes>)
      modifies this
      ensures if n <= |old(unread)| then r == Done(old(unread)[..n]) && unread == old(unread)[n..]
              else r == ReadExactError
    {
      if |unread| < n {
        unread := [];
        return ReadExactError;
      }
      r := Done(unread[..n]);
      unread := unread[n..];
    }
  }

  /** The part of `s` that was consumed when `rest` is left. */
  function Consumed(s: bytes, rest: bytes): bytes {
    if |rest| <= |s| then s[..|s| - |rest|] else []
  }

  predicate Splits(s: bytes, rest: bytes) { |rest| <= |s| && s == Consumed(s, rest) + rest }

  /** A stream reader that returned `r` and left `left` did what the slice parser says of the whole
      stream content `s`, and returned exactly the bytes it consumed. */
  predicate Reads<T(==)>(r: StreamResult<(T, bytes)>, left: bytes, s: bytes, p: Parse<T>) {
    match p
    case Accept(value, rest) => r == Done((value, Consumed(s, rest))) && left == rest && Splits(s, rest)
    case Reject => !r.Done?
  }

  lemma ConsumedTwice(s: bytes, s1: bytes, s2: bytes)
    requires Splits(s, s1) && Splits(s1, s2)
    ensures Consumed(s, s2) == Consumed(s, s1) + Consumed(s1, s2) && Splits(s, s2)
  {
  }

  lemma ConsumedNothing(s: bytes)
    ensures Consumed(s, s) == [] && Splits(s, s)
  {
  }

  lemma ConsumedPrefix(s: bytes, n: nat)
    requires n <= |s|
    ensures Consumed(s, s[n..]) == s[..n] && Splits(s, s[n..])
  {
  }

  // ----- a parser needs no more than what it consumes -----

  lemma VarintSuffices(s: bytes)
    requires ParseVarint(s).Accept?
    ensures var Accept(v, rest) := ParseVarint(s);
            Splits(s, rest) && ParseVarint(Consumed(s, rest)) == Accept(v, [])
  {
    var k := Width(s[0]);
    ConsumedPrefix(s, k);
    assert s[..k][..k] == s[..k];
  }

  lemma BlockSuffices(s: bytes)
    requires ParseBlock(s).Accept?
    ensures var Accept(b, rest) := ParseBlock(s);
            Splits(s, rest) && ParseBlock(Consumed(s, rest)) == Accept(b, [])
  {
    hide ParseVarint, Consumed;
    var Accept(len, s1) := ParseVarint(s);
    VarintSuffices(s);
    ConsumedPrefix(s1, len);
    ConsumedTwice(s, s1, s1[len..]);
    ParseIsLocal(Consumed(s, s1), s1[..len]);
    assert [] + s1[..len] == s1[..len] && s1[..len][..len] == s1[..len];
  }

  lemma OptionalIdSuffices(t: u64, s: bytes)
    requires ParseOptionalId(t, s).Accept?
    ensures var Accept(id, rest) := ParseOptionalId(t, s);
            Splits(s, rest) && ParseOptionalId(t, Consumed(s, rest)) == Accept(id, [])
  {
    hide ParseVarint;
    if IdMode(t) == 2 {
      VarintSuffices(s);
    }
  }

  lemma PrioritySuffices(t: u64, s: bytes)
    requires ParsePriority(t, s).Accept?
    ensures var Accept(p, rest) := ParsePriority(t, s);
            Splits(s, rest) && ParsePriority(t, Consumed(s, rest)) == Accept(p, [])
  {
    if HasPriority(t) {
      ConsumedPrefix(s, 1);
    }
  }

  lemma OptionalIdIsLocal(t: u64, s: bytes, more: bytes)
    requires ParseOptionalId(t, s).Accept?
    ensures ParseOptionalId(t, s + more) == Accept(ParseOptionalId(t, s).value, ParseOptionalId(t, s).rest + more)
  {
    hide ParseVarint;
    if IdMode(t) == 2 {
      ParseIsLocal(s, more);
    }
  }

  lemma PriorityIsLocal(t: u64, s: bytes, more: bytes)
    requires ParsePriority(t, s).Accept?
    ensures ParsePriority(t, s + more) == Accept(ParsePriority(t, s).value, ParsePriority(t, s).rest + more)
  {
    if HasPriority(t) {
      assert (s + more)[1..] == s[1..] + more;
    }
  }

  lemma HeaderIsLocal(s: bytes, more: bytes)
    requires ParseHeader(s).Accept?
    ensures ParseHeader(s + more) == Accept(ParseHeader(s).value, ParseHeader(s).rest + more)
  {
    hide ParseVarint, ParseOptionalId, ParsePriority;
    var Accept(t, s1) := ParseVarint(s);
    ParseIsLocal(s, more);
    ParseIsLocal(s1, more);
    var s2 := ParseVarint(s1).rest;
    ParseIsLocal(s2, more);
    var s3 := ParseVarint(s2).rest;
    OptionalIdIsLocal(t, s3, more);
    PriorityIsLocal(t, ParseOptionalId(t, s3).rest, more);
  }

  /** Prefixing a parser's own consumed bytes to what comes next gives back its value. */
  lemma VarintThen(s: bytes, rest: bytes)
    requires ParseVarint(s).Accept? && Splits(ParseVarint(s).rest, rest)
    ensures Splits(s, rest)
    ensures ParseVarint(Consumed(s, rest)) == Accept(ParseVarint(s).value, Consumed(ParseVarint(s).rest, rest))
  {
    hide ParseVarint, Consumed;
    VarintSuffices(s);
    var s1 := ParseVarint(s).rest;
    ConsumedTwice(s, s1, rest);
    ParseIsLocal(Consumed(s, s1), Consumed(s1, rest));
    assert [] + Consumed(s1, rest) == Consumed(s1, rest);
  }

  lemma OptionalIdThen(t: u64, s: bytes, rest: bytes)
    requires ParseOptionalId(t, s).Accept? && Splits(ParseOptionalId(t, s).rest, rest)
    ensures Splits(s, rest)
    ensures ParseOptionalId(t, Consumed(s, rest)) ==
            Accept(ParseOptionalId(t, s).value, Consumed(ParseOptionalId(t, s).rest, rest))
  {
    hide ParseOptionalId, Consumed;
    OptionalIdSuffices(t, s);
    var s1 := ParseOptionalId(t, s).rest;
    ConsumedTwice(s, s1, rest);
    OptionalIdIsLocal(t, Consumed(s, s1), Consumed(s1, rest));
    assert [] + Consumed(s1, rest) == Consumed(s1, rest);
  }

  lemma HeaderSuffices(s: bytes)
    requires ParseHeader(s).Accept?
    ensures var Accept(h, rest) := ParseHeader(s);
            Splits(s, rest) && ParseHeader(Consumed(s, rest)) == Accept(h, [])
  {
    hide ParseVarint, ParseOptionalId, ParsePriority, Consumed, Splits;
    var Accept(t, s1) := ParseVarint(s);
    var s2 := ParseVarint(s1).rest;
    var s3 := ParseVarint(s2).rest;
    var s4 := ParseOptionalId(t, s3).rest;
    var rest := ParsePriority(t, s4).rest;
    PrioritySuffices(t, s4);
    OptionalIdThen(t, s3, rest);
    VarintThen(s2, rest);
    VarintThen(s1, rest);
    VarintThen(s, rest);
  }

  lemma LengthSuffices(s: bytes)
    requires ParseLength(s).Accept?
    ensures Splits(s, ParseLength(s).rest)
    ensures forall more :: ParseLength(Consumed(s, ParseLength(s).rest) + more) == Accept(ParseLength(s).value, more)
  {
    ConsumedPrefix(s, 2);
    forall more: bytes
      ensures ParseLength(s[..2] + more) == Accept(ParseLength(s).value, more)
    {
      assert (s[..2] + more)[2..] == more;
    }
  }

  lemma FrameSuffices(s: bytes)
    requires ParseFrame(s).Accept?
    ensures var Accept(f, rest) := ParseFrame(s);
            Splits(s, rest) && ParseFrame(Consumed(s, rest)) == Accept(f, [])
  {
    hide ParseVarint, ParseLength, Consumed, Splits;
    var Accept(t, s1) := ParseVarint(s);
    var Accept(n, s2) := ParseLength(s1);
    LengthSuffices(s1);
    ConsumedPrefix(s2, n);
    ConsumedTwice(s1, s2, s2[n..]);
    VarintThen(s, s2[n..]);
    assert s2[..n][..n] == s2[..n] && s2[..n][n..] == [];
  }

  /** A frame that is complete is the same whatever follows; so a frame that is cut off is no frame. */
  lemma FrameIsLocal(s: bytes, more: bytes)
    requires ParseFrame(s).Accept?
    ensures ParseFrame(s + more) == Accept(ParseFrame(s).value, ParseFrame(s).rest + more)
  {
    hide ParseVarint, ParseLength;
    ParseIsLocal(s, more);
    var s1 := ParseVarint(s).rest;
    LengthSuffices(s1);
    var s2 := ParseLength(s1).rest;
    var n := ParseLength(s1).value;
    Concat3(Consumed(s1, s2), s2, more);
    TakeIsLocal(s2, n, more);
  }

  /** No proper prefix of a frame is read as a frame. */
  lemma CutFrame(t: u64, payload: bytes, n: nat)
    requires |payload| < U16 && n < |FrameBytes(t, payload)|
    ensures ParseFrame(FrameBytes(t, payload)[..n]).Reject?
  {
    hide FrameBytes, ParseFrame;
    var all := FrameBytes(t, payload);
    var s := all[..n];
    assert s + all[n..] == all && all + [] == all;
    FrameRoundTrip(t, payload, []);
    assert payload[|payload|..] + [] == [] && all[n..] != [];
    if ParseFrame(s).Accept? {
      FrameIsLocal(s, all[n..]);
    }
  }

  /** What a message frame means does not depend on what follows it. */
  lemma RequestSuffices(s: bytes)
    requires ParseFrame(s).Accept?
    ensures var rest := ParseFrame(s).rest;
            ParseRequest(s) == match ParseRequest(Consumed(s, rest))
                               case Accept(m, _) => Accept(m, rest)
                               case Reject => Reject
  {
    hide ParseFrame, ParsePayload;
    FrameSuffices(s);
  }

  // ----- the code -----

  /** read_varint. The only decoding error is the first byte 0xfc. */
  method ReadVarint(stream: RecvStream) returns (r: StreamResult<(u64, bytes)>)
    modifies stream
    ensures Reads(r, stream.unread, old(stream.unread), ParseVarint(old(stream.unread)))
    ensures r.OtherError? <==> old(stream.unread) != [] && old(stream.unread)[0] == 0xfc
  {
    ghost var s := stream.unread;
    var first :- stream.ReadExact(1);
    var totalLen := VarintByteLength(first[0]);
    if totalLen.Err? {
      return OtherError;
    }
    var raw := first;
    if totalLen.value > 1 {
      var more :- stream.ReadExact(totalLen.value - 1);
      raw := raw + more;
    }
    ReadInTwo(s, totalLen.value);
    var slice := new Cursor(raw);
    var value := DecodeVarint(slice);
    if value.Err? {
      return OtherError;
    }
    r := Done((value.value, raw));
  }

  lemma ReadInTwo(s: bytes, k: nat)
    requires 1 <= k <= |s| && Width(s[0]) == k
    ensures k > 1 ==> s[..1] + s[1..][..k - 1] == s[..k] && s[1..][k - 1..] == s[k..]
    ensures ParseVarint(s).Accept? && ParseVarint(s).rest == s[k..]
    ensures Consumed(s, s[k..]) == s[..k] && Splits(s, s[k..])
    ensures ParseVarint(s[..k]) == Accept(ParseVarint(s).value, [])
  {
    ConsumedPrefix(s, k);
    VarintSuffices(s);
  }

  /** read_message_frame returns the raw bytes of the frame. */
  method ReadMessageFrame(stream: RecvStream) returns (r: StreamResult<bytes>)
    modifies stream
    ensures match ParseFrame(old(stream.unread))
            case Accept(_, rest) =>
              r == Done(Consumed(old(stream.unread), rest)) && stream.unread == rest && Splits(old(stream.unread), rest)
            case Reject => !r.Done?
  {
    hide ParseVarint, Consumed;
    ghost var s := stream.unread;
    var msgType :- ReadVarint(stream);
    ghost var s1 := stream.unread;
    var lenBytes :- stream.ReadExact(2);
    var payloadLen: nat := (lenBytes[0] as int) * 256 + lenBytes[1] as int;
    ghost var s2 := stream.unread;
    var payload: bytes := [];
    if payloadLen > 0 {
      payload :- stream.ReadExact(payloadLen);
    }
    ConsumedPrefix(s1, 2);
    ConsumedPrefix(s2, payloadLen);
    ConsumedTwice(s, s1, s2);
    ConsumedTwice(s, s2, s2[payloadLen..]);
    var result := msgType.1;
    result := result + lenBytes;
    result := result + payload;
    r := Done(result);
  }

  class RequestStreamReader {
    const stream: RecvStream

    constructor (stream: RecvStream)
      ensures this.stream == stream
    {
      this.stream := stream;
    }

    /** Reading a message from the stream is parsing the head of the stream content. */
    method ReadMessage() returns (r: StreamResult<RequestMessage>)
      modifies stream
      ensures match ParseRequest(old(stream.unread))
              case Accept(m, rest) => r == Done(m) && stream.unread == rest
              case Reject => !r.Done?
    {
      hide ParseFrame, ParsePayload, Consumed, Splits;
      ghost var s := stream.unread;
      var raw :- ReadMessageFrame(stream);
      RequestSuffices(s);
      var m := ParseRequestMessage(raw);
      r := if m.Ok? then Done(m.value) else OtherError;
    }
  }

  class DataStreamReader {
    const stream: RecvStream
    var hasProperties: bool

    constructor (stream: RecvStream)
      ensures this.stream == stream && !hasProperties
    {
      this.stream := stream;
      hasProperties := false;
    }

    /** The header is read field by field and then decoded from the bytes read. */
    method ReadSubgroupHeader() returns (r: StreamResult<(SubgroupHeader, bytes)>)
      modifies this, stream
      ensures Reads(r, stream.unread, old(stream.unread), ParseHeader(old(stream.unread)))
      ensures r.Done? ==> hasProperties == r.value.0.hasProperties
    {
      hide ParseVarint, ParseOptionalId, ParsePriority, Consumed, ValidType;
      ghost var s := stream.unread;
      var ty :- ReadVarint(stream);
      var streamType, raw := ty.0, ty.1;
      ghost var s1 := stream.unread;
      var alias :- ReadVarint(stream);
      raw := raw + alias.1;
      ConsumedTwice(s, s1, stream.unread);
      ghost var s2 := stream.unread;
      var group :- ReadVarint(stream);
      raw := raw + group.1;
      ConsumedTwice(s, s2, stream.unread);
      ghost var s3 := stream.unread;
      var id :- ReadOptionalId(streamType);
      raw := raw + id.1;
      ConsumedTwice(s, s3, stream.unread);
      ghost var s4 := stream.unread;
      var priority :- ReadPriority(streamType);
      raw := raw + priority.1;
      ConsumedTwice(s, s4, stream.unread);
      ValidateHeader(s, stream.unread);
      var slice := new Cursor(raw);
      var header := DecodeSubgroupHeader(slice);
      if header.Err? {
        return OtherError;
      }
      hasProperties := header.value.hasProperties;
      r := Done((header.value, raw));
    }

    method ReadOptionalId(streamType: u64) returns (r: StreamResult<(Option<u64>, bytes)>)
      modifies stream
      ensures Reads(r, stream.unread, old(stream.unread), ParseOptionalId(streamType, old(stream.unread)))
    {
      hide ParseVarint;
      var subgroupIdMode := streamType / 2 % 4;
      if subgroupIdMode == 2 {
        var id :- ReadVarint(stream);
        r := Done((Some(id.0), id.1));
      } else {
        ConsumedNothing(stream.unread);
        r := Done((None, []));
      }
    }

    method ReadPriority(streamType: u64) returns (r: StreamResult<(Option<byte>, bytes)>)
      modifies stream
      ensures Reads(r, stream.unread, old(stream.unread), ParsePriority(streamType, old(stream.unread)))
    {
      if streamType / 32 % 2 == 0 {
        if stream.unread != [] {
          ConsumedPrefix(stream.unread, 1);
        }
        var priority :- stream.ReadExact(1);
        r := Done((Some(priority[0]), priority));
      } else {
        ConsumedNothing(stream.unread);
        r := Done((None, []));
      }
    }

    /** Reading an object is parsing its header and taking its payload from the stream content; a
        stream that ends in or before the first varint is the end of the subgroup. */
    method ReadObject() returns (r: StreamResult<Option<ObjectRead>>)
      modifies stream
      ensures ReadsObject(r, stream.unread, old(stream.unread), hasProperties)
    {
      hide ParseVarint, Consumed, ParseProperties, ParseObject;
      ghost var s := stream.unread;
      ObjectFromParts(s, hasProperties);
      var first := ReadVarint(stream);
      match first {
        case ReadExactError => return Done(None);
        case OtherError => return OtherError;
        case Done(_) =>
      }
      var objectIdDelta, headerBytes := first.value.0, first.value.1;
      ghost var s1 := stream.unread;
      var len :- ReadVarint(stream);
      var payloadLength := len.0;
      headerBytes := headerBytes + len.1;
      ConsumedTwice(s, s1, stream.unread);
      ghost var s2 := stream.unread;
      var props :- ReadProperties();
      headerBytes := headerBytes + props.1;
      ConsumedTwice(s, s2, stream.unread);
      ghost var s3 := stream.unread;
      var payload: bytes := [];
      if payloadLength > 0 {
        payload :- stream.ReadExact(payloadLength);
      }
      assert s3 == s3[..payloadLength] + s3[payloadLength..];
      Concat3(headerBytes, payload, stream.unread);
      r := Done(Some(ObjectRead(ObjectHeader(objectIdDelta, payloadLength), payload, headerBytes)));
    }

    method ReadProperties() returns (r: StreamResult<(bytes, bytes)>)
      modifies stream
      ensures Reads(r, stream.unread, old(stream.unread), ParseProperties(hasProperties, old(stream.unread)))
    {
      hide ParseVarint;
      ghost var s := stream.unread;
      if !hasProperties {
        ConsumedNothing(s);
        return Done(([], []));
      }
      var len :- ReadVarint(stream);
      var propsLen, headerBytes := len.0, len.1;
      ghost var s1 := stream.unread;
      var props: bytes := [];
      if propsLen > 0 {
        props :- stream.ReadExact(propsLen);
        headerBytes := headerBytes + props;
      }
      ConsumedPrefix(s1, propsLen);
      ConsumedTwice(s, s1, s1[propsLen..]);
      r := Done((props, headerBytes));
    }
  }

  /** An object as read_object returns it: header, payload and the raw bytes of the header. */
  datatype ObjectRead = ObjectRead(header: ObjectHeader, payload: blob, raw: bytes)

  predicate ReadsObject(r: StreamResult<Option<ObjectRead>>, left: bytes, s: bytes, hasProperties: bool) {
    if ParseVarint(s).Reject? then
      r == if s != [] && s[0] == 0xfc then OtherError else Done(None)
    else
      match ParseObject(s, hasProperties)
      case Accept(o, rest) => r == Done(Some(o)) && left == rest && s == o.raw + o.payload + rest
      case Reject => !r.Done?
  }

  function ParseObject(s: bytes, hasProperties: bool): Parse<ObjectRead> {
    var (h, s1) :- ParseObjectHeader(s, hasProperties);
    var (payload, s2) :- TakeBytes(s1, h.payloadLength);
    Accept(ObjectRead(h, payload, Consumed(s, s1)), s2)
  }

  /** An object is the two varints, the properties and the payload, one after the other. */
  lemma ObjectFromParts(s: bytes, hasProperties: bool)
    ensures ParseObject(s, hasProperties).Accept? <==>
            && ParseVarint(s).Accept? && ParseVarint(ParseVarint(s).rest).Accept?
            && var Accept(len, s2) := ParseVarint(ParseVarint(s).rest);
            && ParseProperties(hasProperties, s2).Accept? && len <= |ParseProperties(hasProperties, s2).rest|
    ensures ParseObject(s, hasProperties).Accept? ==>
              var Accept(delta, s1) := ParseVarint(s);
              var Accept(len, s2) := ParseVarint(s1);
              var s3 := ParseProperties(hasProperties, s2).rest;
              ParseObject(s, hasProperties) ==
              Accept(ObjectRead(ObjectHeader(delta, len), s3[..len], Consumed(s, s3)), s3[len..])
  {
    hide ParseVarint, Consumed, ParseProperties;
  }

  /** Decoding the bytes that were read accepts if and only if the slice parser accepts the stream
      content, and then with the same header. */
  lemma ValidateHeader(s: bytes, left: bytes)
    requires Splits(s, left)
    requires ParseHeader(s).Accept? ==> ParseHeader(s).rest == left
    ensures match ParseHeader(s)
            case Accept(h, _) => ParseHeader(Consumed(s, left)) == Accept(h, [])
            case Reject => ParseHeader(Consumed(s, left)).Reject?
  {
    hide ParseHeader, Consumed;
    if ParseHeader(s).Accept? {
      HeaderSuffices(s);
    } else if ParseHeader(Consumed(s, left)).Accept? {
      HeaderIsLocal(Consumed(s, left), left);
    }
  }

  // ----- lists of messages -----

  /** Frame after frame, until the stream content is used up. */
  function ParseRequests(s: bytes): Option<seq<RequestMessage>>
    decreases |s|
  {
    if s == [] then Some([])
    else
      match ParseRequest(s)
      case Reject => None
      case Accept(m, rest) =>
        RequestShrinks(s);
        match ParseRequests(rest)
        case None => None
        case Some(ms) => Some([m] + ms)
  }

  lemma RequestShrinks(s: bytes)
    requires ParseRequest(s).Accept?
    ensures |ParseRequest(s).rest| < |s|
  {
    hide ParsePayload;
  }

  predicate Sendable(m: RequestMessage) {
    PayloadOf(m).Some? && |PayloadOf(m).value| < U16 && ReasonInLimit(m)
  }

  function AllBytes(ms: seq<RequestMessage>): bytes
    requires forall m :: m in ms ==> Sendable(m)
  {
    if ms == [] then []
    else
      assert Sendable(ms[0]);
      MessageBytes(ms[0]).value + AllBytes(ms[1..])
  }

  /** The messages of a request stream come back in order, whatever they are. */
  lemma {:induction false} MessageListRoundTrip(ms: seq<RequestMessage>)
    requires forall m :: m in ms ==> Sendable(m)
    ensures ParseRequests(AllBytes(ms)) == Some(ms)
  {
    hide MessageBytes, PayloadOf, ParseRequest;
    if ms != [] {
      assert ms[0] in ms && ms == [ms[0]] + ms[1..];
      var rest := AllBytes(ms[1..]);
      SendableRoundTrip(ms[0], rest);
      MessageListRoundTrip(ms[1..]);
    }
  }

  lemma SendableRoundTrip(m: RequestMessage, rest: bytes)
    requires Sendable(m)
    ensures ParseRequest(MessageBytes(m).value + rest) == Accept(m, rest)
    ensures MessageBytes(m).value + rest != []
  {
    hide PayloadOf, ParseRequest, ReasonInLimit, Encode;
    MessageRoundTrip(m, rest);
  }
}
