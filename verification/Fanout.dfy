/** Fan-out of one publisher data stream to its subscribers: handle_data_stream
    (moqt-relay/src/relay.rs). */
module Fanout {
  import opened Words
  import opened Codec
  import opened Varint
  import opened Blocks
  import opened Subgroups
  import opened Streams
  import opened RelayTables

  // ----- what a stream of objects says -----

  /** The objects that can be read from `s`, up to the first one that is missing or broken. */
  function Objects(s: bytes, hasProperties: bool): seq<ObjectRead>
    decreases |s|
  {
    if ParseObject(s, hasProperties).Reject? then []
    else
      ObjectShrinks(s, hasProperties);
      var Accept(o, rest) := ParseObject(s, hasProperties);
      [o] + Objects(rest, hasProperties)
  }

  /** The bytes of these objects. */
  function Complete(s: bytes, hasProperties: bool): bytes
    decreases |s|
  {
    if ParseObject(s, hasProperties).Reject? then []
    else
      ObjectShrinks(s, hasProperties);
      var Accept(o, rest) := ParseObject(s, hasProperties);
      o.raw + o.payload + Complete(rest, hasProperties)
  }

  lemma ObjectShrinks(s: bytes, hasProperties: bool)
    requires ParseObject(s, hasProperties).Accept?
    ensures ParseVarint(s).Accept?
    ensures |ParseObject(s, hasProperties).rest| < |s|
  {
  }

  /** What is left of the stream behind the complete objects. */
  function Remainder(s: bytes, hasProperties: bool): bytes {
    if Complete(s, hasProperties) <= s then s[|Complete(s, hasProperties)|..] else []
  }

  /** The stream ends between two objects, or inside the first varint of one, which read_object does not
      tell apart. */
  predicate EndsCleanly(s: bytes) { ParseVarint(s).Reject? && (s == [] || s[0] != 0xfc) }

  lemma PropertiesSuffice(hasProperties: bool, s: bytes)
    requires ParseProperties(hasProperties, s).Accept?
    ensures var Accept(p, rest) := ParseProperties(hasProperties, s);
            Splits(s, rest) && ParseProperties(hasProperties, Consumed(s, rest)) == Accept(p, [])
  {
    hide ParseBlock;
    if hasProperties {
      BlockSuffices(s);
    }
  }

  lemma PropertiesAreLocal(hasProperties: bool, s: bytes, more: bytes)
    requires ParseProperties(hasProperties, s).Accept?
    ensures ParseProperties(hasProperties, s + more) ==
            Accept(ParseProperties(hasProperties, s).value, ParseProperties(hasProperties, s).rest + more)
  {
    hide ParseBlock;
    if hasProperties {
      BlockIsLocal(s, more);
    } else {
      assert [] + more == more;
    }
  }

  lemma ObjectHeaderSuffices(s: bytes, hasProperties: bool)
    requires ParseObjectHeader(s, hasProperties).Accept?
    ensures var Accept(h, rest) := ParseObjectHeader(s, hasProperties);
            Splits(s, rest) && ParseObjectHeader(Consumed(s, rest), hasProperties) == Accept(h, [])
  {
    hide ParseVarint, ParseProperties, Consumed, Splits;
    var s1 := ParseVarint(s).rest;
    var s2 := ParseVarint(s1).rest;
    var rest := ParseProperties(hasProperties, s2).rest;
    PropertiesSuffice(hasProperties, s2);
    VarintThen(s1, rest);
    VarintThen(s, rest);
  }

  lemma ObjectHeaderIsLocal(s: bytes, hasProperties: bool, more: bytes)
    requires ParseObjectHeader(s, hasProperties).Accept?
    ensures ParseObjectHeader(s + more, hasProperties) ==
            Accept(ParseObjectHeader(s, hasProperties).value, ParseObjectHeader(s, hasProperties).rest + more)
  {
    hide ParseVarint, ParseProperties;
    ParseIsLocal(s, more);
    var s1 := ParseVarint(s).rest;
    ParseIsLocal(s1, more);
    PropertiesAreLocal(hasProperties, ParseVarint(s1).rest, more);
  }

  /** The bytes of an object are read as that object in front of anything. */
  lemma ObjectThen(s: bytes, hasProperties: bool, more: bytes)
    requires ParseObject(s, hasProperties).Accept?
    ensures var Accept(o, rest) := ParseObject(s, hasProperties);
            && s == o.raw + o.payload + rest
            && ParseObject(o.raw + o.payload + more, hasProperties) == Accept(o, more)
  {
    hide ParseObjectHeader;
    var Accept(h, s1) := ParseObjectHeader(s, hasProperties);
    var Accept(o, rest) := ParseObject(s, hasProperties);
    ObjectHeaderSuffices(s, hasProperties);
    ConsumedPrefix(s1, h.payloadLength);
    Concat3(o.raw, o.payload, rest);
    ObjectHeaderIsLocal(o.raw, hasProperties, o.payload + more);
    assert [] + (o.payload + more) == o.payload + more;
    Concat3(o.raw, o.payload, more);
    TakeFromConcat(o.payload, more);
    assert Consumed(o.raw + (o.payload + more), o.payload + more) == o.raw;
  }

  /** An object with properties: they belong to the raw bytes of its header, and the payload is what comes
      after them. */
  lemma ObjectWithProperties(delta: u64, properties: blob, payload: blob, rest: bytes)
    ensures var raw := Encode(delta) + (Encode(|payload|) + EncodeBlock(properties));
            ParseObject(raw + (payload + rest), true) ==
            Accept(ObjectRead(ObjectHeader(delta, |payload|), payload, raw), rest)
  {
    hide Encode, EncodeBlock, ParseObjectHeader;
    var raw := Encode(delta) + (Encode(|payload|) + EncodeBlock(properties));
    var s1 := payload + rest;
    ThreeInFront(Encode(delta), Encode(|payload|), EncodeBlock(properties), s1);
    PropertiesAreReadOver(ObjectHeader(delta, |payload|), properties, s1);
    TakeFromConcat(payload, rest);
    assert Consumed(raw + s1, s1) == raw;
  }

  lemma ThreeInFront(a: bytes, b: bytes, c: bytes, rest: bytes)
    ensures a + (b + c) + rest == a + (b + (c + rest))
  {
  }

  /** The bytes of the complete objects are a prefix of the stream, and a reader finds the same
      objects in them. */
  lemma {:induction false} CompleteIsFaithful(s: bytes, hasProperties: bool)
    ensures Complete(s, hasProperties) <= s
    ensures Objects(Complete(s, hasProperties), hasProperties) == Objects(s, hasProperties)
    ensures Complete(Complete(s, hasProperties), hasProperties) == Complete(s, hasProperties)
    decreases |s|
  {
    hide ParseObject;
    if ParseObject(s, hasProperties).Accept? {
      var Accept(o, rest) := ParseObject(s, hasProperties);
      ObjectShrinks(s, hasProperties);
      CompleteIsFaithful(rest, hasProperties);
      ObjectThen(s, hasProperties, Complete(rest, hasProperties));
      PrefixUnder(o.raw + o.payload, Complete(rest, hasProperties), rest);
    } else {
      EmptyHasNoObject(hasProperties);
    }
  }

  lemma PrefixUnder(a: bytes, b: bytes, c: bytes)
    requires b <= c
    ensures a + b <= a + c
  {
  }

  lemma EmptyHasNoObject(hasProperties: bool)
    ensures ParseObject([], hasProperties).Reject?
  {
  }

  /** Transparency end to end: if a publisher's stream starts with a header that decodes to `h`, then
      what a surviving subscriber receives decodes to the same header and the same objects. */
  lemma SubscriberDecodesTheSame(published: bytes)
    requires ParseHeader(published).Accept?
    ensures var Accept(h, s) := ParseHeader(published);
            var received := HeaderBytes(h) + Complete(s, h.hasProperties);
            && ParseHeader(received) == Accept(h, Complete(s, h.hasProperties))
            && Objects(ParseHeader(received).rest, h.hasProperties) == Objects(s, h.hasProperties)
  {
    hide ParseHeader, HeaderBytes, Complete, Objects;
    var Accept(h, s) := ParseHeader(published);
    HeaderRoundTrip(h, Complete(s, h.hasProperties));
    CompleteIsFaithful(s, h.hasProperties);
  }

  // ----- pass-through of the header -----

  /** The varint at the head of `s` is written in its shortest form. */
  predicate IsCanonicalAt(s: bytes)
    requires ParseVarint(s).Accept?
  {
    Consumed(s, ParseVarint(s).rest) == Encode(ParseVarint(s).value)
  }

  /** SUBGROUP_ID_MODE is not 01, and every varint of the header has its shortest form. */
  predicate IsPassedThrough(s: bytes)
    requires ParseHeader(s).Accept?
  {
    var Accept(t, s1) := ParseVarint(s);
    var s2 := ParseVarint(s1).rest;
    var s3 := ParseVarint(s2).rest;
    && IdMode(t) != 1
    && IsCanonicalAt(s) && IsCanonicalAt(s1) && IsCanonicalAt(s2)
    && (IdMode(t) == 2 ==> IsCanonicalAt(s3))
  }

  lemma CanonicalIsLongest(s: bytes)
    requires ParseVarint(s).Accept?
    ensures Splits(s, ParseVarint(s).rest)
    ensures |Encode(ParseVarint(s).value)| <= |Consumed(s, ParseVarint(s).rest)|
  {
    hide Encode, ParseVarint;
    VarintSuffices(s);
    EncodeIsShortest(s);
  }

  /** The optional fields: encoded again they are no longer, and the same if and only if the subgroup
      ID, if there is one, has its shortest form. */
  lemma OptionalFields(t: u64, s: bytes)
    requires ParseOptionalId(t, s).Accept? && ParsePriority(t, ParseOptionalId(t, s).rest).Accept?
    ensures var Accept(id, s1) := ParseOptionalId(t, s);
            var Accept(priority, rest) := ParsePriority(t, s1);
            && Splits(s, s1) && Splits(s1, rest)
            && OptionalPriority(priority) == Consumed(s1, rest)
            && |OptionalId(id)| <= |Consumed(s, s1)|
            && (IdMode(t) == 2 ==> ParseVarint(s).Accept?)
            && (OptionalId(id) == Consumed(s, s1) <==> (IdMode(t) == 2 ==> IsCanonicalAt(s)))
  {
    hide Encode, ParseVarint;
    var s1 := ParseOptionalId(t, s).rest;
    if IdMode(t) == 2 {
      CanonicalIsLongest(s);
    } else {
      ConsumedNothing(s);
    }
    if HasPriority(t) {
      ConsumedPrefix(s1, 1);
    } else {
      ConsumedNothing(s1);
    }
  }

  lemma FiveEqual(a: bytes, b: bytes, c: bytes, d: bytes, e: bytes,
                  a': bytes, b': bytes, c': bytes, d': bytes)
    requires |a| <= |a'| && |b| <= |b'| && |c| <= |c'| && |d| <= |d'|
    ensures a + (b + (c + (d + e))) == a' + (b' + (c' + (d' + e))) <==> a == a' && b == b' && c == c' && d == d'
  {
    var l, r := a + (b + (c + (d + e))), a' + (b' + (c' + (d' + e)));
    if l == r {
      assert |a| == |a'| && |b| == |b'| && |c| == |c'| && |d| == |d'|;
      assert l[..|a|] == a && r[..|a|] == a';
      assert l[|a|..] == b + (c + (d + e)) && r[|a|..] == b' + (c' + (d' + e));
      assert l[|a|..][..|b|] == b && r[|a|..][..|b|] == b';
      assert l[|a|..][|b|..] == c + (d + e) && r[|a|..][|b|..] == c' + (d' + e);
      assert l[|a|..][|b|..][..|c|] == c && r[|a|..][|b|..][..|c|] == c';
      assert l[|a|..][|b|..][|c|..] == d + e && r[|a|..][|b|..][|c|..] == d' + e;
      assert (d + e)[..|d|] == d && (d' + e)[..|d|] == d';
    }
  }

  lemma SameType(s: bytes)
    requires ParseHeader(s).Accept?
    ensures var t := ParseVarint(s).value;
            var e := Encode(TypeByte(ParseHeader(s).value));
            && |e| <= |Consumed(s, ParseVarint(s).rest)|
            && (e == Consumed(s, ParseVarint(s).rest) <==> IdMode(t) != 1 && IsCanonicalAt(s))
  {
    hide ParseVarint, Consumed, Splits;
    var t := ParseVarint(s).value;
    var again := TypeByte(ParseHeader(s).value);
    TypeAfterReencoding(s);
    TypeByteBits(ParseHeader(s).value);
    CanonicalIsLongest(s);
    VarintSuffices(s);
    hide Encode, TypeByte, ParseHeader, IdMode;
    if Encode(again) == Encode(t) {
      RoundTrip(again, []);
      RoundTrip(t, []);
    }
    if Encode(again) == Consumed(s, ParseVarint(s).rest) {
      RoundTrip(again, []);
      assert Encode(again) + [] == Encode(again);
    }
  }

  /** The relay passes the bytes of a header through, although it decodes and encodes it, if and only
      if the mode is not 01 and every varint had its shortest form. */
  lemma HeaderIsPassedThrough(s: bytes)
    requires ParseHeader(s).Accept?
    ensures HeaderBytes(ParseHeader(s).value) == Consumed(s, ParseHeader(s).rest) <==> IsPassedThrough(s)
  {
    hide Encode, ParseVarint, ParseOptionalId, ParsePriority, OptionalId, OptionalPriority, Consumed, TypeByte;
    var Accept(t, s1) := ParseVarint(s);
    var Accept(alias, s2) := ParseVarint(s1);
    var Accept(group, s3) := ParseVarint(s2);
    var Accept(id, s4) := ParseOptionalId(t, s3);
    var Accept(priority, rest) := ParsePriority(t, s4);
    SameType(s);
    CanonicalIsLongest(s);
    CanonicalIsLongest(s1);
    CanonicalIsLongest(s2);
    OptionalFields(t, s3);
    ConsumedInFive(s, s1, s2, s3, s4, rest);
    FiveEqual(Encode(TypeByte(ParseHeader(s).value)), Encode(alias), Encode(group), OptionalId(id),
              OptionalPriority(priority), Consumed(s, s1), Consumed(s1, s2), Consumed(s2, s3), Consumed(s3, s4));
  }

  lemma ConsumedInFive(s: bytes, s1: bytes, s2: bytes, s3: bytes, s4: bytes, rest: bytes)
    requires Splits(s, s1) && Splits(s1, s2) && Splits(s2, s3) && Splits(s3, s4) && Splits(s4, rest)
    ensures Consumed(s, rest) ==
            Consumed(s, s1) + (Consumed(s1, s2) + (Consumed(s2, s3) + (Consumed(s3, s4) + Consumed(s4, rest))))
  {
    hide Consumed, Splits;
    ConsumedTwice(s3, s4, rest);
    ConsumedTwice(s2, s3, rest);
    ConsumedTwice(s1, s2, rest);
    ConsumedTwice(s, s1, rest);
  }

  /** An alias in two bytes where one is enough is rewritten. */
  lemma PaddedAliasIsRewritten()
    ensures var h := SubgroupHeader(37, 0, false, false, None, None);
            && ParseHeader([0x30, 0x80, 0x25, 0]) == Accept(h, [])
            && HeaderBytes(h) == [0x30, 0x25, 0]
  {
    OneAndTwoBytes();
    hide Encode, EncodeAs, ParseVarint;
    var s, s1, s2: bytes := [0x30, 0x80, 0x25, 0], [0x80, 0x25, 0], [0];
    assert s == [0x30] + s1 && s1 == [0x80, 0x25] + s2 && s2 == [0] + [];
    ParseEncodedAs(0x30, 1, s1);
    ParseEncodedAs(37, 2, s2);
    ParseEncodedAs(0, 1, []);
    assert [0x30] + ([37] + ([0] + ([] + []))) == [0x30, 37, 0];
  }

  lemma OneAndTwoBytes()
    ensures EncodeAs(0x30, 1) == Encode(0x30) == [0x30]
    ensures EncodeAs(0, 1) == Encode(0) == [0]
    ensures EncodeAs(37, 2) == [0x80, 0x25] && Encode(37) == [37]
  {
    assert BigEndian(37, 1) == BigEndian(0, 0) + [37];
  }

  // ----- the code -----

  /** The sending side of a subscriber's data stream. A write may fail at any byte. */
  class DataStreamWriter {
    /** The session on which the stream was opened. */
    const session: SessionId
    var sent: bytes
    var failed: bool
    var finished: bool

    constructor (session: SessionId)
      ensures this.session == session && sent == [] && !failed && !finished
    {
      this.session := session;
      sent, failed, finished := [], false, false;
    }

    method WriteRaw(data: bytes) returns (ok: bool)
      requires !failed && !finished
      modifies this
      ensures failed == !ok && finished == old(finished)
      ensures if ok then sent == old(sent) + data else old(sent) <= sent <= old(sent) + data
    {
      var n: nat :| n <= |data|;
      failed := *;
      if !failed {
        n := |data|;
      }
      sent := sent + data[..n];
      ok := !failed;
    }

    method WriteSubgroupHeader(header: SubgroupHeader) returns (ok: bool)
      requires !failed && !finished
      modifies this
      ensures failed == !ok && finished == old(finished)
      ensures if ok then sent == old(sent) + HeaderBytes(header) else old(sent) <= sent <= old(sent) + HeaderBytes(header)
    {
      var buf := new Buffer();
      EncodeSubgroupHeader(header, buf);
      assert [] + HeaderBytes(header) == HeaderBytes(header);
      ok := WriteRaw(buf.data);
    }

    /** write_object: header and payload in one write. */
    method WriteObject(header: ObjectHeader, payload: bytes) returns (ok: bool)
      requires !failed && !finished
      modifies this
      ensures failed == !ok && finished == old(finished)
      ensures var all := old(sent) + (Encode(header.objectIdDelta) + Encode(header.payloadLength) + payload);
              if ok then sent == all else old(sent) <= sent <= all
    {
      hide Encode;
      var buf := new Buffer();
      EncodeObjectHeader(header, buf);
      buf.Extend(payload);
      assert buf.data == Encode(header.objectIdDelta) + Encode(header.payloadLength) + payload;
      ok := WriteRaw(buf.data);
    }

    method Finish()
      requires !failed
      modifies this
      ensures finished && failed == old(failed) && sent == old(sent)
    {
      finished := true;
    }
  }

  /** open_data_stream: opening the stream or writing the header may fail. */
  method OpenDataStream(session: SessionId, header: SubgroupHeader) returns (w: DataStreamWriter, ok: bool)
    ensures fresh(w) && w.session == session && w.failed == !ok && !w.finished
    ensures if ok then w.sent == HeaderBytes(header) else w.sent <= HeaderBytes(header)
  {
    hide HeaderBytes;
    w := new DataStreamWriter(session);
    assert [] + HeaderBytes(header) == HeaderBytes(header);
    if * {
      w.failed := true;
      return w, false;
    }
    ok := w.WriteSubgroupHeader(header);
  }

  predicate Distinct(ws: seq<DataStreamWriter>) {
    forall i, j :: 0 <= i < j < |ws| ==> ws[i] != ws[j]
  }

  /** An open stream that has received exactly `s`. */
  predicate Holds(w: DataStreamWriter, s: bytes)
    reads w
  {
    !w.failed && !w.finished && w.sent == s
  }

  /** A stream that broke while or after `s` was written to it. */
  predicate Broken(w: DataStreamWriter, s: bytes)
    reads w
  {
    w.failed && !w.finished && w.sent <= s
  }

  /** One stream per entry of `targets`, on its session. */
  ghost predicate OpenedOn(streams: seq<DataStreamWriter>, targets: seq<SessionId>) {
    |streams| == |targets| && Distinct(streams) && forall i :: 0 <= i < |targets| ==> streams[i].session == targets[i]
  }

  method OpenAll(targets: seq<SessionId>, header: SubgroupHeader)
    returns (writers: seq<DataStreamWriter>, ghost streams: seq<DataStreamWriter>)
    ensures OpenedOn(streams, targets) && forall w :: w in streams ==> fresh(w)
    ensures Distinct(writers) && forall w :: w in writers ==> w in streams
    ensures forall w :: w in streams ==>
              if w in writers then Holds(w, HeaderBytes(header)) else Broken(w, HeaderBytes(header))
  {
    hide HeaderBytes;
    writers, streams := [], [];
    for i := 0 to |targets|
      invariant OpenedOn(streams, targets[..i]) && forall w :: w in streams ==> fresh(w)
      invariant Distinct(writers) && forall w :: w in writers ==> w in streams
      invariant forall w :: w in streams ==>
                  if w in writers then Holds(w, HeaderBytes(header)) else Broken(w, HeaderBytes(header))
    {
      var w, ok := OpenDataStream(targets[i], header);
      streams := streams + [w];
      if ok {
        writers := writers + [w];
      }
    }
  }

  /** One round of the relay loop: the object goes to every active writer, and the writers that fail
      are not kept. */
  method ForwardObject(active: seq<DataStreamWriter>, raw: bytes, payload: bytes, ghost before: bytes)
    returns (stillActive: seq<DataStreamWriter>)
    requires Distinct(active) && forall w :: w in active ==> Holds(w, before)
    modifies active
    ensures Distinct(stillActive) && forall w :: w in stillActive ==> w in active
    ensures forall w :: w in active ==>
              if w in stillActive then Holds(w, before + raw + payload) else Broken(w, before + raw + payload)
  {
    stillActive := [];
    for i := 0 to |active|
      invariant Distinct(stillActive) && forall w :: w in stillActive ==> w in active[..i]
      invariant forall w :: w in active[..i] ==>
                  if w in stillActive then Holds(w, before + raw + payload) else Broken(w, before + raw + payload)
      invariant forall j :: i <= j < |active| ==> Holds(active[j], before)
    {
      var w := active[i];
      assert w !in active[..i];
      var ok := w.WriteRaw(raw);
      if ok {
        ok := w.WriteRaw(payload);
      }
      if ok {
        stillActive := stillActive + [w];
      }
    }
    assert active[..|active|] == active;
  }

  method FinishAll(active: seq<DataStreamWriter>, ghost s: bytes)
    requires Distinct(active) && forall w :: w in active ==> Holds(w, s)
    modifies active
    ensures forall w :: w in active ==> w.finished && !w.failed && w.sent == s
  {
    for i := 0 to |active|
      invariant forall j :: 0 <= j < i ==> active[j].finished && !active[j].failed && active[j].sent == s
      invariant forall j :: i <= j < |active| ==> Holds(active[j], s)
    {
      active[i].Finish();
    }
  }

  /** handle_data_stream, for the subscriber sessions `targets`. Every subscriber stream receives a prefix
      of the re-encoded header followed by the complete objects of the publisher's stream; a stream
      that did not fail has received all of it, and is finished if and only if the publisher's stream
      ended cleanly. The failed ones are never written again. */
  method HandleDataStream(reader: DataStreamReader, header: SubgroupHeader, targets: seq<SessionId>)
    returns (r: Result<()>, ghost streams: seq<DataStreamWriter>)
    requires reader.hasProperties == header.hasProperties
    modifies reader.stream
    ensures OpenedOn(streams, targets) && forall w :: w in streams ==> fresh(w)
    ensures r.Ok? <==> targets == [] || EndsCleanly(Remainder(old(reader.stream.unread), header.hasProperties))
    ensures var all := HeaderBytes(header) + Complete(old(reader.stream.unread), header.hasProperties);
            forall w :: w in streams ==>
              && w.sent <= all
              && (!w.failed ==> w.sent == all)
              && (w.finished <==> !w.failed && r.Ok?)
  {
    hide HeaderBytes, ParseObject, ParseVarint;
    streams := [];
    if targets == [] {
      Drain(reader);
      return Ok(()), streams;
    }
    var active;
    active, streams := OpenAll(targets, header);
    ghost var s := reader.stream.unread;
    ghost var has := reader.hasProperties;
    ghost var forwarded: bytes := [];
    assert [] + Complete(s, has) == Complete(s, has) && HeaderBytes(header) + [] == HeaderBytes(header);
    while true
      invariant OpenedOn(streams, targets) && forall w :: w in streams ==> fresh(w)
      invariant Distinct(active) && forall w :: w in active ==> w in streams
      invariant forall w :: w in streams ==>
                  if w in active then Holds(w, HeaderBytes(header) + forwarded)
                  else Broken(w, HeaderBytes(header) + forwarded)
      invariant Complete(s, has) == forwarded + Complete(reader.stream.unread, has)
      invariant Remainder(s, has) == Remainder(reader.stream.unread, has)
      decreases |reader.stream.unread|
    {
      ghost var left := reader.stream.unread;
      NextObject(left, has);
      var o := reader.ReadObject();
      if !o.Done? {
        assert forwarded + [] == forwarded;
        return Err, streams;
      }
      if o.value.None? {
        break;
      }
      var next := o.value.value;
      assert forall i :: 0 <= i < |active| ==> active[i] in streams;
      active := ForwardObject(active, next.raw, next.payload, HeaderBytes(header) + forwarded);
      ForwardedMore(HeaderBytes(header), forwarded, next.raw, next.payload, Complete(reader.stream.unread, has));
      forwarded := forwarded + (next.raw + next.payload);
    }
    assert forwarded + [] == forwarded;
    assert forall i :: 0 <= i < |active| ==> active[i] in streams;
    FinishAll(active, HeaderBytes(header) + forwarded);
    r := Ok(());
  }

  lemma NextObject(s: bytes, hasProperties: bool)
    ensures ParseVarint(s).Reject? ==> ParseObject(s, hasProperties).Reject?
    ensures var p := ParseObject(s, hasProperties);
            Remainder(s, hasProperties) == if p.Accept? then Remainder(p.rest, hasProperties) else s
    ensures var p := ParseObject(s, hasProperties);
            && (p.Reject? ==> Complete(s, hasProperties) == [])
            && (p.Accept? ==>
                  && |p.rest| < |s|
                  && Complete(s, hasProperties) == p.value.raw + p.value.payload + Complete(p.rest, hasProperties))
  {
    RemainderStep(s, hasProperties);
    if ParseObject(s, hasProperties).Accept? {
      ObjectShrinks(s, hasProperties);
    }
  }

  lemma RemainderStep(s: bytes, hasProperties: bool)
    ensures var p := ParseObject(s, hasProperties);
            Remainder(s, hasProperties) == if p.Accept? then Remainder(p.rest, hasProperties) else s
  {
    hide ParseObject;
    CompleteIsFaithful(s, hasProperties);
    if ParseObject(s, hasProperties).Accept? {
      var Accept(o, rest) := ParseObject(s, hasProperties);
      ObjectShrinks(s, hasProperties);
      ObjectThen(s, hasProperties, []);
      CompleteIsFaithful(rest, hasProperties);
      assert s[|o.raw + o.payload|..] == rest;
    }
  }

  lemma ForwardedMore(h: bytes, f: bytes, raw: bytes, payload: bytes, rest: bytes)
    ensures h + f + raw + payload == h + (f + (raw + payload))
    ensures f + (raw + payload + rest) == f + (raw + payload) + rest
    ensures h + f <= h + (f + (raw + payload))
  {
  }

  /** With no subscriber the stream is read to its end and dropped. */
  method Drain(reader: DataStreamReader)
    modifies reader.stream
  {
    hide ParseObject, ParseVarint;
    while true
      decreases |reader.stream.unread|
    {
      NextObject(reader.stream.unread, reader.hasProperties);
      var o := reader.ReadObject();
      if !o.Done? || o.value.None? {
        break;
      }
    }
  }
}
