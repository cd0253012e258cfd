/** Subgroup headers and object headers (moqt-core/src/wire/subgroup_header.rs and object.rs),
    section 10.4.2 of draft-ietf-moq-transport-17. */
module Subgroups {
  import opened Words
  import opened Codec
  import opened Varint
  import opened Blocks

  datatype SubgroupHeader = SubgroupHeader(
    trackAlias: u64, groupId: u64, hasProperties: bool, endOfGroup: bool,
    subgroupId: Option<u64>, publisherPriority: Option<byte>)

  datatype ObjectHeader = ObjectHeader(objectIdDelta: u64, payloadLength: u64)

  // ----- specification -----

  predicate ValidType(t: u64) {
    0x10 <= t <= 0x15 || 0x18 <= t <= 0x1d || 0x30 <= t <= 0x35 || 0x38 <= t <= 0x3d
  }

  /** `(t >> 1) & 0x03` */
  function IdMode(t: u64): nat { t / 2 % 4 }

  /** `t & 0x20 == 0` */
  predicate HasPriority(t: u64) { t / 32 % 2 == 0 }

  function TypeByte(h: SubgroupHeader): u64 {
    0x10 + (if h.hasProperties then 0x01 else 0) + (if h.subgroupId.Some? then 0x04 else 0)
    + (if h.endOfGroup then 0x08 else 0) + (if h.publisherPriority.None? then 0x20 else 0)
  }

  function OptionalId(o: Option<u64>): bytes {
    match o case Some(id) => Encode(id) case None => []
  }

  function OptionalPriority(o: Option<byte>): bytes {
    match o case Some(p) => [p] case None => []
  }

  function HeaderBytes(h: SubgroupHeader): bytes {
    Encode(TypeByte(h)) + (Encode(h.trackAlias) + (Encode(h.groupId) +
      (OptionalId(h.subgroupId) + OptionalPriority(h.publisherPriority))))
  }

  function ParseOptionalId(t: u64, s: bytes): Parse<Option<u64>> {
    if IdMode(t) == 2 then
      var (id, s1) :- ParseVarint(s);
      Accept(Some(id), s1)
    else
      Accept(None, s)
  }

  function ParsePriority(t: u64, s: bytes): Parse<Option<byte>> {
    if !HasPriority(t) then Accept(None, s)
    else if s == [] then Reject
    else Accept(Some(s[0]), s[1..])
  }

  /** What follows the type. */
  function ParseFields(t: u64, s: bytes): Parse<SubgroupHeader> {
    var (alias, s1) :- ParseVarint(s);
    var (group, s2) :- ParseVarint(s1);
    var (id, s3) :- ParseOptionalId(t, s2);
    var (priority, s4) :- ParsePriority(t, s3);
    Accept(SubgroupHeader(alias, group, t % 2 == 1, t / 8 % 2 == 1, id, priority), s4)
  }

  function ParseHeader(s: bytes): Parse<SubgroupHeader> {
    var (t, s1) :- ParseVarint(s);
    if ValidType(t) then ParseFields(t, s1) else Reject
  }

  function ParseProperties(hasProperties: bool, s: bytes): Parse<bytes> {
    if hasProperties then ParseBlock(s) else Accept([], s)
  }

  function ParseObjectHeader(s: bytes, hasProperties: bool): Parse<ObjectHeader> {
    var (delta, s1) :- ParseVarint(s);
    var (len, s2) :- ParseVarint(s1);
    var (_, s3) :- ParseProperties(hasProperties, s2);
    Accept(ObjectHeader(delta, len), s3)
  }

  // ----- laws -----

  /** An object header with properties, which the encoder never writes and the decoder reads over: the
      length says how many bytes. */
  lemma PropertiesAreReadOver(h: ObjectHeader, properties: blob, rest: bytes)
    ensures ParseObjectHeader(Encode(h.objectIdDelta) + (Encode(h.payloadLength) + (EncodeBlock(properties) + rest)),
                              true) ==
            Accept(h, rest)
  {
    hide Encode, ParseVarint, ParseBlock, EncodeBlock;
    var s2 := EncodeBlock(properties) + rest;
    RoundTrip(h.objectIdDelta, Encode(h.payloadLength) + s2);
    RoundTrip(h.payloadLength, s2);
    ParseEncodedBlock(properties, rest);
  }

  lemma TypeByteBits(h: SubgroupHeader)
    ensures ValidType(TypeByte(h)) && TypeByte(h) < 0x40
    ensures TypeByte(h) % 2 == 1 <==> h.hasProperties
    ensures TypeByte(h) / 8 % 2 == 1 <==> h.endOfGroup
    ensures IdMode(TypeByte(h)) == if h.subgroupId.Some? then 2 else 0
    ensures HasPriority(TypeByte(h)) <==> h.publisherPriority.Some?
  {
  }

  lemma HeaderRoundTrip(h: SubgroupHeader, rest: bytes)
    ensures ParseHeader(HeaderBytes(h) + rest) == Accept(h, rest)
  {
    hide Encode, ParseVarint, ValidType, IdMode, HasPriority, TypeByte;
    TypeByteBits(h);
    var s4 := rest;
    var s3 := OptionalPriority(h.publisherPriority) + s4;
    var s2 := OptionalId(h.subgroupId) + s3;
    var s1 := Encode(h.groupId) + s2;
    var s0 := Encode(h.trackAlias) + s1;
    HeaderConcat(Encode(TypeByte(h)), Encode(h.trackAlias), Encode(h.groupId), OptionalId(h.subgroupId),
                 OptionalPriority(h.publisherPriority), rest);
    RoundTrip(TypeByte(h), s0);
    RoundTrip(h.trackAlias, s1);
    RoundTrip(h.groupId, s2);
    match h.subgroupId {
      case Some(id) => RoundTrip(id, s3);
      case None => assert [] + s3 == s3;
    }
    match h.publisherPriority {
      case Some(p) => assert s3[1..] == s4;
      case None => assert [] + s4 == s4;
    }
  }

  lemma HeaderConcat(a: bytes, b: bytes, c: bytes, d: bytes, e: bytes, rest: bytes)
    ensures a + (b + (c + (d + e))) + rest == a + (b + (c + (d + (e + rest))))
  {
  }

  /** What becomes of the type when a header is decoded and encoded: SUBGROUP_ID_MODE 01 becomes 00,
      every other type comes back unchanged. */
  lemma TypeAfterReencoding(s: bytes)
    requires ParseHeader(s).Accept?
    ensures var t := ParseVarint(s).value;
            TypeByte(ParseHeader(s).value) == if IdMode(t) == 1 then t - 2 else t
  {
    hide ParseVarint;
    var t := ParseVarint(s).value;
    TypeFromBits(t);
  }

  lemma TypeFromBits(t: u64)
    requires ValidType(t)
    ensures IdMode(t) != 3
    ensures t == 0x10 + t % 2 + 2 * IdMode(t) + 8 * (t / 8 % 2) + 32 * (t / 32 % 2)
  {
  }

  /** Headers of mode 00 and of mode 01 decode to the same structure. */
  lemma ModesCollapse(t: u64, s: bytes)
    requires ValidType(t) && IdMode(t) == 1
    ensures ValidType(t - 2) && IdMode(t - 2) == 0
    ensures ParseFields(t - 2, s) == ParseFields(t, s)
  {
    hide ParseVarint;
  }

  lemma ObjectHeaderRoundTrip(h: ObjectHeader, rest: bytes)
    ensures ParseObjectHeader(Encode(h.objectIdDelta) + Encode(h.payloadLength) + rest, false) == Accept(h, rest)
  {
    hide Encode, ParseVarint;
    Concat3(Encode(h.objectIdDelta), Encode(h.payloadLength), rest);
    RoundTrip(h.objectIdDelta, Encode(h.payloadLength) + rest);
    RoundTrip(h.payloadLength, rest);
  }

  /** resolve_object_id */
  function ResolveObjectId(prev: Option<nat>, delta: nat): nat {
    match prev case None => delta case Some(p) => p + delta + 1
  }

  predicate IsAscending(ids: seq<nat>, prev: Option<nat>) {
    ids == [] || ((prev.Some? ==> prev.value < ids[0]) && IsAscending(ids[1..], Some(ids[0])))
  }

  /** The deltas of a list of object IDs: how many IDs are skipped in front of each. */
  function DeltasOf(ids: seq<nat>, prev: Option<nat>): (ds: seq<nat>)
    requires IsAscending(ids, prev)
  {
    if ids == [] then []
    else
      var skipped := if prev.Some? then ids[0] - prev.value - 1 else ids[0];
      [skipped] + DeltasOf(ids[1..], Some(ids[0]))
  }

  /** The object IDs that a list of deltas stands for. */
  function ResolveAll(deltas: seq<nat>, prev: Option<nat>): (ids: seq<nat>)
    ensures |ids| == |deltas|
  {
    if deltas == [] then []
    else
      var id := ResolveObjectId(prev, deltas[0]);
      [id] + ResolveAll(deltas[1..], Some(id))
  }

  /** Any ascending list of object IDs is resolved from its deltas. */
  lemma {:induction false} DeltasResolve(ids: seq<nat>, prev: Option<nat>)
    requires IsAscending(ids, prev)
    ensures ResolveAll(DeltasOf(ids, prev), prev) == ids
  {
    if ids != [] {
      DeltasResolve(ids[1..], Some(ids[0]));
      assert DeltasOf(ids, prev)[1..] == DeltasOf(ids[1..], Some(ids[0]));
    }
  }

  // ----- the code -----

  method EncodeSubgroupHeader(h: SubgroupHeader, buf: Buffer)
    modifies buf
    ensures buf.data == old(buf.data) + HeaderBytes(h)
  {
    hide Encode;
    var typeByte: u64 := 0x10;
    if h.hasProperties {
      typeByte := typeByte + 0x01;
    }
    if h.subgroupId.Some? {
      typeByte := typeByte + 0x04;
    }
    if h.endOfGroup {
      typeByte := typeByte + 0x08;
    }
    if h.publisherPriority.None? {
      typeByte := typeByte + 0x20;
    }
    EncodeVarint(typeByte, buf);
    EncodeVarint(h.trackAlias, buf);
    EncodeVarint(h.groupId, buf);
    if h.subgroupId.Some? {
      EncodeVarint(h.subgroupId.value, buf);
    }
    if h.publisherPriority.Some? {
      buf.Push(h.publisherPriority.value);
    }
    HeaderAppended(old(buf.data), Encode(typeByte), Encode(h.trackAlias), Encode(h.groupId),
                   OptionalId(h.subgroupId), OptionalPriority(h.publisherPriority));
  }

  lemma HeaderAppended(before: bytes, a: bytes, b: bytes, c: bytes, d: bytes, e: bytes)
    ensures before + a + b + c + d + e == before + (a + (b + (c + (d + e))))
    ensures d == [] ==> before + a + b + c + d == before + a + b + c
    ensures e == [] ==> before + a + b + c + d + e == before + a + b + c + d
  {
  }

  method DecodeSubgroupHeader(buf: Cursor) returns (r: Result<SubgroupHeader>)
    modifies buf
    ensures Follows(r, buf.left, ParseHeader(old(buf.left)))
  {
    hide ParseVarint, IdMode, HasPriority, ParseOptionalId, ParsePriority;
    var streamType :- DecodeVarint(buf);
    if !(0x10 <= streamType <= 0x15 || 0x18 <= streamType <= 0x1d || 0x30 <= streamType <= 0x35
         || 0x38 <= streamType <= 0x3d) {
      return Err;
    }
    var trackAlias :- DecodeVarint(buf);
    var groupId :- DecodeVarint(buf);
    var subgroupId :- DecodeOptionalId(streamType, buf);
    var publisherPriority :- DecodePriority(streamType, buf);
    r := Ok(SubgroupHeader(trackAlias, groupId, streamType % 2 == 1, streamType / 8 % 2 == 1,
                           subgroupId, publisherPriority));
  }

  method DecodeOptionalId(streamType: u64, buf: Cursor) returns (r: Result<Option<u64>>)
    modifies buf
    ensures Follows(r, buf.left, ParseOptionalId(streamType, old(buf.left)))
  {
    hide ParseVarint;
    var subgroupIdMode := streamType / 2 % 4;
    if subgroupIdMode == 2 {
      var id :- DecodeVarint(buf);
      r := Ok(Some(id));
    } else {
      r := Ok(None);
    }
  }

  method DecodePriority(streamType: u64, buf: Cursor) returns (r: Result<Option<byte>>)
    modifies buf
    ensures Follows(r, buf.left, ParsePriority(streamType, old(buf.left)))
  {
    if streamType / 32 % 2 == 0 {
      if buf.left == [] {
        return Err;
      }
      r := Ok(Some(buf.left[0]));
      buf.left := buf.left[1..];
    } else {
      r := Ok(None);
    }
  }

  method EncodeObjectHeader(h: ObjectHeader, buf: Buffer)
    modifies buf
    ensures buf.data == old(buf.data) + (Encode(h.objectIdDelta) + Encode(h.payloadLength))
  {
    hide Encode;
    Concat3(buf.data, Encode(h.objectIdDelta), Encode(h.payloadLength));
    EncodeVarint(h.objectIdDelta, buf);
    EncodeVarint(h.payloadLength, buf);
  }

  method DecodeObjectHeader(buf: Cursor, hasProperties: bool) returns (r: Result<ObjectHeader>)
    modifies buf
    ensures Follows(r, buf.left, ParseObjectHeader(old(buf.left), hasProperties))
  {
    hide ParseVarint;
    var objectIdDelta :- DecodeVarint(buf);
    var payloadLength :- DecodeVarint(buf);
    if hasProperties {
      var propsLen :- DecodeVarint(buf);
      var _ :- buf.Take(propsLen);
    }
    r := Ok(ObjectHeader(objectIdDelta, payloadLength));
  }
}
