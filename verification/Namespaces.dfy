/** Track namespaces (moqt-core/src/wire/track_namespace.rs), section 2.4.1 of
    draft-ietf-moq-transport-17. */
module Namespaces {
  import opened Words
  import opened Codec
  import opened Varint
  import opened Blocks
  import opened Wire

  const MAX_FIELDS: u64 := 32

  // ----- specification -----

  predicate InLimits(ns: TrackNamespace) {
    |ns.fields| <= 32 && [] !in ns.fields
  }

  function FieldBytes(fields: seq<blob>): bytes {
    if fields == [] then [] else EncodeBlock(fields[0]) + FieldBytes(fields[1..])
  }

  function NamespaceBytes(ns: TrackNamespace): bytes
    requires InLimits(ns)
  {
    Encode(|ns.fields|) + FieldBytes(ns.fields)
  }

  /** A field has at least one byte. */
  function ParseField(s: bytes): Parse<blob> {
    var (field, rest) :- ParseBlock(s);
    if field == [] then Reject else Accept(field, rest)
  }

  function ParseFields(n: nat, s: bytes): Parse<seq<blob>> {
    if n == 0 then Accept([], s)
    else
      match ParseField(s)
      case Reject => Reject
      case Accept(field, rest) => PrependField([field], ParseFields(n - 1, rest))
  }

  function PrependField(fs: seq<blob>, o: Parse<seq<blob>>): Parse<seq<blob>> {
    match o case Reject => Reject case Accept(gs, rest) => Accept(fs + gs, rest)
  }

  function ParseNamespace(s: bytes): Parse<TrackNamespace> {
    var (n, s1) :- ParseVarint(s);
    if n > MAX_FIELDS then Reject
    else
      var (fields, s2) :- ParseFields(n, s1);
      Accept(TrackNamespace(fields), s2)
  }

  // ----- laws -----

  lemma FieldsStep(n: nat, s: bytes, field: blob, rest: bytes)
    requires ParseField(s) == Accept(field, rest)
    ensures ParseFields(n + 1, s) == PrependField([field], ParseFields(n, rest))
  {
  }

  lemma {:induction false} FieldsRoundTrip(fields: seq<blob>, rest: bytes)
    requires [] !in fields
    ensures ParseFields(|fields|, FieldBytes(fields) + rest) == Accept(fields, rest)
  {
    if fields == [] {
      assert [] + rest == rest;
    } else {
      var more := FieldBytes(fields[1..]) + rest;
      Concat3(EncodeBlock(fields[0]), FieldBytes(fields[1..]), rest);
      ParseEncodedBlock(fields[0], more);
      FieldsRoundTrip(fields[1..], rest);
      FieldsStep(|fields| - 1, FieldBytes(fields) + rest, fields[0], more);
      assert fields == [fields[0]] + fields[1..];
    }
  }

  lemma NamespaceRoundTrip(ns: TrackNamespace, rest: bytes)
    requires InLimits(ns)
    ensures ParseNamespace(NamespaceBytes(ns) + rest) == Accept(ns, rest)
  {
    Concat3(Encode(|ns.fields|), FieldBytes(ns.fields), rest);
    RoundTrip(|ns.fields|, FieldBytes(ns.fields) + rest);
    FieldsRoundTrip(ns.fields, rest);
  }

  lemma FieldIsShortest(s: bytes)
    requires ParseField(s).Accept?
    ensures var Accept(field, rest) := ParseField(s);
            field != [] && |EncodeBlock(field)| + |rest| <= |s|
  {
    hide ParseBlock, EncodeBlock;
    BlockIsShortest(s);
  }

  lemma {:induction false} AcceptedFields(n: nat, s: bytes)
    requires ParseFields(n, s).Accept?
    ensures var Accept(fields, rest) := ParseFields(n, s);
            |fields| == n && [] !in fields && |FieldBytes(fields)| + |rest| <= |s|
  {
    hide ParseField, EncodeBlock;
    if n > 0 {
      var Accept(field, more) := ParseField(s);
      FieldIsShortest(s);
      AcceptedFields(n - 1, more);
      FieldsStep(n - 1, s, field, more);
      AcceptedFieldsStep(field, ParseFields(n - 1, more).value);
    }
  }

  lemma AcceptedFieldsStep(field: blob, fields: seq<blob>)
    ensures FieldBytes([field] + fields) == EncodeBlock(field) + FieldBytes(fields)
  {
    assert ([field] + fields)[1..] == fields;
  }

  /** The decoder accepts only what the encoder can produce a (no longer) encoding for. */
  lemma AcceptedNamespace(s: bytes)
    requires ParseNamespace(s).Accept?
    ensures var Accept(ns, rest) := ParseNamespace(s);
            InLimits(ns) && |NamespaceBytes(ns)| + |rest| <= |s|
  {
    EncodeIsShortest(s);
    var Accept(n, s1) := ParseVarint(s);
    AcceptedFields(n, s1);
  }

  lemma FieldIsLocal(s: bytes, more: bytes)
    requires ParseField(s).Accept?
    ensures ParseField(s + more) == Accept(ParseField(s).value, ParseField(s).rest + more)
  {
    hide ParseBlock;
    BlockIsLocal(s, more);
  }

  lemma {:induction false} FieldsAreLocal(n: nat, s: bytes, more: bytes)
    requires ParseFields(n, s).Accept?
    ensures ParseFields(n, s + more) == Accept(ParseFields(n, s).value, ParseFields(n, s).rest + more)
  {
    hide ParseField;
    if n > 0 {
      var Accept(field, rest) := ParseField(s);
      FieldIsLocal(s, more);
      FieldsStep(n - 1, s, field, rest);
      FieldsAreLocal(n - 1, rest, more);
      FieldsStep(n - 1, s + more, field, rest + more);
    }
  }

  lemma NamespaceIsLocal(s: bytes, more: bytes)
    requires ParseNamespace(s).Accept?
    ensures ParseNamespace(s + more) == Accept(ParseNamespace(s).value, ParseNamespace(s).rest + more)
  {
    ParseIsLocal(s, more);
    var Accept(n, s1) := ParseVarint(s);
    FieldsAreLocal(n, s1, more);
  }

  // ----- the code -----

  method EncodeTrackNamespace(ns: TrackNamespace, buf: Buffer) returns (r: Result<()>)
    modifies buf
    ensures r == if InLimits(ns) then Ok(()) else Err
    ensures InLimits(ns) ==> buf.data == old(buf.data) + NamespaceBytes(ns)
  {
    if |ns.fields| > MAX_FIELDS {
      return Err;
    }
    EncodeVarint(|ns.fields|, buf);
    ghost var before := buf.data;
    assert ns.fields[0..] == ns.fields;
    var i := 0;
    while i < |ns.fields|
      invariant 0 <= i <= |ns.fields|
      invariant [] !in ns.fields[..i]
      invariant buf.data + FieldBytes(ns.fields[i..]) == before + FieldBytes(ns.fields)
    {
      var field := ns.fields[i];
      if field == [] {
        return Err;
      }
      ghost var written := buf.data;
      EncodeVarint(|field|, buf);
      buf.Extend(field);
      NextField(ns.fields, i, written);
      i := i + 1;
    }
    LastField(ns.fields, i, buf.data);
    Concat3(old(buf.data), Encode(|ns.fields|), FieldBytes(ns.fields));
    r := Ok(());
  }

  lemma NextField(fields: seq<blob>, i: nat, written: bytes)
    requires i < |fields|
    ensures written + FieldBytes(fields[i..]) ==
            written + Encode(|fields[i]|) + fields[i] + FieldBytes(fields[i + 1..])
    ensures fields[..i + 1] == fields[..i] + [fields[i]]
  {
    assert fields[i..][0] == fields[i] && fields[i..][1..] == fields[i + 1..];
    Concat3(written, Encode(|fields[i]|), fields[i]);
    Concat3(written, EncodeBlock(fields[i]), FieldBytes(fields[i + 1..]));
  }

  lemma LastField(fields: seq<blob>, i: nat, written: bytes)
    requires i == |fields|
    ensures written + FieldBytes(fields[i..]) == written && fields[..i] == fields
  {
  }

  method DecodeTrackNamespace(buf: Cursor) returns (r: Result<TrackNamespace>)
    modifies buf
    ensures Follows(r, buf.left, ParseNamespace(old(buf.left)))
  {
    var numFields :- DecodeVarint(buf);
    if numFields > MAX_FIELDS {
      return Err;
    }
    var fields :- DecodeFields(numFields, buf);
    r := Ok(TrackNamespace(fields));
  }

  /** The loop of decode_track_namespace. */
  method DecodeFields(numFields: u64, buf: Cursor) returns (r: Result<seq<blob>>)
    modifies buf
    ensures Follows(r, buf.left, ParseFields(numFields, old(buf.left)))
  {
    hide ParseField;
    var fields: seq<blob> := [];
    ghost var input := buf.left;
    var i := 0;
    PrependFieldTwice([], [], ParseFields(numFields, input));
    while i < numFields
      invariant 0 <= i <= numFields
      invariant ParseFields(numFields, input) == PrependField(fields, ParseFields(numFields - i, buf.left))
    {
      var field :- ReadField(buf, fields, numFields - i - 1);
      i := i + 1;
      fields := fields + [field];
    }
    assert fields + [] == fields;
    r := Ok(fields);
  }

  lemma FieldsFrom(done: seq<blob>, n: nat, s: bytes, field: blob, rest: bytes)
    requires ParseField(s) == Accept(field, rest)
    ensures PrependField(done, ParseFields(n + 1, s)) == PrependField(done + [field], ParseFields(n, rest))
  {
    FieldsStep(n, s, field, rest);
    PrependFieldTwice(done, [field], ParseFields(n, rest));
  }

  /** One round of the loop, with `n` rounds to go after it. */
  method ReadField(buf: Cursor, ghost done: seq<blob>, ghost n: nat) returns (r: Result<blob>)
    modifies buf
    ensures PrependField(done, ParseFields(n + 1, old(buf.left))) ==
            if r.Err? then Reject else PrependField(done + [r.value], ParseFields(n, buf.left))
  {
    var fieldLen :- DecodeVarint(buf);
    if fieldLen == 0 {
      return Err;
    }
    var field :- buf.Take(fieldLen);
    FieldsFrom(done, n, old(buf.left), field, buf.left);
    r := Ok(field);
  }

  lemma PrependFieldTwice(fs: seq<blob>, gs: seq<blob>, o: Parse<seq<blob>>)
    ensures PrependField([], o) == o
    ensures PrependField(fs, PrependField(gs, o)) == PrependField(fs + gs, o)
  {
    if o.Accept? {
      assert [] + o.value == o.value;
      Concat3(fs, gs, o.value);
    }
  }
}

/** Reason phrases (moqt-core/src/wire/reason_phrase.rs). */
module ReasonPhrases {
  import opened Words
  import opened Codec
  import opened Varint
  import opened Blocks
  import opened Wire

  const MAX_LENGTH: u64 := 1024

  predicate ReasonFits(rp: ReasonPhrase) { |rp.value| <= 1024 }

  function ReasonBytes(rp: ReasonPhrase): bytes {
    EncodeBlock(rp.value)
  }

  function ParseReason(s: bytes): Parse<ReasonPhrase> {
    var (value, s1) :- ParseBlock(s);
    if |value| > MAX_LENGTH then Reject else Accept(ReasonPhrase(value), s1)
  }

  /** The limit is enforced on decoding only. */
  lemma ReasonRoundTrip(rp: ReasonPhrase, rest: bytes)
    ensures ParseReason(ReasonBytes(rp) + rest) == if ReasonFits(rp) then Accept(rp, rest) else Reject
  {
    ParseEncodedBlock(rp.value, rest);
  }

  lemma ReasonIsLocal(s: bytes, more: bytes)
    requires ParseReason(s).Accept?
    ensures ParseReason(s + more) == Accept(ParseReason(s).value, ParseReason(s).rest + more)
  {
    BlockIsLocal(s, more);
  }

  method EncodeReasonPhrase(rp: ReasonPhrase, buf: Buffer)
    modifies buf
    ensures buf.data == old(buf.data) + ReasonBytes(rp)
  {
    Concat3(buf.data, Encode(|rp.value|), rp.value);
    EncodeVarint(|rp.value|, buf);
    buf.Extend(rp.value);
  }

  method DecodeReasonPhrase(buf: Cursor) returns (r: Result<ReasonPhrase>)
    modifies buf
    ensures Follows(r, buf.left, ParseReason(old(buf.left)))
  {
    var len :- DecodeVarint(buf);
    if len > MAX_LENGTH {
      return Err;
    }
    var value :- buf.Take(len);
    r := Ok(ReasonPhrase(value));
  }
}
