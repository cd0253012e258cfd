/** Delta-coded key-value pairs (moqt-core/src/wire/key_value_pair.rs), section 1.4.3 of
    draft-ietf-moq-transport-17. */
module KeyValuePairs {
  import opened Words
  import opened Codec
  import opened Varint

  datatype KvValue = VarintValue(number: u64) | BytesValue(content: blob)
  datatype KeyValuePair = KeyValuePair(typeId: u64, value: KvValue)

  const MAX_VALUE_LENGTH: u64 := 0xffff

  // ----- specification -----

  /** Even types carry numbers, odd types carry bytes. */
  predicate HasParity(p: KeyValuePair) {
    p.value.VarintValue? <==> p.typeId % 2 == 0
  }

  function EncodeValue(v: KvValue): bytes {
    match v
    case VarintValue(n) => Encode(n)
    case BytesValue(b) => Encode(|b|) + b
  }

  function EncodePairs(pairs: seq<KeyValuePair>, prev: u64): Option<bytes> {
    if pairs == [] then Some([])
    else
      var p := pairs[0];
      if p.typeId < prev || !HasParity(p) then None
      else Prepend(EncodePair(p, prev), EncodePairs(pairs[1..], p.typeId))
  }

  function EncodePair(p: KeyValuePair, prev: u64): (s: bytes)
    requires prev <= p.typeId
    ensures s != []
  {
    Encode(p.typeId - prev) + EncodeValue(p.value)
  }

  function Prepend(s: bytes, o: Option<bytes>): Option<bytes> {
    match o case None => None case Some(t) => Some(s + t)
  }

  function ParseValue(typeId: u64, s: bytes): Parse<KvValue> {
    if typeId % 2 == 0 then
      var (n, s1) :- ParseVarint(s);
      Accept(VarintValue(n), s1)
    else
      var (len, s1) :- ParseVarint(s);
      if len > MAX_VALUE_LENGTH then Reject
      else
        var (b, s2) :- TakeBytes(s1, len);
        Accept(BytesValue(b), s2)
  }

  function ParsePair(s: bytes, prev: u64): Parse<KeyValuePair> {
    var (delta, s1) :- ParseVarint(s);
    if prev + delta >= U64 then Reject
    else
      var (v, s2) :- ParseValue(prev + delta, s1);
      Accept(KeyValuePair(prev + delta, v), s2)
  }

  lemma ParsePairShrinks(s: bytes, prev: u64)
    ensures ParsePair(s, prev).Accept? ==> |ParsePair(s, prev).rest| < |s|
  {
  }

  /** The whole string, pair after pair. */
  function ParsePairs(s: bytes, prev: u64): Option<seq<KeyValuePair>>
    decreases |s|
  {
    if s == [] then Some([])
    else
      ParsePairShrinks(s, prev);
      match ParsePair(s, prev)
      case Reject => None
      case Accept(p, rest) => PrependPair([p], ParsePairs(rest, p.typeId))
  }

  function PrependPair(ps: seq<KeyValuePair>, o: Option<seq<KeyValuePair>>): Option<seq<KeyValuePair>> {
    match o case None => None case Some(qs) => Some(ps + qs)
  }

  // ----- laws -----

  predicate Fits(v: KvValue) { v.BytesValue? ==> |v.content| < 0x1_0000 }

  lemma ParseEncodedValue(typeId: u64, v: KvValue, rest: bytes)
    requires HasParity(KeyValuePair(typeId, v))
    ensures ParseValue(typeId, EncodeValue(v) + rest) == if Fits(v) then Accept(v, rest) else Reject
  {
    match v
    case VarintValue(n) => RoundTrip(n, rest);
    case BytesValue(b) =>
      assert EncodeValue(v) + rest == Encode(|b|) + (b + rest);
      RoundTrip(|b|, b + rest);
      TakeFromConcat(b, rest);
  }

  lemma ParseEncodedPair(p: KeyValuePair, prev: u64, rest: bytes)
    requires HasParity(p) && prev <= p.typeId
    ensures ParsePair(EncodePair(p, prev) + rest, prev) == if Fits(p.value) then Accept(p, rest) else Reject
  {
    var d := p.typeId - prev;
    var s1 := EncodeValue(p.value) + rest;
    assert EncodePair(p, prev) + rest == Encode(d) + s1;
    RoundTrip(d, s1);
    ParseEncodedValue(p.typeId, p.value, rest);
    PairFromParts(EncodePair(p, prev) + rest, prev, d, s1);
  }

  lemma PairFromParts(s: bytes, prev: u64, delta: u64, s1: bytes)
    requires ParseVarint(s) == Accept(delta, s1) && prev + delta < U64
    ensures ParsePair(s, prev) ==
            match ParseValue(prev + delta, s1)
            case Reject => Reject
            case Accept(v, rest) => Accept(KeyValuePair(prev + delta, v), rest)
  {
  }

  lemma ParsePairsStep(s: bytes, prev: u64, p: KeyValuePair, rest: bytes, fits: bool)
    requires s != []
    requires ParsePair(s, prev) == if fits then Accept(p, rest) else Reject
    ensures ParsePairs(s, prev) == if fits then PrependPair([p], ParsePairs(rest, p.typeId)) else None
  {
  }

  /** Decoding inverts encoding exactly when every byte value fits the decoder's limit, which the
      encoder does not check. */
  lemma {:induction false} PairsRoundTrip(pairs: seq<KeyValuePair>, prev: u64, s: bytes)
    requires EncodePairs(pairs, prev) == Some(s)
    ensures ParsePairs(s, prev) == if (forall p :: p in pairs ==> Fits(p.value)) then Some(pairs) else None
  {
    if pairs != [] {
      var p := pairs[0];
      var rest := EncodePairs(pairs[1..], p.typeId).value;
      ParseEncodedPair(p, prev, rest);
      PairsRoundTrip(pairs[1..], p.typeId, rest);
      assert pairs == [p] + pairs[1..];
      ParsePairsStep(s, prev, p, rest, Fits(p.value));
    }
  }

  /** What the decoder accepts, the encoder accepts too, and makes no longer; the result is a fixed
      point of decoding and encoding. */
  lemma {:induction false} AcceptedPairsReencode(s: bytes, prev: u64)
    requires ParsePairs(s, prev).Some?
    ensures var pairs := ParsePairs(s, prev).value;
            var again := EncodePairs(pairs, prev);
            && again.Some? && |again.value| <= |s|
            && (forall p :: p in pairs ==> Fits(p.value))
            && ParsePairs(again.value, prev) == Some(pairs)
    decreases |s|
  {
    if s != [] {
      ParsePairShrinks(s, prev);
      var Accept(p, rest) := ParsePair(s, prev);
      ParsedPairReencodes(s, prev);
      AcceptedPairsReencode(rest, p.typeId);
      var pairs := ParsePairs(s, prev).value;
      assert pairs[0] == p && pairs[1..] == ParsePairs(rest, p.typeId).value;
      PairsRoundTrip(pairs, prev, EncodePairs(pairs, prev).value);
    }
  }

  lemma ParsedPairReencodes(s: bytes, prev: u64)
    requires ParsePair(s, prev).Accept?
    ensures var Accept(p, rest) := ParsePair(s, prev);
            && prev <= p.typeId && HasParity(p) && Fits(p.value)
            && |EncodePair(p, prev)| + |rest| <= |s|
  {
    EncodeIsShortest(s);
    EncodeIsShortest(ParseVarint(s).rest);
  }

  // ----- the code -----

  method EncodeKeyValuePairs(pairs: seq<KeyValuePair>, buf: Buffer) returns (r: Result<()>)
    modifies buf
    ensures match EncodePairs(pairs, 0)
            case Some(s) => r == Ok(()) && buf.data == old(buf.data) + s
            case None => r == Err
  {
    var prevType: u64 := 0;
    ghost var before := buf.data;
    ghost var done: bytes := [];
    var i := 0;
    PrependNothing(EncodePairs(pairs, 0));
    assert pairs[0..] == pairs;
    while i < |pairs|
      invariant 0 <= i <= |pairs|
      invariant buf.data == before + done
      invariant EncodePairs(pairs, 0) == Prepend(done, EncodePairs(pairs[i..], prevType))
    {
      var pair := pairs[i];
      EncodePairsFrom(pairs, i, prevType, done);
      if !(pair.typeId >= prevType || prevType == 0) {
        return Err;
      }
      if (pair.value.VarintValue? && pair.typeId % 2 == 1) || (pair.value.BytesValue? && pair.typeId % 2 == 0) {
        return Err;
      }
      WritePair(pair, prevType, buf);
      Concat3(before, done, EncodePair(pair, prevType));
      done := done + EncodePair(pair, prevType);
      prevType := pair.typeId;
      i := i + 1;
    }
    EncodePairsEnd(pairs[i..], prevType, done);
    r := Ok(());
  }

  lemma EncodePairsFrom(pairs: seq<KeyValuePair>, i: nat, prev: u64, done: bytes)
    requires i < |pairs|
    ensures Prepend(done, EncodePairs(pairs[i..], prev)) ==
            if pairs[i].typeId < prev || !HasParity(pairs[i]) then None
            else Prepend(done + EncodePair(pairs[i], prev), EncodePairs(pairs[i + 1..], pairs[i].typeId))
  {
    assert pairs[i..][0] == pairs[i] && pairs[i..][1..] == pairs[i + 1..];
    if prev <= pairs[i].typeId {
      PrependTwice(done, EncodePair(pairs[i], prev), EncodePairs(pairs[i + 1..], pairs[i].typeId));
    }
  }

  lemma EncodePairsEnd(pairs: seq<KeyValuePair>, prev: u64, done: bytes)
    requires pairs == []
    ensures Prepend(done, EncodePairs(pairs, prev)) == Some(done)
  {
    assert done + [] == done;
  }

  /** The writes of one round of the loop. */
  method WritePair(pair: KeyValuePair, prevType: u64, buf: Buffer)
    requires prevType <= pair.typeId
    modifies buf
    ensures buf.data == old(buf.data) + EncodePair(pair, prevType)
  {
    EncodeVarint(pair.typeId - prevType, buf);
    match pair.value {
      case VarintValue(n) =>
        EncodeVarint(n, buf);
      case BytesValue(b) =>
        EncodeVarint(|b|, buf);
        buf.Extend(b);
    }
  }

  lemma PrependNothing(o: Option<bytes>)
    ensures Prepend([], o) == o
  {
    if o.Some? {
      assert [] + o.value == o.value;
    }
  }

  lemma PrependTwice(s: bytes, t: bytes, o: Option<bytes>)
    ensures Prepend(s, Prepend(t, o)) == Prepend(s + t, o)
  {
    if o.Some? {
      assert s + (t + o.value) == s + t + o.value;
    }
  }

  lemma PrependPairTwice(ps: seq<KeyValuePair>, qs: seq<KeyValuePair>, o: Option<seq<KeyValuePair>>)
    ensures PrependPair([], o) == o
    ensures PrependPair(ps, PrependPair(qs, o)) == PrependPair(ps + qs, o)
  {
    if o.Some? {
      assert [] + o.value == o.value;
      assert ps + (qs + o.value) == ps + qs + o.value;
    }
  }

  method DecodeKeyValuePairs(buf: Cursor) returns (r: Result<seq<KeyValuePair>>)
    modifies buf
    ensures match ParsePairs(old(buf.left), 0)
            case Some(pairs) => r == Ok(pairs) && buf.left == []
            case None => r == Err
  {
    var pairs: seq<KeyValuePair> := [];
    var prevType: u64 := 0;
    ghost var input := buf.left;
    PrependPairTwice([], [], ParsePairs(input, 0));
    while buf.left != []
      invariant ParsePairs(input, 0) == PrependPair(pairs, ParsePairs(buf.left, prevType))
      decreases |buf.left|
    {
      ParsePairShrinks(buf.left, prevType);
      var pair :- ReadPair(prevType, buf);
      PrependPairTwice(pairs, [pair], ParsePairs(buf.left, pair.typeId));
      pairs := pairs + [pair];
      prevType := pair.typeId;
    }
    assert pairs + [] == pairs;
    r := Ok(pairs);
  }

  /** The reads of one round of the loop. */
  method ReadPair(prevType: u64, buf: Cursor) returns (r: Result<KeyValuePair>)
    modifies buf
    ensures Follows(r, buf.left, ParsePair(old(buf.left), prevType))
  {
    var delta :- DecodeVarint(buf);
    if prevType + delta >= U64 {
      return Err;
    }
    var value :- ReadValue(prevType + delta, buf);
    r := Ok(KeyValuePair(prevType + delta, value));
  }

  method ReadValue(typeId: u64, buf: Cursor) returns (r: Result<KvValue>)
    modifies buf
    ensures Follows(r, buf.left, ParseValue(typeId, old(buf.left)))
  {
    if typeId % 2 == 0 {
      var n :- DecodeVarint(buf);
      r := Ok(VarintValue(n));
    } else {
      var len :- DecodeVarint(buf);
      if len > MAX_VALUE_LENGTH {
        return Err;
      }
      var content :- buf.Take(len);
      r := Ok(BytesValue(content));
    }
  }
}
