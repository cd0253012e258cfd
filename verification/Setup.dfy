/** The SETUP message (moqt-core/src/wire/setup.rs), section 9.4 of draft-ietf-moq-transport-17. */
module Setup {
  import opened Words
  import opened Codec
  import opened Varint
  import opened Wire
  import opened KeyValuePairs
  import opened Messages

  const OPTION_PATH: u64 := 0x01
  const OPTION_AUTHORITY: u64 := 0x05

  datatype SetupOption =
    | Path(path: blob)
    | Authority(authority: blob)
    | Unknown(typeId: u64, value: KvValue)

  datatype SetupMessage = SetupMessage(setupOptions: seq<SetupOption>)

  function ToPair(o: SetupOption): KeyValuePair {
    match o
    case Path(v) => KeyValuePair(OPTION_PATH, BytesValue(v))
    case Authority(v) => KeyValuePair(OPTION_AUTHORITY, BytesValue(v))
    case Unknown(t, v) => KeyValuePair(t, v)
  }

  function FromPair(p: KeyValuePair): SetupOption {
    if p.typeId == OPTION_PATH && p.value.BytesValue? then Path(p.value.content)
    else if p.typeId == OPTION_AUTHORITY && p.value.BytesValue? then Authority(p.value.content)
    else Unknown(p.typeId, p.value)
  }

  function Map<T, U>(f: T -> U, s: seq<T>): (r: seq<U>)
    ensures |r| == |s|
    ensures forall i :: 0 <= i < |s| ==> r[i] == f(s[i])
  {
    seq(|s|, i requires 0 <= i < |s| => f(s[i]))
  }

  /** A known option is never left in its unknown form. */
  predicate IsCanonical(o: SetupOption) {
    o.Unknown? && o.value.BytesValue? ==> o.typeId != OPTION_PATH && o.typeId != OPTION_AUTHORITY
  }

  function SetupPayload(m: SetupMessage): Option<bytes> {
    EncodePairs(Map(ToPair, m.setupOptions), 0)
  }

  function ParseSetup(s: bytes): Parse<SetupMessage> {
    var (frame, rest) :- ParseFrame(s);
    if frame.msgType != MSG_SETUP then Reject
    else
      match ParsePairs(frame.payload, 0)
      case None => Reject
      case Some(pairs) => Accept(SetupMessage(Map(FromPair, pairs)), rest)
  }

  // ----- laws -----

  lemma FromPairCanonical(o: SetupOption)
    ensures FromPair(ToPair(o)) == o <==> IsCanonical(o)
    ensures ToPair(FromPair(ToPair(o))) == ToPair(o)
  {
  }

  lemma {:induction false} ValuesFitPayload(pairs: seq<KeyValuePair>, prev: u64, s: bytes)
    requires EncodePairs(pairs, prev) == Some(s) && |s| < U16
    ensures forall p :: p in pairs ==> Fits(p.value)
  {
    hide Encode;
    if pairs != [] {
      ValuesFitPayload(pairs[1..], pairs[0].typeId, EncodePairs(pairs[1..], pairs[0].typeId).value);
    }
  }

  /** Which pairs the decoder finds: all of them when the payload fits the 16-bit length, and never
      all of them when it does not. */
  lemma PairsThroughFrame(pairs: seq<KeyValuePair>, s: bytes)
    requires EncodePairs(pairs, 0) == Some(s)
    ensures ParsePairs(s[..|s| % U16], 0) == Some(pairs) <==> |s| < U16
  {
    hide EncodePairs, ParsePairs, Fits;
    var n := |s| % U16;
    if |s| < U16 {
      assert s[..n] == s;
      ValuesFitPayload(pairs, 0, s);
      PairsRoundTrip(pairs, 0, s);
    } else if ParsePairs(s[..n], 0).Some? {
      AcceptedPairsReencode(s[..n], 0);
    }
  }

  /** Decoding inverts encoding if and only if the payload fits the 16-bit length and no known option
      was given in its unknown form; such an option comes back as what it stands for. */
  lemma SetupRoundTrip(m: SetupMessage, rest: bytes)
    requires SetupPayload(m).Some?
    ensures var p := SetupPayload(m).value;
            var back := ParseSetup(FrameBytes(MSG_SETUP, p) + rest);
            && ((back.Accept? && back.value == m) <==>
                (|p| < U16 && forall o :: o in m.setupOptions ==> IsCanonical(o)))
            && (|p| < U16 ==> back == Accept(SetupMessage(Map(FromPair, Map(ToPair, m.setupOptions))), rest))
  {
    hide FrameBytes, ParseFrame, EncodePairs, ParsePairs;
    var pairs, p := Map(ToPair, m.setupOptions), SetupPayload(m).value;
    FrameRoundTrip(MSG_SETUP, p, rest);
    PairsThroughFrame(pairs, p);
    if |p| < U16 {
      assert p[|p|..] + rest == rest;
      CanonicalOptions(m.setupOptions);
    } else if ParsePairs(p[..|p| % U16], 0).Some? {
      PairsOfOptions(ParsePairs(p[..|p| % U16], 0).value);
    }
  }

  /** A frame of another type is no SETUP. */
  lemma OtherTypeIsNoSetup(t: u64, payload: bytes, rest: bytes)
    requires t != MSG_SETUP
    ensures ParseSetup(FrameBytes(t, payload) + rest) == Reject
  {
    hide ParseFrame, FrameBytes, ParsePairs;
    FrameRoundTrip(t, payload, rest);
  }

  lemma PairsOfOptions(pairs: seq<KeyValuePair>)
    ensures Map(ToPair, Map(FromPair, pairs)) == pairs
  {
  }

  lemma CanonicalOptions(os: seq<SetupOption>)
    ensures Map(FromPair, Map(ToPair, os)) == os <==> forall o :: o in os ==> IsCanonical(o)
  {
    var back := Map(FromPair, Map(ToPair, os));
    forall i | 0 <= i < |os|
      ensures back[i] == os[i] <==> IsCanonical(os[i])
    {
      FromPairCanonical(os[i]);
    }
    if back == os {
      forall o | o in os ensures IsCanonical(o) {
        var i :| 0 <= i < |os| && os[i] == o;
        assert back[i] == os[i];
      }
    }
  }

  // ----- the code -----

  method EncodeSetup(m: SetupMessage, buf: Buffer) returns (r: Result<()>)
    modifies buf
    ensures match SetupPayload(m)
            case Some(p) => r == Ok(()) && buf.data == old(buf.data) + FrameBytes(MSG_SETUP, p)
            case None => r == Err
  {
    hide FrameBytes, EncodePairs;
    var kvs := Map(ToPair, m.setupOptions);
    var payload := new Buffer();
    var _ :- EncodeKeyValuePairs(kvs, payload);
    NoPrefix(SetupPayload(m).value);
    EncodeMessage(MSG_SETUP, payload.data, buf);
    r := Ok(());
  }

  method DecodeSetup(buf: Cursor) returns (r: Result<SetupMessage>)
    modifies buf
    ensures Follows(r, buf.left, ParseSetup(old(buf.left)))
  {
    hide ParseFrame, ParsePairs;
    var frame :- DecodeMessage(buf);
    if frame.msgType != MSG_SETUP {
      return Err;
    }
    var payloadSlice := new Cursor(frame.payload);
    var kvs :- DecodeKeyValuePairs(payloadSlice);
    r := Ok(SetupMessage(Map(FromPair, kvs)));
  }
}
