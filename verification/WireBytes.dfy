/** Messages byte by byte: one example of each, with different values in different fields, so that neither
    the order of the fields nor a number can be changed on both sides unnoticed. */
module WireBytes {
  import opened Words
  import opened Codec
  import opened Varint
  import opened Blocks
  import opened Wire
  import opened KeyValuePairs
  import opened Parameters
  import opened Namespaces
  import opened ReasonPhrases
  import opened Messages
  import opened Setup
  import opened Subgroups
  import opened Ivf
  import Segmentation

  /** The examples of section 1.4.1 of the draft: 37, 15293 and 2893212287960; and the two wide forms. */
  lemma ShortVarints()
    ensures Encode(37) == [0x25]
    ensures Encode(15293) == [0xbb, 0xbd]
  {
    OneByte(37);
    EncodeByShifts(15293, 2);
  }

  lemma ByteStep(v: nat, q: nat, b: byte)
    requires v == q * 256 + b
    ensures ByteAt(v, 0) == b && forall i: nat :: ByteAt(v, i + 1) == ByteAt(q, i)
  {
  }

  lemma SixByteBytes()
    ensures WidthFor(2893212287960) == 6 && Prefix(6) == 0xf8 && ByteAt(2893212287960, 5) == 2
    ensures ByteAt(2893212287960, 0) == 0xd8
    ensures ByteAt(2893212287960, 1) == 0x03
    ensures ByteAt(2893212287960, 2) == 0xe4
    ensures ByteAt(2893212287960, 3) == 0xa0
    ensures ByteAt(2893212287960, 4) == 0xa1
  {
    ByteStep(0x2a1a0e403d8, 0x2a1a0e403, 0xd8);
    ByteStep(0x2a1a0e403, 0x2a1a0e4, 0x3);
    ByteStep(0x2a1a0e4, 0x2a1a0, 0xe4);
    ByteStep(0x2a1a0, 0x2a1, 0xa0);
    ByteStep(0x2a1, 0x2, 0xa1);
    ByteStep(0x2, 0x0, 0x2);
    hide ByteAt;
  }

  lemma SixByteVarint()
    ensures Encode(2893212287960) == [0xfa, 0xa1, 0xa0, 0xe4, 0x03, 0xd8]
  {
    SixByteBytes();
    EncodeByShifts(2893212287960, 6);
    var s := Encode(2893212287960);
    assert s == EncodeAs(2893212287960, 6) && |s| == 6;
    hide *;
  }

  lemma EightByteBytes()
    ensures WidthFor(0xfa_318f_a8e3_ca11) == 8 && Prefix(8) == 0xfe && ByteAt(0xfa_318f_a8e3_ca11, 7) == 0
    ensures ByteAt(0xfa_318f_a8e3_ca11, 0) == 0x11
    ensures ByteAt(0xfa_318f_a8e3_ca11, 1) == 0xca
    ensures ByteAt(0xfa_318f_a8e3_ca11, 2) == 0xe3
    ensures ByteAt(0xfa_318f_a8e3_ca11, 3) == 0xa8
    ensures ByteAt(0xfa_318f_a8e3_ca11, 4) == 0x8f
    ensures ByteAt(0xfa_318f_a8e3_ca11, 5) == 0x31
    ensures ByteAt(0xfa_318f_a8e3_ca11, 6) == 0xfa
  {
    ByteStep(0xfa318fa8e3ca11, 0xfa318fa8e3ca, 0x11);
    ByteStep(0xfa318fa8e3ca, 0xfa318fa8e3, 0xca);
    ByteStep(0xfa318fa8e3, 0xfa318fa8, 0xe3);
    ByteStep(0xfa318fa8, 0xfa318f, 0xa8);
    ByteStep(0xfa318f, 0xfa31, 0x8f);
    ByteStep(0xfa31, 0xfa, 0x31);
    ByteStep(0xfa, 0x0, 0xfa);
    hide ByteAt;
  }

  lemma EightByteVarint()
    ensures Encode(0xfa_318f_a8e3_ca11) == [0xfe, 0xfa, 0x31, 0x8f, 0xa8, 0xe3, 0xca, 0x11]
  {
    EightByteBytes();
    EncodeByShifts(0xfa_318f_a8e3_ca11, 8);
    var s := Encode(0xfa_318f_a8e3_ca11);
    assert s == EncodeAs(0xfa_318f_a8e3_ca11, 8) && |s| == 8;
    hide *;
  }

  lemma NineByteBytes()
    ensures WidthFor(0xffff_ffff_ffff_ffff) == 9 && Prefix(9) == 0xff && ByteAt(0xffff_ffff_ffff_ffff, 8) == 0
    ensures ByteAt(0xffff_ffff_ffff_ffff, 0) == 0xff
    ensures ByteAt(0xffff_ffff_ffff_ffff, 1) == 0xff
    ensures ByteAt(0xffff_ffff_ffff_ffff, 2) == 0xff
    ensures ByteAt(0xffff_ffff_ffff_ffff, 3) == 0xff
    ensures ByteAt(0xffff_ffff_ffff_ffff, 4) == 0xff
    ensures ByteAt(0xffff_ffff_ffff_ffff, 5) == 0xff
    ensures ByteAt(0xffff_ffff_ffff_ffff, 6) == 0xff
    ensures ByteAt(0xffff_ffff_ffff_ffff, 7) == 0xff
  {
    ByteStep(0xffffffffffffffff, 0xffffffffffffff, 0xff);
    ByteStep(0xffffffffffffff, 0xffffffffffff, 0xff);
    ByteStep(0xffffffffffff, 0xffffffffff, 0xff);
    ByteStep(0xffffffffff, 0xffffffff, 0xff);
    ByteStep(0xffffffff, 0xffffff, 0xff);
    ByteStep(0xffffff, 0xffff, 0xff);
    ByteStep(0xffff, 0xff, 0xff);
    ByteStep(0xff, 0x0, 0xff);
    hide ByteAt;
  }

  lemma NineByteVarint()
    ensures Encode(0xffff_ffff_ffff_ffff) == [0xff, 0xff, 0xff, 0xff, 0xff, 0xff, 0xff, 0xff, 0xff]
  {
    NineByteBytes();
    EncodeByShifts(0xffff_ffff_ffff_ffff, 9);
    var s := Encode(0xffff_ffff_ffff_ffff);
    assert s == EncodeAs(0xffff_ffff_ffff_ffff, 9) && |s| == 9;
    hide *;
  }

  lemma BlockOf(b: blob)
    requires |b| < 0x80
    ensures EncodeBlock(b) == [|b|] + b
  {
    OneByte(|b|);
  }

  lemma FrameOf(t: byte, payload: bytes)
    requires t < 0x80 && |payload| < 0x100
    ensures FrameBytes(t, payload) == [t, 0, |payload|] + payload
  {
    OneByte(t);
    Messages.LengthBytes(|payload|);
    hide Encode, BigEndian;
    assert [t] + ([0, |payload|] + payload) == [t, 0, |payload|] + payload;
  }

  lemma NamespaceExample()
    ensures NamespaceBytes(TrackNamespace([[0x61], [0x62, 0x63]])) == [2, 1, 0x61, 2, 0x62, 0x63]
  {
    OneByte(2);
    BlockOf([0x61]);
    BlockOf([0x62, 0x63]);
    hide Encode, EncodeBlock;
    var f1, f2: blob := [0x61], [0x62, 0x63];
    var fs, last: seq<blob> := [f1, f2], [f2];
    assert fs[1..] == last && last[1..] == [];
    assert FieldBytes(last) == [2, 0x62, 0x63] + FieldBytes([]);
    assert FieldBytes(fs) == [1, 0x61] + [2, 0x62, 0x63];
  }

  lemma OneParameter(p: MessageParameter)
    requires Encodable(p)
    ensures EncodeParams([p]) == Some(Encode(1) + ItemBytes(Kept(p), 0))
  {
    hide Encode, ItemBytes;
    var item := ItemBytes(Kept(p), 0);
    assert [p][1..] == [] && item + [] == item;
    assert EncodeBody([p], 0) == Some(item);
  }

  lemma TwoParameters(p: MessageParameter, q: MessageParameter)
    requires Encodable(p) && Encodable(q) && ParamTypeId(p) <= ParamTypeId(q)
    ensures EncodeParams([p, q]) == Some(Encode(2) + (ItemBytes(Kept(p), 0) + ItemBytes(Kept(q), ParamTypeId(p))))
  {
    hide Encode, ItemBytes;
    var item := ItemBytes(Kept(q), ParamTypeId(p));
    assert [p, q][1..] == [q] && [q][1..] == [] && item + [] == item;
    assert EncodeBody([q], ParamTypeId(p)) == Some(item);
  }

  lemma ItemExamples()
    ensures ItemBytes(Kept(Forward(1)), 0) == [0x10, 1]
    ensures ItemBytes(Kept(FilterParameter(NextGroupStart)), FORWARD) == [0x11, 1, 1]
  {
    OneByte(1);
    OneByte(0x10);
    OneByte(0x11);
    BlockOf([1]);
    hide Encode, EncodeBlock;
    assert [0x10] + [1] == [0x10, 1] && [0x11] + [1, 1] == [0x11, 1, 1];
  }

  lemma LocationItem()
    ensures ItemBytes(Kept(LargestObject(5, 6)), 0) == [9, 5, 6]
  {
    OneByte(5);
    OneByte(6);
    OneByte(9);
    hide Encode;
    assert [9] + ([5] + [6]) == [9, 5, 6];
  }

  lemma ParametersExample(p: MessageParameter, q: MessageParameter)
    requires p == Forward(1) && q == FilterParameter(NextGroupStart)
    ensures EncodeParams([p, q]) == Some([2, 0x10, 1, 0x11, 1, 1])
  {
    OneByte(2);
    ItemExamples();
    TwoParameters(p, q);
    hide *;
    assert [2] + ([0x10, 1] + [0x11, 1, 1]) == [2, 0x10, 1, 0x11, 1, 1];
  }

  lemma LocationExample(p: MessageParameter)
    requires p == LargestObject(5, 6)
    ensures EncodeParams([p]) == Some([1, 9, 5, 6])
  {
    hide Encode, EncodeBody, EncodeParams, ItemBytes, ValueBytes, KeptBytes, TypeOf, ParamTypeId;
    OneByte(1);
    LocationItem();
    OneParameter(p);
    assert [1] + [9, 5, 6] == [1, 9, 5, 6];
  }

  const SUBSCRIBE := SubscribeMessage(1, 2, TrackNamespace([[0x61], [0x62, 0x63]]), [0x64],
                                      [Forward(1), FilterParameter(NextGroupStart)])

  const SUBSCRIBE_PAYLOAD: bytes :=
    [1] + ([2] + ([2, 1, 0x61, 2, 0x62, 0x63] + ([1, 0x64] + [2, 0x10, 1, 0x11, 1, 1])))

  lemma SubscribeExample()
    ensures MessageBytes(Subscribe(SUBSCRIBE)) == Some([3, 0, 16] + SUBSCRIBE_PAYLOAD)
  {
    SubscribePayloadExample();
    PayloadLength();
    hide SUBSCRIBE_PAYLOAD, SUBSCRIBE, PayloadOf, FrameBytes;
    FrameOf(3, SUBSCRIBE_PAYLOAD);
  }

  lemma PayloadLength()
    ensures |SUBSCRIBE_PAYLOAD| == 16
  {
  }

  lemma SubscribePayloadExample()
    ensures PayloadOf(Subscribe(SUBSCRIBE)) == Some(SUBSCRIBE_PAYLOAD)
  {
    OneByte(1);
    OneByte(2);
    NamespaceExample();
    NameExample();
    ParametersExample(Forward(1), FilterParameter(NextGroupStart));
    FieldsInLimits(SUBSCRIBE.trackNamespace);
    hide Encode, NamespaceBytes, EncodeBlock, EncodeParams, InLimits, PayloadOf;
    SubscribeFields(SUBSCRIBE, [2, 1, 0x61, 2, 0x62, 0x63], [1, 0x64], [2, 0x10, 1, 0x11, 1, 1]);
  }

  lemma SubscribeFields(m: SubscribeMessage, ns: bytes, name: bytes, ps: bytes)
    requires InLimits(m.trackNamespace) && NamespaceBytes(m.trackNamespace) == ns
    requires EncodeBlock(m.trackName) == name && EncodeParams(m.parameters) == Some(ps)
    ensures PayloadOf(Subscribe(m)) ==
            Some(Encode(m.requestId) + (Encode(m.requiredRequestIdDelta) + (ns + (name + ps))))
  {
    hide Encode, NamespaceBytes, EncodeBlock, EncodeParams, InLimits;
  }

  lemma FieldsInLimits(ns: TrackNamespace)
    requires ns.fields == [[0x61], [0x62, 0x63]]
    ensures InLimits(ns)
  {
  }

  lemma NameExample()
    ensures EncodeBlock([0x64]) == [1, 0x64]
    ensures EncodeBlock([0x6e, 0x6f]) == [2, 0x6e, 0x6f]
    ensures EncodeBlock([0x70, 0x71]) == [2, 0x70, 0x71]
    ensures EncodeBlock([]) == [0]
  {
    BlockOf([0x64]);
    BlockOf([0x6e, 0x6f]);
    BlockOf([0x70, 0x71]);
    BlockOf([]);
    hide EncodeBlock;
    assert [1] + [0x64] == [1, 0x64] && [2] + [0x6e, 0x6f] == [2, 0x6e, 0x6f];
    assert [2] + [0x70, 0x71] == [2, 0x70, 0x71] && [0] + [] == [0];
  }

  lemma SubscribeOkExample()
    ensures MessageBytes(SubscribeOk(SubscribeOkMessage(7, [LargestObject(5, 6)], [0x70, 0x71]))) ==
            Some([4, 0, 8] + ([7] + ([1, 9, 5, 6] + [2, 0x70, 0x71])))
  {
    OneByte(7);
    NameExample();
    LocationExample(LargestObject(5, 6));
    FrameOf(4, [7] + ([1, 9, 5, 6] + [2, 0x70, 0x71]));
    hide Encode, EncodeBlock, EncodeParams, FrameBytes;
  }

  lemma RequestErrorExample()
    ensures MessageBytes(RequestError(RequestErrorMessage(0x10, 1, ReasonPhrase([0x6e, 0x6f])))) ==
            Some([5, 0, 5] + ([0x10] + ([1] + [2, 0x6e, 0x6f])))
  {
    OneByte(0x10);
    OneByte(1);
    NameExample();
    FrameOf(5, [0x10] + ([1] + [2, 0x6e, 0x6f]));
    hide Encode, EncodeBlock, FrameBytes;
  }

  lemma PublishNamespaceExample()
    ensures MessageBytes(PublishNamespace(PublishNamespaceMessage(1, 2, TrackNamespace([[0x61], [0x62, 0x63]])))) ==
            Some([6, 0, 9] + ([1] + ([2] + ([2, 1, 0x61, 2, 0x62, 0x63] + [0]))))
  {
    OneByte(0);
    OneByte(1);
    OneByte(2);
    NamespaceExample();
    FrameOf(6, [1] + ([2] + ([2, 1, 0x61, 2, 0x62, 0x63] + [0])));
    hide Encode, NamespaceBytes, FrameBytes;
  }

  lemma RequestOkExample()
    ensures MessageBytes(RequestOk(RequestOkMessage)) == Some([7, 0, 1, 0])
  {
    OneByte(0);
    hide Encode, FrameBytes;
    FrameOf(7, [0]);
    assert [7, 0, 1] + [0] == [7, 0, 1, 0];
  }

  lemma PublishDoneExample()
    ensures MessageBytes(PublishDone(PublishDoneMessage(2, 3, ReasonPhrase([])))) == Some([0x0b, 0, 3] + ([2] + ([3] + [0])))
  {
    OneByte(2);
    OneByte(3);
    NameExample();
    FrameOf(0x0b, [2] + ([3] + [0]));
    hide Encode, EncodeBlock, FrameBytes;
  }

  /** The types 1, 2 and 5 go out as the deltas 1, 1 and 3. */
  lemma SetupExample()
    ensures SetupPayload(SetupMessage([Path([0x2f]), Unknown(2, VarintValue(9)), Authority([0x61])])) ==
            Some([1, 1, 0x2f, 1, 9, 3, 1, 0x61])
  {
    var p1, p2, p3 := KeyValuePair(1, BytesValue([0x2f])), KeyValuePair(2, VarintValue(9)), KeyValuePair(5, BytesValue([0x61]));
    assert Map(ToPair, [Path([0x2f]), Unknown(2, VarintValue(9)), Authority([0x61])]) == [p1, p2, p3];
    hide ToPair, EncodePair, EncodeValue;
    ThreePairs(p1, p2, p3);
    PairExamples();
    assert [1, 1, 0x2f] + ([1, 9] + [3, 1, 0x61]) == [1, 1, 0x2f, 1, 9, 3, 1, 0x61];
  }

  lemma PairExamples()
    ensures EncodePair(KeyValuePair(1, BytesValue([0x2f])), 0) == [1, 1, 0x2f]
    ensures EncodePair(KeyValuePair(2, VarintValue(9)), 1) == [1, 9]
    ensures EncodePair(KeyValuePair(5, BytesValue([0x61])), 2) == [3, 1, 0x61]
  {
    OneByte(1);
    OneByte(3);
    OneByte(9);
    hide Encode;
    assert [1] + ([1] + [0x2f]) == [1, 1, 0x2f] && [1] + [9] == [1, 9] && [3] + ([1] + [0x61]) == [3, 1, 0x61];
  }

  lemma ThreePairs(p: KeyValuePair, q: KeyValuePair, r: KeyValuePair)
    requires HasParity(p) && HasParity(q) && HasParity(r) && p.typeId <= q.typeId <= r.typeId
    ensures EncodePairs([p, q, r], 0) ==
            Some(EncodePair(p, 0) + (EncodePair(q, p.typeId) + EncodePair(r, q.typeId)))
  {
    hide EncodePair;
    var last := EncodePair(r, q.typeId);
    assert [p, q, r][1..] == [q, r] && [q, r][1..] == [r] && [r][1..] == [] && last + [] == last;
    assert EncodePairs([r], q.typeId) == Some(last);
    assert EncodePairs([q, r], p.typeId) == Some(EncodePair(q, p.typeId) + last);
  }

  lemma SetupFrameExample()
    ensures FrameBytes(MSG_SETUP, [9]) == [0xaf, 0, 0, 1, 9]
  {
    EncodeByShifts(MSG_SETUP, 2);
    Messages.LengthBytes(1);
    hide Encode, BigEndian;
    assert [0xaf, 0] + ([0, 1] + [9]) == [0xaf, 0, 0, 1, 9];
  }

  /** The header that the publisher program writes, a header with properties and priority, and an object. */
  lemma DataStreamExamples()
    ensures HeaderBytes(Segmentation.GroupHeader(5)) == [0x3c, 1, 5, 0]
    ensures HeaderBytes(SubgroupHeader(2, 3, true, false, None, Some(0x80))) == [0x11, 2, 3, 0x80]
    ensures Segmentation.ObjectBytes([0xaa, 0xbb]) == [0, 2, 0xaa, 0xbb]
  {
    OneByte(0);
    OneByte(1);
    OneByte(2);
    OneByte(3);
    OneByte(5);
    OneByte(0x11);
    OneByte(0x3c);
    hide Encode;
    assert [0x3c] + ([1] + ([5] + ([0] + []))) == [0x3c, 1, 5, 0];
    assert [0x11] + ([2] + ([3] + ([] + [0x80]))) == [0x11, 2, 3, 0x80];
    assert [0] + [2] + [0xaa, 0xbb] == [0, 2, 0xaa, 0xbb];
  }

  lemma SizeField()
    ensures LittleEndian(1, 4) == [1, 0, 0, 0]
  {
  }

  lemma TimeField()
    ensures LittleEndian(0x0102, 8) == [2, 1, 0, 0, 0, 0, 0, 0]
  {
    assert LittleEndian(0, 6) == [0, 0, 0, 0, 0, 0] by {
      assert LittleEndian(0, 3) == [0, 0, 0];
    }
    assert LittleEndian(0x0102, 8) == [2] + ([1] + LittleEndian(0, 6));
  }

  lemma IvfExample()
    ensures RecordBytes(0x0102, [9]) == [1, 0, 0, 0] + ([2, 1, 0, 0, 0, 0, 0, 0] + [9])
  {
    SizeField();
    TimeField();
    hide LittleEndian;
  }
}
