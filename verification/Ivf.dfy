/** The IVF container: the reader of the publisher (moqt-pub/src/main.rs) and the writer of the
    subscriber (moqt-sub/src/main.rs). */
module Ivf {
  import opened Words
  import WordBits
  import opened Codec

  // ----- little-endian numerals -----

  function LittleEndian(n: nat, k: nat): (s: bytes)
    ensures |s| == k
  {
    if k == 0 then [] else [n % 256] + LittleEndian(n / 256, k - 1)
  }

  function ValueOfLittle(s: bytes): nat {
    if s == [] then 0 else s[0] + 256 * ValueOfLittle(s[1..])
  }

  lemma {:induction false} LittleEndianRoundTrip(n: nat, k: nat)
    ensures ValueOfLittle(LittleEndian(n, k)) == n % Pow256(k)
  {
    if k > 0 {
      LittleEndianRoundTrip(n / 256, k - 1);
      DivideTwice(n, Pow256(k - 1));
    }
  }

  lemma {:induction false} LittleBound(s: bytes)
    ensures ValueOfLittle(s) < Pow256(|s|)
  {
    if s != [] {
      LittleBound(s[1..]);
    }
  }

  lemma SizeBound(s: bytes)
    requires |s| == 4
    ensures ValueOfLittle(s) < U32
  {
    LittleBound(s);
    Powers();
  }

  // ----- specification -----

  datatype Record = Record(timestamp: nat, data: blob)

  /** 32 bytes: "DKIF", version 0, header size 32, "VP80", 320 x 240, 30 / 1, and 8 bytes of zero. */
  const FILE_HEADER: bytes :=
    [0x44, 0x4b, 0x49, 0x46] + LittleEndian(0, 2) + LittleEndian(32, 2) +
    [0x56, 0x50, 0x38, 0x30] + LittleEndian(320, 2) + LittleEndian(240, 2) +
    LittleEndian(30, 4) + LittleEndian(1, 4) + [0, 0, 0, 0, 0, 0, 0, 0]

  /** The size field is a u32. */
  function RecordBytes(index: nat, data: blob): bytes {
    LittleEndian(|data| % U32, 4) + (LittleEndian(index, 8) + data)
  }

  function RecordsBytes(payloads: seq<blob>, index: nat): bytes {
    if payloads == [] then [] else RecordBytes(index, payloads[0]) + RecordsBytes(payloads[1..], index + 1)
  }

  function ParseRecord(s: bytes): Parse<Record> {
    var (header, s1) :- TakeBytes(s, 12);
    SizeBound(header[..4]);
    var (data, s2) :- TakeBytes(s1, ValueOfLittle(header[..4]));
    Accept(Record(ValueOfLittle(header[4..12]), data), s2)
  }

  lemma RecordShrinks(s: bytes)
    ensures ParseRecord(s).Accept? ==> |ParseRecord(s).rest| < |s|
  {
  }

  /** Records, until one is missing or cut off. */
  function ParseRecords(s: bytes): seq<Record>
    decreases |s|
  {
    RecordShrinks(s);
    match ParseRecord(s)
    case Reject => []
    case Accept(r, rest) => [r] + ParseRecords(rest)
  }

  /** A whole file. The file header is skipped unread. */
  function ParseFile(s: bytes): seq<Record> {
    if |s| < 32 then [] else ParseRecords(s[32..])
  }

  function Concat<T>(groups: seq<seq<T>>): seq<T> {
    if groups == [] then [] else groups[0] + Concat(groups[1..])
  }

  /** The file for the payloads of `groups`. Nothing is written before the first group arrives. */
  function FileBytes(groups: seq<seq<blob>>): bytes {
    if groups == [] then [] else FILE_HEADER + RecordsBytes(Concat(groups), 0)
  }

  // ----- laws -----

  lemma ParseRecordBytes(index: nat, data: blob, rest: bytes)
    requires index < U64
    ensures var n := |data| % U32;
            ParseRecord(RecordBytes(index, data) + rest) == Accept(Record(index, data[..n]), data[n..] + rest)
  {
    var n := |data| % U32;
    var header := LittleEndian(n, 4) + LittleEndian(index, 8);
    RecordConcat(LittleEndian(n, 4), LittleEndian(index, 8), data, rest);
    TakeFromConcat(header, data + rest);
    FieldsRoundTrip(n, index);
    RecordFromParts(RecordBytes(index, data) + rest, header, data + rest);
    CutPayload(data, n, rest);
  }

  lemma RecordConcat(a: bytes, b: bytes, c: bytes, rest: bytes)
    ensures a + (b + c) + rest == a + b + (c + rest)
    ensures |a| == 4 && |b| == 8 ==> (a + b)[..4] == a && (a + b)[4..12] == b
  {
  }

  lemma FieldsRoundTrip(size: nat, index: nat)
    requires size < U32 && index < U64
    ensures ValueOfLittle(LittleEndian(size, 4)) == size && ValueOfLittle(LittleEndian(index, 8)) == index
  {
    hide LittleEndian, ValueOfLittle;
    Powers();
    LittleEndianRoundTrip(size, 4);
    LittleEndianRoundTrip(index, 8);
  }

  lemma CutPayload(data: bytes, n: nat, rest: bytes)
    requires n <= |data|
    ensures (data + rest)[..n] == data[..n] && (data + rest)[n..] == data[n..] + rest
  {
  }

  lemma RecordFromParts(s: bytes, header: bytes, s1: bytes)
    requires |header| == 12 && TakeBytes(s, 12) == Accept(header, s1)
    ensures var size := ValueOfLittle(header[..4]);
            size < U32 &&
            ParseRecord(s) == if |s1| < size then Reject
                              else Accept(Record(ValueOfLittle(header[4..12]), s1[..size]), s1[size..])
  {
    hide ValueOfLittle;
    SizeBound(header[..4]);
  }

  lemma ParseRecordsStep(s: bytes, r: Record, rest: bytes)
    requires ParseRecord(s) == Accept(r, rest)
    ensures ParseRecords(s) == [r] + ParseRecords(rest)
  {
    RecordShrinks(s);
  }

  function Numbered(payloads: seq<blob>, index: nat): (rs: seq<Record>)
    ensures |rs| == |payloads|
    ensures forall i :: 0 <= i < |rs| ==> rs[i] == Record(index + i, payloads[i])
  {
    seq(|payloads|, i requires 0 <= i < |payloads| => Record(index + i, payloads[i]))
  }

  /** What is written is read back, numbered from `index`, if and only if every payload fits the
      32-bit size field. */
  lemma {:induction false} RecordsRoundTrip(payloads: seq<blob>, index: nat)
    requires index + |payloads| <= U64
    ensures ParseRecords(RecordsBytes(payloads, index)) == Numbered(payloads, index) <==>
            forall p :: p in payloads ==> |p| < U32
  {
    hide ParseRecord, RecordBytes, ParseRecords, Numbered;
    if payloads == [] {
      NoRecords();
    } else {
      var p, more := payloads[0], RecordsBytes(payloads[1..], index + 1);
      var n := |p| % U32;
      ParseRecordBytes(index, p, more);
      ParseRecordsStep(RecordsBytes(payloads, index), Record(index, p[..n]), p[n..] + more);
      RecordsRoundTrip(payloads[1..], index + 1);
      FirstRecord(payloads, index, ParseRecords(p[n..] + more), n);
      if |p| < U32 {
        assert p[n..] + more == more;
        assert payloads == [p] + payloads[1..];
      }
    }
  }

  lemma NoRecords()
    ensures ParseRecords([]) == []
  {
  }

  lemma FirstRecord(payloads: seq<blob>, index: nat, tail: seq<Record>, n: nat)
    requires payloads != [] && n == |payloads[0]| % U32
    ensures [Record(index, payloads[0][..n])] + tail == Numbered(payloads, index) <==>
            |payloads[0]| < U32 && tail == Numbered(payloads[1..], index + 1)
  {
    var head := Record(index, payloads[0][..n]);
    var all := Numbered(payloads, index);
    assert all == [all[0]] + all[1..];
    assert all[1..] == Numbered(payloads[1..], index + 1);
    if |payloads[0]| < U32 {
      assert payloads[0][..n] == payloads[0];
    }
    if [head] + tail == all {
      assert ([head] + tail)[0] == head && ([head] + tail)[1..] == tail;
      assert |payloads[0][..n]| == n;
    }
  }

  /** The publisher reads from a file of the subscriber exactly the payloads that arrived, in order
      and numbered 0, 1, 2, ..., if and only if each is shorter than 2^32 bytes. */
  lemma FileRoundTrip(groups: seq<seq<blob>>)
    requires |Concat(groups)| <= U64
    ensures ParseFile(FileBytes(groups)) == Numbered(Concat(groups), 0) <==>
            forall p :: p in Concat(groups) ==> |p| < U32
    ensures FileBytes(groups) == [] <==> groups == []
  {
    hide RecordsBytes, ParseRecords;
    if groups != [] {
      assert FileBytes(groups)[32..] == RecordsBytes(Concat(groups), 0);
      RecordsRoundTrip(Concat(groups), 0);
    }
  }

  /** A record that is cut off is no record. */
  lemma CutRecord(index: nat, data: blob, s: bytes)
    requires index < U64 && |data| < U32 && s < RecordBytes(index, data)
    ensures ParseRecord(s).Reject?
  {
    hide ParseRecord, RecordBytes, ValueOfLittle;
    var header := HeaderOfRecord(index, data);
    CutBehindHeader(header, data, s);
  }

  lemma HeaderOfRecord(index: nat, data: blob) returns (header: bytes)
    requires index < U64 && |data| < U32
    ensures RecordBytes(index, data) == header + data
    ensures |header| == 12 && ValueOfLittle(header[..4]) == |data|
  {
    var a, b := LittleEndian(|data|, 4), LittleEndian(index, 8);
    hide LittleEndian, ValueOfLittle;
    header := a + b;
    FieldsRoundTrip(|data|, index);
    assert |data| % U32 == |data| && header[..4] == a;
    Concat3(a, b, data);
  }

  lemma CutBehindHeader(header: bytes, data: blob, s: bytes)
    requires |header| == 12 && ValueOfLittle(header[..4]) == |data| && s < header + data
    ensures ParseRecord(s).Reject?
  {
    hide ValueOfLittle, ParseRecord;
    if |s| < 12 {
      ShortRecord(s);
    } else {
      assert s[..12] == header;
      RecordFromParts(s, header, s[12..]);
    }
  }

  lemma ShortRecord(s: bytes)
    requires |s| < 12
    ensures ParseRecord(s).Reject?
  {
  }

  /** From a file that is cut off anywhere the records that are all there are read. */
  lemma {:induction false} RecordsOfPrefix(payloads: seq<blob>, index: nat, s: bytes)
    requires index + |payloads| <= U64 && (forall p :: p in payloads ==> |p| < U32)
    requires s <= RecordsBytes(payloads, index)
    ensures ParseRecords(s) <= Numbered(payloads, index)
    ensures ParseRecords(s) == Numbered(payloads, index) <==> s == RecordsBytes(payloads, index)
  {
    hide ParseRecord, RecordBytes, ParseRecords, Numbered;
    if payloads == [] {
      NoRecords();
    } else {
      var p := payloads[0];
      var first, more := RecordBytes(index, p), RecordsBytes(payloads[1..], index + 1);
      FirstNumbered(payloads, index);
      if |s| < |first| {
        assert s < first;
        CutRecord(index, p, s);
        RecordOrEnd(s);
      } else {
        var rest := s[|first|..];
        assert s == first + rest && rest <= more && p[..|p|] == p && p[|p|..] + rest == rest;
        ParseRecordBytes(index, p, rest);
        ParseRecordsStep(s, Record(index, p), rest);
        RecordsOfPrefix(payloads[1..], index + 1, rest);
        SamePrefix(Record(index, p), ParseRecords(rest), Numbered(payloads[1..], index + 1));
      }
    }
  }

  lemma FirstNumbered(payloads: seq<blob>, index: nat)
    requires payloads != []
    ensures Numbered(payloads, index) == [Record(index, payloads[0])] + Numbered(payloads[1..], index + 1)
  {
  }

  lemma SamePrefix(r: Record, a: seq<Record>, b: seq<Record>)
    requires a <= b
    ensures [r] + a <= [r] + b && ([r] + a == [r] + b <==> a == b)
  {
    assert a == b <== [r] + a == [r] + b by {
      assert ([r] + a)[1..] == a && ([r] + b)[1..] == b;
    }
  }

  // ----- the code -----

  /** The receive task in pipe mode: `groups` holds, in the order in which the data streams arrive, the
      payloads that are read from each. */
  method WriteIvf(groups: seq<seq<blob>>, stdout: Buffer)
    requires |Concat(groups)| <= U64
    modifies stdout
    ensures stdout.data == old(stdout.data) + FileBytes(groups)
  {
    hide RecordsBytes, RecordBytes, FILE_HEADER;
    var ivfHeaderWritten := false;
    var frameIndex: nat := 0;
    ghost var before := stdout.data;
    assert before + [] == before;
    for g := 0 to |groups|
      invariant frameIndex == |Concat(groups[..g])|
      invariant ivfHeaderWritten == (g > 0)
      invariant stdout.data == before + FileBytes(groups[..g])
    {
      if !ivfHeaderWritten {
        stdout.Extend(FILE_HEADER);
        ivfHeaderWritten := true;
      }
      ghost var earlier := Concat(groups[..g]);
      NothingWritten();
      assert stdout.data == before + (FILE_HEADER + RecordsBytes(earlier, 0));
      frameIndex := WriteGroup(groups[g], frameIndex, stdout);
      assert groups[..g + 1][..g] == groups[..g];
      ConcatSnoc(groups[..g + 1]);
      RecordsAppend(earlier, groups[g], 0);
      FileAppend(before, FILE_HEADER, RecordsBytes(earlier, 0), RecordsBytes(groups[g], |earlier|));
    }
    assert groups[..|groups|] == groups;
  }

  lemma NothingWritten()
    ensures RecordsBytes([], 0) == [] && FILE_HEADER + [] == FILE_HEADER
  {
  }

  lemma FileAppend(a: bytes, b: bytes, c: bytes, d: bytes)
    ensures a + (b + c) + d == a + (b + (c + d))
  {
  }

  lemma {:induction false} ConcatSnoc<T>(groups: seq<seq<T>>)
    requires groups != []
    ensures Concat(groups) == Concat(groups[..|groups| - 1]) + groups[|groups| - 1]
  {
    if |groups| == 1 {
      assert groups[0] + Concat([]) == Concat([]) + groups[0];
      assert groups[1..] == [] && groups[..0] == [];
    } else {
      ConcatSnoc(groups[1..]);
      assert groups[1..][..|groups| - 2] == groups[..|groups| - 1][1..];
      Concat3(groups[0], Concat(groups[1..][..|groups| - 2]), groups[|groups| - 1]);
    }
  }

  lemma {:induction false} RecordsAppend(ps: seq<blob>, qs: seq<blob>, index: nat)
    ensures RecordsBytes(ps + qs, index) == RecordsBytes(ps, index) + RecordsBytes(qs, index + |ps|)
  {
    hide RecordBytes;
    if ps == [] {
      assert ps + qs == qs;
    } else {
      assert (ps + qs)[0] == ps[0] && (ps + qs)[1..] == ps[1..] + qs;
      RecordsAppend(ps[1..], qs, index + 1);
      Concat3(RecordBytes(index, ps[0]), RecordsBytes(ps[1..], index + 1), RecordsBytes(qs, index + |ps|));
    }
  }

  /** The inner loop: each object as an IVF frame. */
  method WriteGroup(payloads: seq<blob>, firstIndex: nat, stdout: Buffer) returns (frameIndex: nat)
    modifies stdout
    ensures frameIndex == firstIndex + |payloads|
    ensures stdout.data == old(stdout.data) + RecordsBytes(payloads, firstIndex)
  {
    frameIndex := firstIndex;
    ghost var before := stdout.data;
    assert payloads[0..] == payloads;
    for i := 0 to |payloads|
      invariant frameIndex == firstIndex + i
      invariant stdout.data + RecordsBytes(payloads[i..], frameIndex) == before + RecordsBytes(payloads, firstIndex)
    {
      var payload := payloads[i];
      ghost var written := stdout.data;
      stdout.Extend(LittleEndian(|payload| % U32, 4));
      stdout.Extend(LittleEndian(frameIndex, 8));
      stdout.Extend(payload);
      NextRecord(payloads, i, frameIndex, written);
      frameIndex := frameIndex + 1;
    }
    LastRecord(payloads[|payloads|..], frameIndex, stdout.data);
  }

  lemma NextRecord(payloads: seq<blob>, i: nat, index: nat, written: bytes)
    requires i < |payloads|
    ensures var p := payloads[i];
            written + RecordsBytes(payloads[i..], index) ==
            written + LittleEndian(|p| % U32, 4) + LittleEndian(index, 8) + p
            + RecordsBytes(payloads[i + 1..], index + 1)
  {
    hide LittleEndian;
    assert payloads[i..][0] == payloads[i] && payloads[i..][1..] == payloads[i + 1..];
    FiveParts(written, LittleEndian(|payloads[i]| % U32, 4), LittleEndian(index, 8), payloads[i],
              RecordsBytes(payloads[i + 1..], index + 1));
  }

  lemma FiveParts(a: bytes, b: bytes, c: bytes, d: bytes, e: bytes)
    ensures a + b + c + d + e == a + (b + (c + d) + e)
  {
  }

  lemma LastRecord(payloads: seq<blob>, index: nat, written: bytes)
    requires payloads == []
    ensures written + RecordsBytes(payloads, index) == written
  {
  }

  datatype IvfFrame = IvfFrame(data: blob, isKeyframe: bool)

  /** Bit 0 of the first byte of a VP8 frame is clear for keyframes. */
  predicate IsKeyframe(data: bytes) { data != [] && data[0] % 2 == 0 }

  function FrameOf(r: Record): IvfFrame { IvfFrame(r.data, IsKeyframe(r.data)) }

  function FramesOf(rs: seq<Record>): seq<IvfFrame> {
    seq(|rs|, i requires 0 <= i < |rs| => FrameOf(rs[i]))
  }

  /** The flag of a frame, as the source computes it. */
  lemma KeyframeBits(rs: seq<Record>)
    ensures forall f :: f in FramesOf(rs) ==> (f.isKeyframe <==> f.data != [] && (f.data[0] as bv8) & 0x01 == 0)
  {
    forall i | 0 <= i < |rs| && rs[i].data != []
      ensures IsKeyframe(rs[i].data) <==> (rs[i].data[0] as bv8) & 0x01 == 0
    {
      WordBits.LowBit(rs[i].data[0]);
    }
  }

  lemma FramesSnoc(rs: seq<Record>, r: Record)
    ensures FramesOf(rs + [r]) == FramesOf(rs) + [FrameOf(r)]
  {
  }

  /** The blocking reader of the publisher: frames until the input ends or a frame is cut off. */
  method ReadIvf(stdin: Cursor) returns (frames: seq<IvfFrame>)
    modifies stdin
    ensures frames == FramesOf(ParseFile(old(stdin.left)))
    ensures forall f :: f in frames ==> (f.isKeyframe <==> f.data != [] && (f.data[0] as bv8) & 0x01 == 0)
  {
    KeyframeBits(ParseFile(stdin.left));
    frames := [];
    var fileHeader := stdin.Take(32);
    if fileHeader.Err? {
      return;
    }
    ghost var records: seq<Record> := [];
    ghost var input := stdin.left;
    assert [] + ParseRecords(input) == ParseRecords(input);
    while true
      invariant frames == FramesOf(records)
      invariant ParseRecords(input) == records + ParseRecords(stdin.left)
      decreases |stdin.left|
    {
      hide ParseRecords, ParseRecord, ValueOfLittle, IsKeyframe, FramesOf;
      ghost var s := stdin.left;
      RecordOrEnd(s);
      var frameHeader := stdin.Take(12);
      if frameHeader.Err? {
        break;
      }
      RecordFromParts(s, frameHeader.value, stdin.left);
      var frameSize := ValueOfLittle(frameHeader.value[..4]);
      SizeBound(frameHeader.value[..4]);
      ghost var s1 := stdin.left;
      var data := stdin.Take(frameSize);
      if data.Err? {
        assert records + [] == records;
        return;
      }
      var isKeyframe := IsKeyframe(data.value);
      ghost var record := Record(ValueOfLittle(frameHeader.value[4..12]), data.value);
      Concat3(records, [record], ParseRecords(stdin.left));
      FramesSnoc(records, record);
      records := records + [record];
      frames := frames + [IvfFrame(data.value, isKeyframe)];
    }
    assert records + [] == records;
  }

  lemma RecordOrEnd(s: bytes)
    ensures |s| < 12 ==> ParseRecord(s).Reject?
    ensures ParseRecord(s).Reject? ==> ParseRecords(s) == []
    ensures ParseRecord(s).Accept? ==>
              ParseRecords(s) == [ParseRecord(s).value] + ParseRecords(ParseRecord(s).rest)
    ensures ParseRecord(s).Accept? ==> |ParseRecord(s).rest| < |s|
  {
    RecordShrinks(s);
  }
}
