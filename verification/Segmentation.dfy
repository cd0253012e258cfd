/** The publisher's segmentation of a frame sequence into groups: the send loop of send_from_stdin
    (moqt-pub/src/main.rs) over SubgroupWriter (moqt-core/src/session/subgroup.rs). */
module Segmentation {
  import opened Words
  import opened Codec
  import opened Varint
  import opened Subgroups
  import opened Streams
  import opened Fanout
  import opened Ivf

  // ----- specification -----

  /** The groups of a frame sequence: a keyframe opens a group, any other frame joins the last. */
  function Groups(frames: seq<IvfFrame>): (gs: seq<seq<IvfFrame>>)
    ensures gs == [] <==> frames == []
    ensures [] !in gs
  {
    if frames == [] then []
    else AddFrame(Groups(frames[..|frames| - 1]), frames[|frames| - 1])
  }

  function AddFrame(gs: seq<seq<IvfFrame>>, f: IvfFrame): seq<seq<IvfFrame>> {
    if gs == [] || f.isKeyframe then gs + [[f]]
    else gs[..|gs| - 1] + [gs[|gs| - 1] + [f]]
  }

  /** `gs` cuts `frames` exactly at the keyframes: nothing is lost, moved or repeated, every group but
      the first starts with a keyframe, and no group contains a keyframe further on. */
  predicate IsSegmentation(gs: seq<seq<IvfFrame>>, frames: seq<IvfFrame>) {
    && Concat(gs) == frames
    && [] !in gs
    && (forall k :: 0 < k < |gs| ==> StartsWithKeyframe(gs[k]))
    && (forall k :: 0 <= k < |gs| ==> NoLaterKeyframe(gs[k]))
  }

  predicate StartsWithKeyframe(g: seq<IvfFrame>) { g != [] && g[0].isKeyframe }

  predicate NoLaterKeyframe(g: seq<IvfFrame>) { forall j :: 0 < j < |g| ==> !g[j].isKeyframe }

  // ----- laws -----

  lemma {:induction false} GroupsAreSegmentation(frames: seq<IvfFrame>)
    ensures IsSegmentation(Groups(frames), frames)
  {
    if frames != [] {
      var n := |frames| - 1;
      GroupsAreSegmentation(frames[..n]);
      AddFrameKeeps(Groups(frames[..n]), frames[..n], frames[n]);
      assert frames == frames[..n] + [frames[n]];
    }
  }

  lemma AddFrameKeeps(gs: seq<seq<IvfFrame>>, frames: seq<IvfFrame>, f: IvfFrame)
    requires IsSegmentation(gs, frames)
    ensures IsSegmentation(AddFrame(gs, f), frames + [f])
  {
    var n := |gs|;
    var gs' := AddFrame(gs, f);
    ConcatSnoc(gs');
    if n == 0 || f.isKeyframe {
      assert gs'[..n] == gs;
    } else {
      ConcatSnoc(gs);
      assert gs'[..n - 1] == gs[..n - 1];
      Concat3(Concat(gs[..n - 1]), gs[n - 1], [f]);
    }
  }

  /** There is no other way to cut the sequence. */
  lemma {:induction false} SegmentationIsUnique(gs: seq<seq<IvfFrame>>, frames: seq<IvfFrame>)
    requires IsSegmentation(gs, frames)
    ensures gs == Groups(frames)
    decreases |frames|
  {
    if frames == [] {
      SomeFrame(gs);
    } else {
      var gs', f := DropLastFrame(gs, frames);
      SegmentationIsUnique(gs', frames[..|frames| - 1]);
    }
  }

  lemma SomeFrame(gs: seq<seq<IvfFrame>>)
    requires [] !in gs
    ensures Concat(gs) == [] ==> gs == []
  {
    assert gs != [] ==> gs[0] in gs && |Concat(gs)| >= |gs[0]|;
  }

  lemma DropLastFrame(gs: seq<seq<IvfFrame>>, frames: seq<IvfFrame>)
    returns (gs': seq<seq<IvfFrame>>, f: IvfFrame)
    requires IsSegmentation(gs, frames) && frames != []
    ensures f == frames[|frames| - 1]
    ensures IsSegmentation(gs', frames[..|frames| - 1]) && AddFrame(gs', f) == gs
  {
    var n := |gs| - 1;
    var last := gs[n];
    assert last in gs;
    f := last[|last| - 1];
    ConcatSnoc(gs);
    LastOfConcat(Concat(gs[..n]), last, frames);
    if |last| == 1 {
      gs' := gs[..n];
      assert last == [f];
    } else {
      gs' := ShortenLast(gs, frames);
    }
  }

  lemma LastOfConcat(a: seq<IvfFrame>, last: seq<IvfFrame>, frames: seq<IvfFrame>)
    requires last != [] && frames == a + last
    ensures frames[|frames| - 1] == last[|last| - 1]
    ensures frames[..|frames| - 1] == a + last[..|last| - 1]
    ensures |last| == 1 ==> frames[..|frames| - 1] == a
  {
  }

  lemma ShortenLast(gs: seq<seq<IvfFrame>>, frames: seq<IvfFrame>) returns (gs': seq<seq<IvfFrame>>)
    requires IsSegmentation(gs, frames) && gs != [] && |gs[|gs| - 1]| > 1
    ensures frames != [] && IsSegmentation(gs', frames[..|frames| - 1])
    ensures AddFrame(gs', gs[|gs| - 1][|gs[|gs| - 1]| - 1]) == gs
  {
    var n := |gs| - 1;
    var last := gs[n];
    var m := |last| - 1;
    assert NoLaterKeyframe(last) && !last[m].isKeyframe;
    hide StartsWithKeyframe, NoLaterKeyframe, Concat;
    gs' := gs[..n] + [last[..m]];
    ShortenedConcat(gs, gs', frames);
    KeepsGroups(gs, gs', last[..m]);
    assert last == last[..m] + [last[m]] && gs == gs[..n] + [last];
    assert gs'[..n] == gs[..n];
  }

  lemma ShortenedConcat(gs: seq<seq<IvfFrame>>, gs': seq<seq<IvfFrame>>, frames: seq<IvfFrame>)
    requires gs != [] && gs[|gs| - 1] != [] && Concat(gs) == frames
    requires gs' == gs[..|gs| - 1] + [gs[|gs| - 1][..|gs[|gs| - 1]| - 1]]
    ensures frames != [] && Concat(gs') == frames[..|frames| - 1]
  {
    var n := |gs| - 1;
    assert gs'[..n] == gs[..n];
    ConcatSnoc(gs);
    ConcatSnoc(gs');
    hide Concat;
    LastOfConcat(Concat(gs[..n]), gs[n], frames);
  }

  lemma KeepsGroups(gs: seq<seq<IvfFrame>>, gs': seq<seq<IvfFrame>>, g: seq<IvfFrame>)
    requires gs != [] && g != [] && g <= gs[|gs| - 1] && gs' == gs[..|gs| - 1] + [g]
    requires [] !in gs
    requires forall k :: 0 < k < |gs| ==> StartsWithKeyframe(gs[k])
    requires forall k :: 0 <= k < |gs| ==> NoLaterKeyframe(gs[k])
    ensures [] !in gs'
    ensures forall k :: 0 < k < |gs'| ==> StartsWithKeyframe(gs'[k])
    ensures forall k :: 0 <= k < |gs'| ==> NoLaterKeyframe(gs'[k])
  {
    forall k | 0 < k < |gs'| ensures StartsWithKeyframe(gs'[k]) {
      assert StartsWithKeyframe(gs[k]);
    }
    forall k | 0 <= k < |gs'| ensures NoLaterKeyframe(gs'[k]) {
      assert NoLaterKeyframe(gs[k]);
    }
  }

  /** The place of element `i` of the concatenation. */
  lemma {:induction false} Locate<T>(gs: seq<seq<T>>, i: nat) returns (k: nat, j: nat)
    requires i < |Concat(gs)|
    ensures k < |gs| && j < |gs[k]| && i == |Concat(gs[..k])| + j && Concat(gs)[i] == gs[k][j]
  {
    if i < |gs[0]| {
      k, j := 0, i;
    } else {
      k, j := Locate(gs[1..], i - |gs[0]|);
      k := k + 1;
      assert gs[..k][0] == gs[0] && gs[..k][1..] == gs[1..][..k - 1];
    }
  }

  lemma {:induction false} StartOfGroup<T>(gs: seq<seq<T>>, k: nat)
    requires k < |gs| && gs[k] != []
    ensures |Concat(gs[..k])| < |Concat(gs)| && Concat(gs)[|Concat(gs[..k])|] == gs[k][0]
  {
    if k > 0 {
      StartOfGroup(gs[1..], k - 1);
      assert gs[..k][0] == gs[0] && gs[..k][1..] == gs[1..][..k - 1];
    }
  }

  /** A group other than the first starts at frame `i`. */
  predicate IsCutAt(gs: seq<seq<IvfFrame>>, i: nat) { exists k :: 0 < k < |gs| && |Concat(gs[..k])| == i }

  lemma CutAtKeyframes(frames: seq<IvfFrame>, i: nat)
    requires 0 < i < |frames|
    ensures IsCutAt(Groups(frames), i) <==> frames[i].isKeyframe
  {
    hide Concat, Groups;
    var gs := Groups(frames);
    GroupsAreSegmentation(frames);
    if k :| 0 < k < |gs| && |Concat(gs[..k])| == i {
      assert gs[k] in gs && StartsWithKeyframe(gs[k]);
      StartOfGroup(gs, k);
    }
    if frames[i].isKeyframe {
      var k, j := Locate(gs, i);
      assert NoLaterKeyframe(gs[k]);
      NothingInFront(gs);
      assert k > 0;
    }
  }

  lemma NothingInFront<T>(gs: seq<seq<T>>)
    ensures gs[..0] == [] && Concat(gs[..0]) == []
  {
  }

  /** From the file to the groups: the publisher starts a new group at a frame, other than the first, if and
      only if the frame is not empty and the low bit of its first byte is clear. */
  lemma FileIsCutAtKeyframes(s: bytes, i: nat)
    requires 0 < i < |ParseFile(s)|
    ensures var data := ParseFile(s)[i].data;
            IsCutAt(Groups(FramesOf(ParseFile(s))), i) <==> data != [] && (data[0] as bv8) & 0x01 == 0
  {
    hide ParseFile, Groups;
    var frames := FramesOf(ParseFile(s));
    KeyframeBits(ParseFile(s));
    assert frames[i] in frames;
    CutAtKeyframes(frames, i);
  }

  lemma {:induction false} GroupsGrow(frames: seq<IvfFrame>, i: nat)
    requires i <= |frames|
    ensures var gs := Groups(frames);
            var some := Groups(frames[..i]);
            |some| <= |gs| && forall k :: 0 <= k < |some| ==> some[k] <= gs[k]
    decreases |frames| - i
  {
    if i == |frames| {
      assert frames[..i] == frames;
    } else {
      GroupsGrow(frames, i + 1);
      assert frames[..i + 1][..i] == frames[..i];
    }
  }

  // ----- what a group looks like on its stream -----

  /** The header that open_subgroup builds for track alias 1 and subgroup 0. */
  function GroupHeader(groupId: u64): SubgroupHeader {
    SubgroupHeader(1, groupId, false, true, Some(0), None)
  }

  function ObjectBytes(payload: blob): bytes {
    Encode(0) + Encode(|payload|) + payload
  }

  function ObjectsBytes(g: seq<IvfFrame>): bytes {
    if g == [] then [] else ObjectsBytes(g[..|g| - 1]) + ObjectBytes(g[|g| - 1].data)
  }

  function StreamBytes(groupId: u64, g: seq<IvfFrame>): bytes {
    HeaderBytes(GroupHeader(groupId)) + ObjectsBytes(g)
  }

  /** The object IDs of a stream, resolved one after the other from the deltas. */
  function ObjectIds(os: seq<ObjectRead>): (ids: seq<nat>)
    ensures |ids| == |os|
  {
    ResolveAll(DeltasRead(os), None)
  }

  function DeltasRead(os: seq<ObjectRead>): (ds: seq<nat>)
    ensures |ds| == |os|
    ensures forall i :: 0 <= i < |os| ==> ds[i] == os[i].header.objectIdDelta
  {
    seq(|os|, i requires 0 <= i < |os| => os[i].header.objectIdDelta)
  }

  lemma ObjectParses(payload: blob, more: bytes)
    ensures ParseObject(ObjectBytes(payload) + more, false) ==
            Accept(ObjectRead(ObjectHeader(0, |payload|), payload, Encode(0) + Encode(|payload|)), more)
  {
    hide Encode, ParseObjectHeader;
    var h := ObjectHeader(0, |payload|);
    var raw := Encode(0) + Encode(|payload|);
    Concat3(raw, payload, more);
    ObjectHeaderRoundTrip(h, payload + more);
    TakeFromConcat(payload, more);
    assert Consumed(raw + (payload + more), payload + more) == raw;
  }

  /** The objects of a stream in front of `more`. */
  lemma {:induction false} ObjectsOfGroup(g: seq<IvfFrame>, more: bytes)
    ensures Objects(ObjectsBytes(g) + more, false) == ObjectList(g) + Objects(more, false)
    decreases |g|
  {
    hide ObjectBytes, ParseObject;
    if g == [] {
      assert [] + more == more && [] + Objects(more, false) == Objects(more, false);
    } else {
      var n := |g| - 1;
      var p := g[n].data;
      Concat3(ObjectsBytes(g[..n]), ObjectBytes(p), more);
      ObjectsOfGroup(g[..n], ObjectBytes(p) + more);
      ObjectParses(p, more);
      Concat3(ObjectList(g[..n]), [ObjectOf(p)], Objects(more, false));
    }
  }

  function ObjectOf(payload: blob): ObjectRead {
    ObjectRead(ObjectHeader(0, |payload|), payload, Encode(0) + Encode(|payload|))
  }

  function ObjectList(g: seq<IvfFrame>): (os: seq<ObjectRead>)
    ensures |os| == |g|
    ensures forall i :: 0 <= i < |g| ==> os[i] == ObjectOf(g[i].data)
  {
    if g == [] then [] else ObjectList(g[..|g| - 1]) + [ObjectOf(g[|g| - 1].data)]
  }

  lemma {:induction false} ConsecutiveIds(deltas: seq<nat>, prev: Option<nat>)
    requires forall i :: 0 <= i < |deltas| ==> deltas[i] == 0
    ensures var first := if prev.Some? then prev.value + 1 else 0;
            forall i :: 0 <= i < |deltas| ==> ResolveAll(deltas, prev)[i] == first + i
  {
    if deltas != [] {
      ConsecutiveIds(deltas[1..], Some(ResolveObjectId(prev, deltas[0])));
    }
  }

  /** What a subscriber reads from the stream of a group: its header, its frames in order, and the
      object IDs 0, 1, 2, ... */
  lemma GroupIsReadBack(groupId: u64, g: seq<IvfFrame>)
    ensures ParseHeader(StreamBytes(groupId, g)) == Accept(GroupHeader(groupId), ObjectsBytes(g))
    ensures var os := Objects(ObjectsBytes(g), false);
            && |os| == |g|
            && (forall i :: 0 <= i < |g| ==> os[i].payload == g[i].data)
            && (forall i :: 0 <= i < |g| ==> ObjectIds(os)[i] == i)
  {
    hide HeaderBytes, ParseHeader, Objects, ObjectsBytes, ParseObject;
    HeaderRoundTrip(GroupHeader(groupId), ObjectsBytes(g));
    assert ObjectsBytes(g) + [] == ObjectsBytes(g);
    ObjectsOfGroup(g, []);
    NothingFollows();
    assert ObjectList(g) + [] == ObjectList(g);
    ConsecutiveIds(DeltasRead(ObjectList(g)), None);
  }

  lemma NothingFollows()
    ensures Objects([], false) == []
  {
    EmptyHasNoObject(false);
  }

  // ----- the code -----

  class SubgroupWriter {
    const writer: DataStreamWriter
    var finished: bool

    constructor (writer: DataStreamWriter)
      ensures this.writer == writer && !finished
    {
      this.writer := writer;
      finished := false;
    }

    /** The header is generated: delta 0 and the length of the payload. */
    method WriteObject(payload: blob) returns (ok: bool)
      requires !writer.failed && !writer.finished
      modifies writer
      ensures writer.failed == !ok && !writer.finished
      ensures if ok then writer.sent == old(writer.sent) + ObjectBytes(payload)
              else writer.sent <= old(writer.sent) + ObjectBytes(payload)
    {
      hide Encode;
      ok := writer.WriteObject(ObjectHeader(0, |payload|), payload);
    }

    method Finish()
      requires !writer.failed
      modifies this, writer
      ensures finished && !writer.failed && writer.sent == old(writer.sent)
      ensures !old(finished) ==> writer.finished
    {
      if !finished {
        finished := true;
        writer.Finish();
      }
    }
  }

  // ----- the send loop -----

  /** The one session of a publisher, to its relay. */
  const SESSION := 0

  predicate Closed(w: DataStreamWriter, s: bytes)
    reads w
  {
    !w.failed && w.finished && w.sent == s
  }

  /** One finished stream per group, with exactly the frames of the group. */
  ghost predicate AllClosed(streams: seq<DataStreamWriter>, gs: seq<seq<IvfFrame>>)
    reads streams
  {
    && |streams| == |gs| < U64
    && Distinct(streams)
    && forall k :: 0 <= k < |gs| ==> Closed(streams[k], StreamBytes(k, gs[k]))
  }

  /** The same, except that the last stream is still open. */
  ghost predicate InProgress(streams: seq<DataStreamWriter>, gs: seq<seq<IvfFrame>>)
    reads streams
  {
    && 0 < |streams| == |gs| < U64
    && Distinct(streams)
    && (forall k :: 0 <= k < |gs| - 1 ==> Closed(streams[k], StreamBytes(k, gs[k])))
    && Holds(streams[|gs| - 1], StreamBytes(|gs| - 1, gs[|gs| - 1]))
  }

  /** Every stream holds a prefix of what its group puts on it. */
  ghost predicate Partial(streams: seq<DataStreamWriter>, gs: seq<seq<IvfFrame>>)
    reads streams
  {
    |streams| <= |gs| < U64 && forall k :: 0 <= k < |streams| ==> streams[k].sent <= StreamBytes(k, gs[k])
  }

  function ExtendLast(gs: seq<seq<IvfFrame>>, f: IvfFrame): seq<seq<IvfFrame>>
    requires gs != []
  {
    gs[..|gs| - 1] + [gs[|gs| - 1] + [f]]
  }

  lemma StreamStarts(groupId: u64)
    ensures StreamBytes(groupId, []) == HeaderBytes(GroupHeader(groupId))
  {
    hide HeaderBytes;
    assert HeaderBytes(GroupHeader(groupId)) + [] == HeaderBytes(GroupHeader(groupId));
  }

  lemma StreamGrows(groupId: u64, g: seq<IvfFrame>, f: IvfFrame)
    ensures StreamBytes(groupId, g + [f]) == StreamBytes(groupId, g) + ObjectBytes(f.data)
  {
    hide HeaderBytes, ObjectBytes;
    assert (g + [f])[..|g|] == g;
    Concat3(HeaderBytes(GroupHeader(groupId)), ObjectsBytes(g), ObjectBytes(f.data));
  }

  lemma {:induction false} StreamOfPrefix(groupId: u64, g: seq<IvfFrame>, g': seq<IvfFrame>)
    requires g <= g'
    ensures StreamBytes(groupId, g) <= StreamBytes(groupId, g')
    decreases |g'|
  {
    hide StreamBytes, ObjectBytes;
    if g != g' {
      var n := |g'| - 1;
      StreamOfPrefix(groupId, g, g'[..n]);
      StreamGrows(groupId, g'[..n], g'[n]);
      assert g' == g'[..n] + [g'[n]];
    }
  }

  lemma PartialGrows(streams: seq<DataStreamWriter>, frames: seq<IvfFrame>, i: nat)
    requires i <= |frames| && |Groups(frames)| < U64
    requires Partial(streams, Groups(frames[..i]))
    ensures Partial(streams, Groups(frames))
  {
    hide StreamBytes, Groups;
    GroupsGrow(frames, i);
    forall k | 0 <= k < |streams|
      ensures streams[k].sent <= StreamBytes(k, Groups(frames)[k])
    {
      StreamOfPrefix(k, Groups(frames[..i])[k], Groups(frames)[k]);
    }
  }

  lemma {:induction false} FewGroups(frames: seq<IvfFrame>)
    ensures |Groups(frames)| <= |frames|
  {
    if frames != [] {
      FewGroups(frames[..|frames| - 1]);
    }
  }

  /** `group.finish()` */
  method CloseGroup(group: SubgroupWriter, ghost streams: seq<DataStreamWriter>, ghost gs: seq<seq<IvfFrame>>)
    requires InProgress(streams, gs) && group.writer == streams[|gs| - 1] && !group.finished
    modifies group, group.writer
    ensures AllClosed(streams, gs)
  {
    hide StreamBytes;
    group.Finish();
  }

  /** `session.open_subgroup(1, group_id, 0)` */
  method OpenGroup(groupId: u64, ghost streams: seq<DataStreamWriter>, ghost gs: seq<seq<IvfFrame>>,
                   ghost frame: IvfFrame)
    returns (w: DataStreamWriter, ok: bool)
    requires AllClosed(streams, gs) && groupId == |gs| && |gs| + 1 < U64
    ensures fresh(w)
    ensures ok ==> InProgress(streams + [w], gs + [[]])
    ensures !ok ==> Partial(streams + [w], gs + [[frame]])
  {
    hide HeaderBytes, StreamBytes;
    StreamStarts(groupId);
    StreamOfPrefix(groupId, [], [frame]);
    w, ok := OpenDataStream(SESSION, GroupHeader(groupId));
  }

  /** `group.write_object(&frame.data)` */
  method WriteFrame(group: SubgroupWriter, frame: IvfFrame, ghost streams: seq<DataStreamWriter>,
                    ghost gs: seq<seq<IvfFrame>>)
    returns (ok: bool)
    requires InProgress(streams, gs) && group.writer == streams[|gs| - 1]
    modifies group.writer
    ensures ok ==> InProgress(streams, ExtendLast(gs, frame))
    ensures !ok ==> Partial(streams, ExtendLast(gs, frame))
  {
    hide StreamBytes, ObjectBytes;
    StreamGrows(|gs| - 1, gs[|gs| - 1], frame);
    ok := group.WriteObject(frame.data);
  }

  /** The send loop. If nothing fails there is one finished stream per group, holding the frames of
      the group under the next group ID, and the stream count that PUBLISH_DONE reports is the number
      of streams opened. In any case every stream holds a prefix of what belongs on it. */
  method SendFrames(frames: seq<IvfFrame>) returns (r: Result<nat>, ghost streams: seq<DataStreamWriter>)
    requires |frames| < U64 - 1
    ensures r.Ok? ==> r.value == |Groups(frames)|
    ensures r.Ok? ==> r.value == |streams| && AllClosed(streams, Groups(frames))
    ensures Partial(streams, Groups(frames))
  {
    NothingOpened();
    hide StreamBytes, Groups, AddFrame, ExtendLast, InProgress, Partial, AllClosed;
    var groupId: nat := 0;
    var objectId: nat := 0;
    var currentGroup: SubgroupWriter? := null;
    var streamCount: nat := 0;
    var groupStarted := false;
    streams := [];
    ghost var gs: seq<seq<IvfFrame>> := [];
    var i := 0;
    FewGroups(frames);
    GroupsOfPrefix(frames, 0);
    while i < |frames|
      invariant 0 <= i <= |frames| && gs == Groups(frames[..i]) && |gs| <= i
      invariant forall w :: w in streams ==> fresh(w)
      invariant groupStarted == (i > 0) == (currentGroup != null)
      invariant currentGroup == null ==> streams == [] && gs == [] && groupId == objectId == streamCount == 0
      invariant currentGroup != null ==>
                  && fresh(currentGroup) && fresh(currentGroup.writer) && !currentGroup.finished
                  && InProgress(streams, gs)
                  && 0 < |streams| == |gs| && currentGroup.writer == streams[|gs| - 1]
                  && groupId == streamCount == |gs| - 1
                  && objectId == |gs[|gs| - 1]|
    {
      var frame := frames[i];
      GroupsOfPrefix(frames, i + 1);
      AddedFrame(gs, frame);
      if frame.isKeyframe && groupStarted {
        if currentGroup != null {
          CloseGroup(currentGroup, streams, gs);
          currentGroup := null;
        }
        streamCount := streamCount + 1;
        groupId := groupId + 1;
        objectId := 0;
      }
      if currentGroup == null {
        var w, ok := OpenGroup(groupId, streams, gs, frame);
        streams := streams + [w];
        if !ok {
          PartialGrows(streams, frames, i + 1);
          return Err, streams;
        }
        gs := gs + [[]];
        currentGroup := new SubgroupWriter(w);
        groupStarted := true;
      }
      var ok := WriteFrame(currentGroup, frame, streams, gs);
      gs := ExtendLast(gs, frame);
      i := i + 1;
      if !ok {
        PartialGrows(streams, frames, i);
        return Err, streams;
      }
      objectId := objectId + 1;
    }
    assert frames[..i] == frames;
    if currentGroup != null {
      CloseGroup(currentGroup, streams, gs);
      streamCount := streamCount + 1;
    }
    ClosedIsPartial(streams, gs);
    r := Ok(streamCount);
  }

  lemma NothingOpened()
    ensures AllClosed([], [])
  {
  }

  lemma ClosedIsPartial(streams: seq<DataStreamWriter>, gs: seq<seq<IvfFrame>>)
    requires AllClosed(streams, gs)
    ensures Partial(streams, gs)
  {
    hide StreamBytes;
  }

  /** A frame joins the last group, which may have been opened for it. */
  lemma AddedFrame(gs: seq<seq<IvfFrame>>, f: IvfFrame)
    ensures ExtendLast(gs + [[]], f) == gs + [[f]]
    ensures AddFrame(gs, f) == ExtendLast(if gs == [] || f.isKeyframe then gs + [[]] else gs, f)
    ensures gs != [] ==>
              var more := ExtendLast(gs, f);
              |more| == |gs| && more[|gs| - 1] == gs[|gs| - 1] + [f]
  {
    assert (gs + [[]])[..|gs|] == gs && [] + [f] == [f];
  }

  lemma GroupsOfPrefix(frames: seq<IvfFrame>, i: nat)
    requires i <= |frames|
    ensures i == 0 ==> Groups(frames[..i]) == []
    ensures i > 0 ==> Groups(frames[..i]) == AddFrame(Groups(frames[..i - 1]), frames[i - 1])
  {
    if i > 0 {
      assert frames[..i][..i - 1] == frames[..i - 1];
    }
  }
}
