/** From the publisher's input to the subscriber's output: an IVF file is cut into groups, each group
    goes out as a data stream, streams are relayed, cut off, lost and reordered on the way, and the
    subscriber writes what it reads from those that arrive into an IVF file again. */
module Pipeline {
  import opened Words
  import opened Codec
  import opened Varint
  import opened Subgroups
  import opened Streams
  import opened Fanout
  import opened Ivf
  import opened Segmentation

  function DataOf(frames: seq<IvfFrame>): (ps: seq<blob>)
    ensures |ps| == |frames|
    ensures forall i :: 0 <= i < |frames| ==> ps[i] == frames[i].data
  {
    seq(|frames|, i requires 0 <= i < |frames| => frames[i].data)
  }

  function PayloadsOf(os: seq<ObjectRead>): (ps: seq<blob>)
    ensures |ps| == |os|
    ensures forall i :: 0 <= i < |os| ==> ps[i] == os[i].payload
  {
    seq(|os|, i requires 0 <= i < |os| => os[i].payload)
  }

  // ----- what the subscriber reads -----

  /** The payloads of one stream; nothing if its header cannot be read. */
  function ReadStream(s: bytes): Option<seq<blob>> {
    match ParseHeader(s)
    case Reject => None
    case Accept(h, body) => Some(PayloadsOf(Objects(body, h.hasProperties)))
  }

  /** The payloads of the streams in the order in which they arrive. A header that cannot be read ends
      the receive loop. */
  function Received(streams: seq<bytes>): (groups: seq<seq<blob>>)
    ensures |groups| <= |streams|
  {
    if streams == [] then []
    else
      match ReadStream(streams[0])
      case None => []
      case Some(ps) => [ps] + Received(streams[1..])
  }

  /** A stream whose header cannot be read ends the reception: nothing of it or of what arrives later is
      written, and what came before is. */
  lemma {:induction false} UnreadableEnds(before: seq<bytes>, bad: bytes, later: seq<bytes>)
    requires (forall s :: s in before ==> ReadStream(s).Some?) && ReadStream(bad) == None
    ensures Received(before + [bad] + later) == Received(before) && |Received(before)| == |before|
  {
    hide ReadStream;
    var all := before + [bad] + later;
    if before == [] {
      assert all[0] == bad;
    } else {
      assert before[0] in before && all[0] == before[0] && all[1..] == before[1..] + [bad] + later;
      UnreadableEnds(before[1..], bad, later);
    }
  }

  predicate InRange(order: seq<nat>, n: nat) { forall i :: 0 <= i < |order| ==> order[i] < n }

  predicate AreDistinct(order: seq<nat>) { forall i, j :: 0 <= i < j < |order| ==> order[i] != order[j] }

  /** The streams that arrive, in whatever order: the i-th belongs to group `order[i]` and carries it,
      or is cut off anywhere. No group arrives twice; any may be missing. */
  ghost predicate Arrival(gs: seq<seq<IvfFrame>>, order: seq<nat>, streams: seq<bytes>) {
    && |gs| < U64 && |order| == |streams|
    && InRange(order, |gs|) && AreDistinct(order)
    && forall i :: 0 <= i < |order| ==> streams[i] <= StreamBytes(order[i], gs[order[i]])
  }

  /** Nothing is cut off. */
  ghost predicate AllWhole(gs: seq<seq<IvfFrame>>, order: seq<nat>, streams: seq<bytes>)
    requires Arrival(gs, order, streams)
  {
    forall i :: 0 <= i < |order| ==> streams[i] == StreamBytes(order[i], gs[order[i]])
  }

  /** The frame data of the groups in the order of their arrival. */
  function Spelled(gs: seq<seq<IvfFrame>>, order: seq<nat>): seq<blob>
    requires InRange(order, |gs|)
  {
    if order == [] then [] else DataOf(gs[order[0]]) + Spelled(gs, order[1..])
  }

  // ----- one stream -----

  /** The header is all there, or cannot be read. */
  lemma HeaderOfPrefix(h: SubgroupHeader, body: bytes, s: bytes)
    requires s <= HeaderBytes(h) + body
    ensures var n := |HeaderBytes(h)|;
            if |s| < n then ParseHeader(s).Reject?
            else ParseHeader(s) == Accept(h, s[n..]) && s[n..] <= body
  {
    hide HeaderBytes, ParseHeader;
    var all := HeaderBytes(h);
    if |s| < |all| {
      var more := all[|s|..];
      assert s + more == all && all + [] == all;
      HeaderRoundTrip(h, []);
      if ParseHeader(s).Accept? {
        HeaderIsLocal(s, more);
      }
    } else {
      assert s == all + s[|all|..];
      HeaderRoundTrip(h, s[|all|..]);
    }
  }

  /** An object that is cut off is no object. */
  lemma ObjectOfPrefix(payload: blob, s: bytes)
    requires s < ObjectBytes(payload)
    ensures ParseObject(s, false).Reject?
  {
    hide ObjectBytes, ParseObject;
    var all := ObjectBytes(payload);
    var more := all[|s|..];
    assert s + more == all && all + [] == all;
    ObjectParses(payload, []);
    if ParseObject(s, false).Accept? {
      var Accept(o, rest) := ParseObject(s, false);
      ObjectThen(s, false, rest + more);
      Concat3(o.raw + o.payload, rest, more);
    }
  }

  lemma {:induction false} ObjectsFromFront(g: seq<IvfFrame>)
    requires g != []
    ensures ObjectsBytes(g) == ObjectBytes(g[0].data) + ObjectsBytes(g[1..])
    decreases |g|
  {
    hide ObjectBytes;
    var n := |g| - 1;
    if n > 0 {
      ObjectsFromFront(g[..n]);
      assert g[..n][1..] == g[1..][..n - 1];
      Concat3(ObjectBytes(g[0].data), ObjectsBytes(g[1..][..n - 1]), ObjectBytes(g[n].data));
    } else {
      assert [] + ObjectBytes(g[0].data) == ObjectBytes(g[0].data) + [];
    }
  }

  /** What can be read of a body that is cut off: the objects that are all there. */
  lemma {:induction false} ObjectsOfPrefix(g: seq<IvfFrame>, body: bytes)
    requires body <= ObjectsBytes(g)
    ensures PayloadsOf(Objects(body, false)) <= DataOf(g)
    ensures PayloadsOf(Objects(body, false)) == DataOf(g) <==> body == ObjectsBytes(g)
    ensures body == ObjectsBytes(g) ==> Complete(body, false) == body
    decreases |g|
  {
    hide ObjectBytes, ParseObject;
    if g == [] {
      EmptyHasNoObject(false);
    } else {
      var p := g[0].data;
      var all := ObjectBytes(p);
      ObjectsFromFront(g);
      ObjectIsNotEmpty(p);
      if |body| < |all| {
        assert body < all;
        ObjectOfPrefix(p, body);
      } else {
        var more := body[|all|..];
        assert body == all + more && more <= ObjectsBytes(g[1..]);
        ObjectsOfPrefix(g[1..], more);
        ObjectParses(p, more);
        FirstObject(g, body, more);
      }
    }
  }

  lemma ObjectIsNotEmpty(payload: blob)
    ensures ObjectBytes(payload) != []
  {
    hide Encode;
  }

  lemma FirstObject(g: seq<IvfFrame>, body: bytes, more: bytes)
    requires g != [] && ParseObject(body, false) == Accept(ObjectOf(g[0].data), more)
    requires |more| < |body|
    ensures PayloadsOf(Objects(body, false)) == [g[0].data] + PayloadsOf(Objects(more, false))
    ensures DataOf(g) == [g[0].data] + DataOf(g[1..])
    ensures Complete(body, false) == ObjectBytes(g[0].data) + Complete(more, false)
  {
    hide ParseObject, Encode;
    assert Objects(body, false) == [ObjectOf(g[0].data)] + Objects(more, false);
    hide Objects;
    HeadOfPayloads(ObjectOf(g[0].data), Objects(more, false));
  }

  lemma HeadOfPayloads(o: ObjectRead, os: seq<ObjectRead>)
    ensures PayloadsOf([o] + os) == [o.payload] + PayloadsOf(os)
  {
  }

  /** What the subscriber reads from a stream of a group is a prefix of the group's data, and all of it
      if and only if the stream is whole. */
  lemma StreamOfGroup(groupId: u64, g: seq<IvfFrame>, s: bytes)
    requires s <= StreamBytes(groupId, g)
    ensures match ReadStream(s)
            case None => s != StreamBytes(groupId, g)
            case Some(ps) => ps <= DataOf(g) && (ps == DataOf(g) <==> s == StreamBytes(groupId, g))
  {
    hide HeaderBytes, ParseHeader, ObjectsBytes, Objects, Complete;
    var h := GroupHeader(groupId);
    var n := |HeaderBytes(h)|;
    HeaderOfPrefix(h, ObjectsBytes(g), s);
    if |s| >= n {
      ObjectsOfPrefix(g, s[n..]);
      assert s == HeaderBytes(h) + s[n..];
    }
  }

  /** The bytes that a relay forwards of a stream: the header encoded again and the complete objects. */
  function Relayed(s: bytes): bytes
    requires ParseHeader(s).Accept?
  {
    var Accept(h, body) := ParseHeader(s);
    HeaderBytes(h) + Complete(body, h.hasProperties)
  }

  /** A relay turns a stream of a group, whole or cut off, into one of the same kind, and a whole
      stream into the same bytes. So any number of relays may lie in between. */
  lemma RelayKeepsGroupStream(groupId: u64, g: seq<IvfFrame>, s: bytes)
    requires s <= StreamBytes(groupId, g) && ParseHeader(s).Accept?
    ensures Relayed(s) <= StreamBytes(groupId, g)
    ensures s == StreamBytes(groupId, g) ==> Relayed(s) == s
  {
    hide HeaderBytes, ParseHeader, ObjectsBytes, Objects, Complete;
    var h := GroupHeader(groupId);
    var n := |HeaderBytes(h)|;
    HeaderOfPrefix(h, ObjectsBytes(g), s);
    CompleteIsFaithful(s[n..], false);
    ObjectsOfPrefix(g, s[n..]);
    PrefixUnder(HeaderBytes(h), Complete(s[n..], false), ObjectsBytes(g));
  }

  // ----- all streams -----

  function Sizes(gs: seq<seq<IvfFrame>>, order: seq<nat>): nat
    requires InRange(order, |gs|)
  {
    if order == [] then 0 else |gs[order[0]]| + Sizes(gs, order[1..])
  }

  lemma {:induction false} SizesTakeOut(gs: seq<seq<IvfFrame>>, order: seq<nat>, j: nat)
    requires j < |order| && InRange(order, |gs|)
    ensures Sizes(gs, order) == Sizes(gs, order[..j] + order[j + 1..]) + |gs[order[j]]|
    decreases |order|
  {
    var less := order[..j] + order[j + 1..];
    if j == 0 {
      assert less == order[1..];
    } else {
      SizesTakeOut(gs, order[1..], j - 1);
      assert less[0] == order[0] && less[1..] == order[1..][..j - 1] + order[1..][j..];
    }
  }

  lemma {:induction false} SizesOfPrefix(gs: seq<seq<IvfFrame>>, order: seq<nat>, n: nat)
    requires n <= |gs| && InRange(order, n)
    ensures Sizes(gs[..n], order) == Sizes(gs, order)
  {
    if order != [] {
      SizesOfPrefix(gs, order[1..], n);
    }
  }

  /** Groups that arrive once each hold no more frames than there are, and all of them if and only if
      no group is missing. */
  lemma {:induction false} SizesOfArrival(gs: seq<seq<IvfFrame>>, order: seq<nat>)
    requires [] !in gs && AreDistinct(order) && InRange(order, |gs|)
    ensures |order| <= |gs| && Sizes(gs, order) <= |Concat(gs)|
    ensures Sizes(gs, order) == |Concat(gs)| <==> |order| == |gs|
    decreases |gs|
  {
    if gs != [] {
      var n := |gs| - 1;
      assert gs[n] in gs;
      ConcatSnoc(gs);
      if n in order {
        var j :| 0 <= j < |order| && order[j] == n;
        var less := order[..j] + order[j + 1..];
        LessIsSmaller(order, j, n, less);
        SizesTakeOut(gs, order, j);
        SizesOfPrefix(gs, less, n);
        SizesOfArrival(gs[..n], less);
      } else {
        SizesOfPrefix(gs, order, n);
        SizesOfArrival(gs[..n], order);
      }
    }
  }

  lemma LessIsSmaller(order: seq<nat>, j: nat, n: nat, less: seq<nat>)
    requires j < |order| && order[j] == n && AreDistinct(order) && InRange(order, n + 1)
    requires less == order[..j] + order[j + 1..]
    ensures AreDistinct(less) && InRange(less, n)
  {
  }

  /** At most the frames of the arriving groups are received, and all of them if and only if no stream
      is cut off. */
  lemma {:induction false} ReceivedSize(gs: seq<seq<IvfFrame>>, order: seq<nat>, streams: seq<bytes>)
    requires [] !in gs && Arrival(gs, order, streams)
    ensures InRange(order, |gs|)
    ensures |Concat(Received(streams))| <= Sizes(gs, order)
    ensures |Concat(Received(streams))| == Sizes(gs, order) <==> AllWhole(gs, order, streams)
    ensures AllWhole(gs, order, streams) ==> Concat(Received(streams)) == Spelled(gs, order)
    decreases |order|
  {
    hide ReadStream, StreamBytes;
    if order != [] {
      var k := order[0];
      assert gs[k] in gs;
      StreamOfGroup(k, gs[k], streams[0]);
      ReceivedSize(gs, order[1..], streams[1..]);
      WholeStep(gs, order, streams);
    }
  }

  lemma WholeStep(gs: seq<seq<IvfFrame>>, order: seq<nat>, streams: seq<bytes>)
    requires order != [] && Arrival(gs, order, streams)
    ensures Arrival(gs, order[1..], streams[1..])
    ensures AllWhole(gs, order, streams) <==>
            streams[0] == StreamBytes(order[0], gs[order[0]]) && AllWhole(gs, order[1..], streams[1..])
  {
    hide StreamBytes;
    assert forall i :: 0 <= i < |order| - 1 ==> order[1..][i] == order[i + 1] && streams[1..][i] == streams[i + 1];
    if AllWhole(gs, order[1..], streams[1..]) && streams[0] == StreamBytes(order[0], gs[order[0]]) {
      forall i | 0 <= i < |order| ensures streams[i] == StreamBytes(order[i], gs[order[i]]) {
        if i > 0 {
          assert streams[1..][i - 1] == StreamBytes(order[1..][i - 1], gs[order[1..][i - 1]]);
        }
      }
    }
  }

  /** In group order, the arriving data is the publisher's. */
  lemma {:induction false} SpelledInOrder(gs: seq<seq<IvfFrame>>, order: seq<nat>, first: nat)
    requires InRange(order, |gs|) && first + |order| == |gs|
    requires forall i :: 0 <= i < |order| ==> order[i] == first + i
    ensures Spelled(gs, order) == DataOf(Concat(gs[first..]))
    decreases |order|
  {
    if order != [] {
      SpelledInOrder(gs, order[1..], first + 1);
      assert gs[first..][0] == gs[first] && gs[first..][1..] == gs[first + 1..];
      DataOfConcat(gs[first], Concat(gs[first + 1..]));
    }
  }

  lemma DataOfConcat(a: seq<IvfFrame>, b: seq<IvfFrame>)
    ensures DataOf(a + b) == DataOf(a) + DataOf(b)
  {
  }

  /** No two groups start with the same data. */
  predicate FirstsDiffer(gs: seq<seq<IvfFrame>>) {
    && (forall k :: 0 <= k < |gs| ==> gs[k] != [])
    && forall j, k :: 0 <= j < k < |gs| ==> gs[j][0].data != gs[k][0].data
  }

  /** Then the order of arrival can be read off the data. */
  lemma {:induction false} SpelledDetermines(gs: seq<seq<IvfFrame>>, a: seq<nat>, b: seq<nat>)
    requires FirstsDiffer(gs) && InRange(a, |gs|) && InRange(b, |gs|) && |a| == |b|
    requires Spelled(gs, a) == Spelled(gs, b)
    ensures a == b
  {
    if a != [] {
      var x, y := DataOf(gs[a[0]]), DataOf(gs[b[0]]);
      assert Spelled(gs, a)[0] == x[0] && Spelled(gs, b)[0] == y[0];
      assert a[0] == b[0];
      assert Spelled(gs, a)[|x|..] == Spelled(gs, a[1..]) && Spelled(gs, b)[|x|..] == Spelled(gs, b[1..]);
      SpelledDetermines(gs, a[1..], b[1..]);
      assert a == [a[0]] + a[1..] && b == [b[0]] + b[1..];
    }
  }

  /** The subscriber receives the publisher's frames if and only if no group is missing, no stream is
      cut off, and the groups in the order of their arrival spell the same data. */
  lemma AllFramesArrive(frames: seq<IvfFrame>, order: seq<nat>, streams: seq<bytes>)
    requires Arrival(Groups(frames), order, streams)
    ensures var gs := Groups(frames);
            Concat(Received(streams)) == DataOf(frames) <==>
            |order| == |gs| && AllWhole(gs, order, streams) && Spelled(gs, order) == DataOf(frames)
  {
    hide Groups, Received;
    var gs := Groups(frames);
    GroupsAreSegmentation(frames);
    ReceivedSize(gs, order, streams);
    SizesOfArrival(gs, order);
  }

  /** If no two groups start with the same data, the last condition says that they arrive in group
      order. */
  lemma InGroupOrder(frames: seq<IvfFrame>, order: seq<nat>)
    requires InRange(order, |Groups(frames)|) && |order| == |Groups(frames)|
    ensures (forall i :: 0 <= i < |order| ==> order[i] == i) ==> Spelled(Groups(frames), order) == DataOf(frames)
    ensures FirstsDiffer(Groups(frames)) && Spelled(Groups(frames), order) == DataOf(frames) ==>
              forall i :: 0 <= i < |order| ==> order[i] == i
  {
    hide Groups, Spelled;
    var gs := Groups(frames);
    var sorted: seq<nat> := seq(|order|, i => i);
    GroupsAreSegmentation(frames);
    assert gs[0..] == gs;
    SpelledInOrder(gs, sorted, 0);
    if forall i :: 0 <= i < |order| ==> order[i] == i {
      assert order == sorted;
    }
    if FirstsDiffer(gs) && Spelled(gs, order) == DataOf(frames) {
      SpelledDetermines(gs, order, sorted);
    }
  }

  // ----- file to file -----

  predicate AllSmall(ps: seq<blob>) { forall p :: p in ps ==> |p| < U32 }

  lemma {:induction false} RecordsAreSmall(s: bytes)
    ensures forall r :: r in ParseRecords(s) ==> |r.data| < U32
    decreases |s|
  {
    hide ParseRecord;
    RecordShrinks(s);
    if ParseRecord(s).Accept? {
      RecordsAreSmall(ParseRecord(s).rest);
      RecordIsSmall(s);
    }
  }

  lemma RecordIsSmall(s: bytes)
    requires ParseRecord(s).Accept?
    ensures |ParseRecord(s).value.data| < U32
  {
    SizeBound(s[..12][..4]);
  }

  lemma FileIsSmall(file: bytes)
    ensures AllSmall(DataOf(FramesOf(ParseFile(file))))
  {
    hide ParseRecords;
    if |file| >= 32 {
      RecordsAreSmall(file[32..]);
    }
  }

  lemma {:induction false} GroupsAreSmall(gs: seq<seq<IvfFrame>>, k: nat)
    requires k < |gs| && AllSmall(DataOf(Concat(gs)))
    ensures AllSmall(DataOf(gs[k]))
  {
    DataOfConcat(gs[0], Concat(gs[1..]));
    assert forall p :: p in DataOf(gs[0]) ==> p in DataOf(Concat(gs));
    assert forall p :: p in DataOf(Concat(gs[1..])) ==> p in DataOf(Concat(gs));
    if k > 0 {
      GroupsAreSmall(gs[1..], k - 1);
    }
  }

  lemma {:induction false} ReceivedIsSmall(gs: seq<seq<IvfFrame>>, order: seq<nat>, streams: seq<bytes>)
    requires Arrival(gs, order, streams) && AllSmall(DataOf(Concat(gs)))
    ensures AllSmall(Concat(Received(streams)))
    decreases |order|
  {
    hide ReadStream, StreamBytes;
    if order != [] {
      var k := order[0];
      StreamOfGroup(k, gs[k], streams[0]);
      GroupsAreSmall(gs, k);
      WholeStep(gs, order, streams);
      ReceivedIsSmall(gs, order[1..], streams[1..]);
      assert ReadStream(streams[0]).Some? ==>
          forall p :: p in ReadStream(streams[0]).value ==> p in DataOf(gs[k]);
    }
  }

  /** From the publisher's file to the subscriber's, over streams that may be relayed, cut off, lost
      and reordered. The subscriber's file always holds what arrived, in the order of arrival and
      numbered 0, 1, 2, ...; these are the publisher's frames if and only if every group arrives whole
      and the groups, in the order of their arrival, spell the same data. */
  lemma FileToFile(file: bytes, order: seq<nat>, streams: seq<bytes>)
    requires |ParseFile(file)| <= U64 && Arrival(Groups(FramesOf(ParseFile(file))), order, streams)
    ensures var frames := FramesOf(ParseFile(file));
            var gs := Groups(frames);
            var written := ParseFile(FileBytes(Received(streams)));
            && written == Numbered(Concat(Received(streams)), 0)
            && (written == Numbered(DataOf(frames), 0) <==>
                |order| == |gs| && AllWhole(gs, order, streams) && Spelled(gs, order) == DataOf(frames))
  {
    hide Groups, Received, ParseFile, FileBytes;
    var frames := FramesOf(ParseFile(file));
    var gs := Groups(frames);
    GroupsAreSegmentation(frames);
    FileIsSmall(file);
    ReceivedIsSmall(gs, order, streams);
    ReceivedSize(gs, order, streams);
    SizesOfArrival(gs, order);
    FileRoundTrip(Received(streams));
    AllFramesArrive(frames, order, streams);
    NumberedDetermines(Concat(Received(streams)), DataOf(frames));
  }

  lemma NumberedDetermines(a: seq<blob>, b: seq<blob>)
    ensures Numbered(a, 0) == Numbered(b, 0) <==> a == b
  {
    if Numbered(a, 0) == Numbered(b, 0) {
      assert forall i :: 0 <= i < |a| ==> Numbered(a, 0)[i].data == Numbered(b, 0)[i].data;
    }
  }

  // ----- the code -----

  /** The receive loop over one data stream: `while let Ok(Some(payload)) = group.read_object()`. */
  method ReadGroup(stream: RecvStream) returns (r: Option<seq<blob>>)
    modifies stream
    ensures r == ReadStream(old(stream.unread))
  {
    hide ParseHeader, ParseObject;
    var reader := new DataStreamReader(stream);
    var header := reader.ReadSubgroupHeader();
    if !header.Done? {
      return None;
    }
    ghost var body, has := stream.unread, reader.hasProperties;
    var payloads: seq<blob> := [];
    assert [] + PayloadsOf(Objects(body, has)) == PayloadsOf(Objects(body, has));
    while true
      invariant reader.hasProperties == has
      invariant PayloadsOf(Objects(body, has)) == payloads + PayloadsOf(Objects(stream.unread, has))
      decreases |stream.unread|
    {
      NextPayload(stream.unread, has);
      var o := reader.ReadObject();
      if !o.Done? || o.value.None? {
        break;
      }
      Concat3(payloads, [o.value.value.payload], PayloadsOf(Objects(stream.unread, has)));
      payloads := payloads + [o.value.value.payload];
    }
    assert payloads + [] == payloads;
    r := Some(payloads);
  }

  lemma NextPayload(s: bytes, hasProperties: bool)
    ensures var p := ParseObject(s, hasProperties);
            && (Varint.ParseVarint(s).Reject? ==> p.Reject?)
            && (p.Reject? ==> PayloadsOf(Objects(s, hasProperties)) == [])
            && (p.Accept? ==>
                  && |p.rest| < |s|
                  && PayloadsOf(Objects(s, hasProperties)) == [p.value.payload] + PayloadsOf(Objects(p.rest, hasProperties)))
  {
    NextObject(s, hasProperties);
    hide ParseObject, Varint.ParseVarint;
  }

  /** The receive task: group after group, until a stream has no readable header or none is left. */
  method Receive(arriving: seq<RecvStream>, ghost streams: seq<bytes>, stdout: Buffer)
    requires |arriving| == |streams| && |Concat(Received(streams))| <= U64
    requires forall i, j :: 0 <= i < j < |arriving| ==> arriving[i] != arriving[j]
    requires forall i :: 0 <= i < |arriving| ==> arriving[i].unread == streams[i]
    modifies arriving, stdout
    ensures stdout.data == old(stdout.data) + FileBytes(Received(streams))
  {
    hide ReadStream, FileBytes;
    var groups: seq<seq<blob>> := [];
    var i := 0;
    assert streams[0..] == streams && [] + Received(streams) == Received(streams);
    while i < |arriving|
      invariant 0 <= i <= |arriving| && stdout.data == old(stdout.data)
      invariant forall j :: i <= j < |arriving| ==> arriving[j].unread == streams[j]
      invariant Received(streams) == groups + Received(streams[i..])
    {
      assert streams[i..][0] == streams[i] && streams[i..][1..] == streams[i + 1..];
      var group := ReadGroup(arriving[i]);
      if group.None? {
        break;
      }
      Concat3(groups, [group.value], Received(streams[i + 1..]));
      groups := groups + [group.value];
      i := i + 1;
    }
    assert groups + [] == groups;
    WriteIvf(groups, stdout);
  }
}
