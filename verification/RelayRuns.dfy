/** Concrete runs to states that one would not expect of a relay. Each lemma builds its run step by
    step. */
module RelayRuns {
  import opened Words
  import opened Codec
  import opened Wire
  import opened RelayTables
  import opened RelaySystem
  import opened Utf8
  import opened RelayInvariants
  import opened RelayTheorems

  /** `R` is kept by every step. Runs are built for an arbitrary such set of states, and then used
      with the reachable ones. */
  ghost predicate Closed(R: State -> bool) {
    forall s, step :: R(s) && Enabled(s, step) ==> R(Apply(s, step))
  }

  lemma ReachableIsClosed()
    ensures Closed((s: State) => Reachable(s))
  {
    forall s, step | Reachable(s) && Enabled(s, step) ensures Reachable(Apply(s, step)) {
      OneStepRun(s, step);
    }
  }

  lemma Goes(R: State -> bool, s: State, step: Step) returns (s': State)
    requires Closed(R) && R(s) && Enabled(s, step)
    ensures R(s') && s' == Apply(s, step)
  {
    s' := Apply(s, step);
  }

  const NS := TrackNamespace([[1]])
  const MSG := SubscribeMessage(0, 0, NS, [], [])
  const TRACK := Track(NS, [])
  const OK := SubscribeOkMessage(7, [], [])
  const DONE := PublishDoneMessage(2, 0, ReasonPhrase([]))

  lemma InitIsReachable()
    ensures Reachable(INIT)
  {
    assert Feasible(INIT, []) && Exec(INIT, []) == INIT;
  }

  /** A PUBLISH_NAMESPACE handler that runs after its session was removed registers a dead owner, and
      the namespace then routes nowhere. */
  lemma DeadOwnerRun() returns (s: State)
    ensures Reachable(s)
    ensures NS in s.tables.owners && s.tables.owners[NS] !in s.tables.sessions
    ensures FindPublisher(s.tables, NS) == None
  {
    InitIsReachable();
    ReachableIsClosed();
    var R := (s: State) => Reachable(s);
    s := Goes(R, INIT, Connect);
    s := Goes(R, s, Arrive(0, Announce(0, NS, false)));
    s := Goes(R, s, Disconnect(0));
    s := Goes(R, s, Acquire(0));
  }

  /** Handler `t` of session `id` stands at `pc`, and only its locks are held. */
  predicate At(s: State, t: TaskId, id: SessionId, pc: Pc) {
    && t in s.tasks && s.tasks[t] == Serve(id, MSG, pc)
    && s.owner.Keys == Held(t, s.tasks[t]) && forall l :: l in s.owner ==> s.owner[l] == t
  }

  /** A step of the handler that acquires nothing leaves the tables and the responses as they are. */
  lemma GoesTo(R: State -> bool, s: State, step: Step, t: TaskId, id: SessionId, pc: Pc, pc': Pc) returns (s': State)
    requires Closed(R) && R(s) && At(s, t, id, pc) && Moves(step, t) && !step.Acquire?
    requires Enabled(s, step) && NextTask(s, step) == Serve(id, MSG, pc')
    ensures R(s') && At(s', t, id, pc')
    ensures s'.tasks == s.tasks[t := Serve(id, MSG, pc')]
    ensures s'.tables == s.tables && s'.sent == s.sent
    ensures s'.history.creator == s.history.creator && s'.history.deleted == s.history.deleted
  {
    s' := Goes(R, s, step);
  }

  /** The awaited lock is granted; the tables, responses and creators follow from the phase. */
  lemma AcquiresTo(R: State -> bool, s: State, t: TaskId, id: SessionId, pc: Pc, pc': Pc) returns (s': State)
    requires Closed(R) && R(s) && At(s, t, id, pc)
    requires Wanted(t, Serve(id, MSG, pc)).Some? && Wanted(t, Serve(id, MSG, pc)).value !in Held(t, Serve(id, MSG, pc))
    requires AfterAcquire(s.tables, Serve(id, MSG, pc)) == pc'
    ensures R(s') && At(s', t, id, pc')
    ensures s'.tasks == s.tasks[t := Serve(id, MSG, pc')]
    ensures s'.tables == TablesAfterAcquire(s.tables, t, Serve(id, MSG, pc))
    ensures s'.sent == (match Utterance(t, Serve(id, MSG, pc))
                        case None => s.sent
                        case Some((r, x)) => s.sent[r := Sent(s.sent, r) + [x]])
    ensures s'.history == HistoryAfterAcquire(s.history, s.tables, t, Serve(id, MSG, pc))
  {
    s' := Goes(R, s, Acquire(t));
  }

  lemma SpawnRun(R: State -> bool, s: State, t: TaskId, id: SessionId) returns (s': State)
    requires Closed(R) && R(s) && t !in s.tasks && id in s.tables.sessions && s.owner.Keys == {}
    ensures R(s') && At(s', t, id, Start)
    ensures s'.tasks == s.tasks[t := Serve(id, MSG, Start)]
    ensures s'.tables == s.tables && s'.sent == s.sent && s'.history == s.history
  {
    s' := Goes(R, s, Arrive(t, Serve(id, MSG, Start)));
  }

  /** From arrival to the aggregation check. */
  lemma ArriveRun(R: State -> bool, s: State, t: TaskId, id: SessionId) returns (s': State)
    requires Closed(R) && R(s) && t !in s.tasks && id in s.tables.sessions && s.owner.Keys == {}
    ensures R(s') && At(s', t, id, CheckExisting)
    ensures s'.tasks == s.tasks[t := Serve(id, MSG, CheckExisting)] && s'.sent == s.sent
    ensures s'.tables == s.tables.(locks := s.tables.locks + {TRACK})
    ensures s'.history.creator == s.history.creator && s'.history.deleted == s.history.deleted
  {
    hide Closed, FindPublisher, Requests;
    s' := SpawnRun(R, s, t, id);
    s' := GoesTo(R, s', Begin(t), t, id, Start, WantLockEntry);
    s' := AcquiresTo(R, s', t, id, WantLockEntry, WantTrack);
    s' := AcquiresTo(R, s', t, id, WantTrack, CheckExisting);
  }

  /** A first subscriber, up to the publisher's answer. */
  lemma AskPublisherRun(R: State -> bool, s: State, t: TaskId, id: SessionId, p: SessionId, ok: SubscribeOkMessage)
    returns (s': State)
    requires Closed(R) && R(s) && t !in s.tasks && id in s.tables.sessions && s.owner.Keys == {}
    requires FindPublisher(s.tables, NS) == Some(p) && TRACK !in s.tables.subs
    ensures R(s') && At(s', t, id, Record(p, ok))
    ensures s'.tasks == s.tasks[t := Serve(id, MSG, Record(p, ok))] && s'.sent == s.sent
    ensures s'.tables == s.tables.(locks := s.tables.locks + {TRACK})
    ensures s'.history.creator == s.history.creator && s'.history.deleted == s.history.deleted
  {
    s' := ArriveRun(R, s, t, id);
    s' := UpstreamRun(R, s', t, id, p, ok);
  }

  lemma UpstreamRun(R: State -> bool, s: State, t: TaskId, id: SessionId, p: SessionId, ok: SubscribeOkMessage)
    returns (s': State)
    requires Closed(R) && R(s) && At(s, t, id, CheckExisting)
    requires FindPublisher(s.tables, NS) == Some(p) && TRACK !in s.tables.subs
    ensures R(s') && At(s', t, id, Record(p, ok))
    ensures s'.tasks == s.tasks[t := Serve(id, MSG, Record(p, ok))] && s'.sent == s.sent && s'.tables == s.tables
    ensures s'.history.creator == s.history.creator && s'.history.deleted == s.history.deleted
  {
    s' := AcquiresTo(R, s, t, id, CheckExisting, WantPublisher);
    s' := AcquiresTo(R, s', t, id, WantPublisher, Upstream(p));
    s' := GoesTo(R, s', Answered(t, ok), t, id, Upstream(p), Record(p, ok));
  }

  /** ... and on, until its handler waits for PUBLISH_DONE. */
  lemma FirstSubscriberRun(R: State -> bool, s: State, t: TaskId, id: SessionId, p: SessionId) returns (s': State)
    requires Closed(R) && R(s) && t !in s.tasks && t !in s.sent && id in s.tables.sessions && s.owner.Keys == {}
    requires FindPublisher(s.tables, NS) == Some(p) && TRACK !in s.tables.subs
    ensures R(s') && At(s', t, id, AwaitDone)
    ensures s'.tasks == s.tasks[t := Serve(id, MSG, AwaitDone)]
    ensures s'.sent == s.sent[t := [Accepted(OK)]]
    ensures s'.tables == s.tables.(locks := s.tables.locks + {TRACK},
                                   subs := s.tables.subs[TRACK := Subscription(p, 7, OK, [Subscriber(id, t)])])
    ensures s'.history.creator == s.history.creator[TRACK := t] && s'.history.deleted == s.history.deleted
  {
    s' := AskPublisherRun(R, s, t, id, p, OK);
    s' := RecordRun(R, s', t, id, p);
  }

  lemma RecordRun(R: State -> bool, s: State, t: TaskId, id: SessionId, p: SessionId) returns (s': State)
    requires Closed(R) && R(s) && At(s, t, id, Record(p, OK)) && t !in s.sent && TRACK !in s.tables.subs
    ensures R(s') && At(s', t, id, AwaitDone)
    ensures s'.tasks == s.tasks[t := Serve(id, MSG, AwaitDone)]
    ensures s'.sent == s.sent[t := [Accepted(OK)]]
    ensures s'.tables == s.tables.(subs := s.tables.subs[TRACK := Subscription(p, 7, OK, [Subscriber(id, t)])])
    ensures s'.history.creator == s.history.creator[TRACK := t] && s'.history.deleted == s.history.deleted
  {
    s' := AcquiresTo(R, s, t, id, Record(p, OK), ForwardWait(OK));
    s' := ForwardRun(R, s', t, id);
  }

  lemma ForwardRun(R: State -> bool, s: State, t: TaskId, id: SessionId) returns (s': State)
    requires Closed(R) && R(s) && At(s, t, id, ForwardWait(OK)) && t !in s.sent
    ensures R(s') && At(s', t, id, AwaitDone)
    ensures s'.tasks == s.tasks[t := Serve(id, MSG, AwaitDone)]
    ensures s'.sent == s.sent[t := [Accepted(OK)]] && s'.tables == s.tables
    ensures s'.history.creator == s.history.creator && s'.history.deleted == s.history.deleted
  {
    assert Sent(s.sent, t) + [Accepted(OK)] == [Accepted(OK)];
    s' := AcquiresTo(R, s, t, id, ForwardWait(OK), ForwardWrite);
    s' := GoesTo(R, s', Written(t, true), t, id, ForwardWrite, AwaitDone);
  }

  /** A later subscriber, up to the point where it is listed and not yet answered. */
  lemma JoinRun(R: State -> bool, s: State, t: TaskId, id: SessionId) returns (s': State)
    requires Closed(R) && R(s) && t !in s.tasks && id in s.tables.sessions && s.owner.Keys == {}
    requires TRACK in s.tables.subs
    ensures R(s') && At(s', t, id, AggregateWait(s.tables.subs[TRACK].ok))
    ensures s'.tasks == s.tasks[t := Serve(id, MSG, AggregateWait(s.tables.subs[TRACK].ok))] && s'.sent == s.sent
    ensures s'.tables.subs == Push(s.tables, TRACK, Subscriber(id, t)).subs && s'.tables.sessions == s.tables.sessions
    ensures s'.history.creator == s.history.creator && s'.history.deleted == s.history.deleted
  {
    s' := ArriveRun(R, s, t, id);
    s' := AcquiresTo(R, s', t, id, CheckExisting, AggregateWait(s.tables.subs[TRACK].ok));
  }

  /** A relay with one publisher (session 0), which owns the namespace, and one subscriber session. */
  lemma PublisherRun(R: State -> bool) returns (s: State)
    requires Closed(R) && R(INIT)
    ensures R(s) && s.owner.Keys == {} && s.sent == map[]
    ensures s.tables == Tables(2, {0, 1}, map[NS := 0], map[], {})
    ensures s.tasks == map[0 := Announce(0, NS, true)]
    ensures s.history == History({}, {}, {}, map[], {}, {}, map[], map[])
    ensures FindPublisher(s.tables, NS) == Some(0)
  {
    s := Goes(R, INIT, Connect);
    s := Goes(R, s, Connect);
    s := Goes(R, s, Arrive(0, Announce(0, NS, false)));
    s := Goes(R, s, Acquire(0));
  }

  /** Task 2 holds the track lock at most; task 1 holds `held` at most. */
  predicate Among(owner: map<Lock, TaskId>, held: set<Lock>) {
    forall l :: l in owner ==> (owner[l] == 2 && l == TrackLock(TRACK)) || (owner[l] == 1 && l in held)
  }

  /** One step of task 1 while task 2 may hold the track lock. */
  lemma Proceeds(R: State -> bool, s: State, step: Step, pc: Pc, pc': Pc) returns (s': State)
    requires Closed(R) && R(s) && 1 in s.tasks && s.tasks[1] == Serve(1, MSG, pc) && Moves(step, 1)
    requires Enabled(s, step) && NextTask(s, step) == Serve(1, MSG, pc') && Among(s.owner, Held(1, s.tasks[1]))
    requires !pc.CheckExisting? && !pc.Record? && !pc.WantLockEntry?
    ensures R(s') && s'.tasks == s.tasks[1 := Serve(1, MSG, pc')]
    ensures Among(s'.owner, Held(1, Serve(1, MSG, pc')))
    ensures s'.tables == s.tables && s'.sent == NextSent(s, step)
  {
    s' := Goes(R, s, step);
  }

  /** PUBLISH_DONE reaches a subscriber before its SUBSCRIBE_OK: the second subscriber is listed, the
      first one's handler forwards PUBLISH_DONE to all that are listed, and only then is the second
      one answered. */
  lemma OvertakingRun() returns (s: State)
    ensures Reachable(s)
    ensures 2 in s.sent && s.sent[2] == [Done(1, DONE)]
    ensures Serving(s.tasks, 2) && s.tasks[2].pc == AggregateWait(OK)
  {
    InitIsReachable();
    ReachableIsClosed();
    s := OvertakingSteps((s: State) => Reachable(s));
  }

  lemma OvertakingSteps(R: State -> bool) returns (s: State)
    requires Closed(R) && R(INIT)
    ensures R(s) && 2 in s.sent && s.sent[2] == [Done(1, DONE)]
    ensures Serving(s.tasks, 2) && s.tasks[2].pc == AggregateWait(OK)
  {
    s := PublisherRun(R);
    s := FirstSubscriberRun(R, s, 1, 1, 0);
    s := JoinRun(R, s, 2, 1);
    assert Requests(s.tables, TRACK) == [1, 2];
    assert Among(s.owner, {});
    s := NotifyBoth(R, s);
  }

  lemma NotifyBoth(R: State -> bool, s: State) returns (s': State)
    requires Closed(R) && R(s)
    requires 1 in s.tasks && s.tasks[1] == Serve(1, MSG, AwaitDone)
    requires 2 in s.tasks && s.tasks[2] == Serve(1, MSG, AggregateWait(OK)) && 2 !in s.sent
    requires Requests(s.tables, TRACK) == [1, 2] && Among(s.owner, {})
    ensures R(s') && 2 in s'.sent && s'.sent[2] == [Done(1, DONE)]
    ensures Serving(s'.tasks, 2) && s'.tasks[2] == s.tasks[2]
  {
    s' := Proceeds(R, s, DoneReceived(1, DONE), AwaitDone, WantSnapshot(DONE));
    s' := SnapshotRun(R, s');
    s' := ForwardOne(R, s', [1, 2], 0);
    assert Sent(s'.sent, 2) + [Done(1, DONE)] == [Done(1, DONE)];
    s' := ForwardOne(R, s', [1, 2], 1);
  }

  lemma SnapshotRun(R: State -> bool, s: State) returns (s': State)
    requires Closed(R) && R(s)
    requires 1 in s.tasks && s.tasks[1] == Serve(1, MSG, WantSnapshot(DONE))
    requires Requests(s.tables, TRACK) == [1, 2] && Among(s.owner, {})
    ensures R(s') && Among(s'.owner, {}) && s'.sent == s.sent
    ensures s'.tasks == s.tasks[1 := Serve(1, MSG, NotifyWait(DONE, [1, 2], 0))]
  {
    assert AfterAcquire(s.tables, s.tasks[1]) == NotifyWait(DONE, [1, 2], 0);
    s' := Proceeds(R, s, Acquire(1), WantSnapshot(DONE), NotifyWait(DONE, [1, 2], 0));
  }

  /** Task 1 forwards PUBLISH_DONE to one request of its snapshot. */
  lemma ForwardOne(R: State -> bool, s: State, todo: seq<RequestId>, next: nat) returns (s': State)
    requires Closed(R) && R(s) && next < |todo|
    requires 1 in s.tasks && s.tasks[1] == Serve(1, MSG, NotifyWait(DONE, todo, next)) && Among(s.owner, {})
    ensures R(s') && Among(s'.owner, {})
    ensures s'.tasks == s.tasks[1 := Serve(1, MSG, Notify(DONE, todo, next + 1))]
    ensures s'.sent == s.sent[todo[next] := Sent(s.sent, todo[next]) + [Done(1, DONE)]]
  {
    hide Closed, NextTables, NextHistory, Regrant, Apply, FindPublisher, Requests, HasOtherFilter, IsUtf8;
    s' := Proceeds(R, s, Acquire(1), NotifyWait(DONE, todo, next), NotifyWrite(DONE, todo, next));
    s' := Proceeds(R, s', Written(1, true), NotifyWrite(DONE, todo, next), Notify(DONE, todo, next + 1));
  }

  // ----- many deletions -----

  /** No track is recorded; session 1 subscribes and session `p` owns the namespace. */
  predicate Idle(s: State, p: SessionId) {
    && s.owner.Keys == {} && s.tables.subs.Keys == {} && s.history.creator.Keys == {}
    && {1, p} <= s.tables.sessions && p != 1 && 1 < s.tables.next && p < s.tables.next
    && FindPublisher(s.tables, NS) == Some(p)
  }

  function AsSet(ts: seq<TaskId>): set<TaskId> { set t | t in ts }

  /** Each handler of `ts` still waits for the PUBLISH_DONE of a publisher that has left, and these are
      the handlers whose entries were deleted. */
  predicate Deserted(s: State, ts: seq<TaskId>, bound: nat) {
    && (forall i, j :: 0 <= i < j < |ts| ==> ts[i] != ts[j])
    && (forall t :: t in ts ==> t in s.tasks && s.tasks[t] == Serve(1, MSG, AwaitDone))
    && (forall t :: t in s.tasks ==> t < bound)
    && (forall r :: r in s.sent ==> r < bound)
    && s.history.deleted == AsSet(ts)
  }

  /** The publisher of the recorded track leaves, and a new one takes over the namespace. */
  lemma ReplacePublisher(R: State -> bool, s: State, t: TaskId, p: SessionId, a: TaskId) returns (s': State)
    requires Closed(R) && R(s) && s.owner.Keys == {} && a !in s.tasks
    requires {1, p} <= s.tables.sessions && p != 1 && 1 < s.tables.next
    requires s.tables.subs.Keys == {TRACK} && s.tables.subs[TRACK].publisher == p
    requires s.history.creator.Keys == {TRACK} && s.history.creator[TRACK] == t
    ensures R(s') && Idle(s', s.tables.next) && s'.sent == s.sent
    ensures s'.tasks == s.tasks[a := Announce(s.tables.next, NS, true)]
    ensures s'.history.deleted == s.history.deleted + {t}
  {
    s' := Goes(R, s, Disconnect(p));
    PublisherLeaves(s, s', t, p);
    s' := NewPublisherRun(R, s', a);
  }

  lemma PublisherLeaves(s: State, s': State, t: TaskId, p: SessionId)
    requires s.owner.Keys == {} && p in s.tables.sessions && s' == Apply(s, Disconnect(p))
    requires s.tables.subs.Keys == {TRACK} && s.tables.subs[TRACK].publisher == p
    requires s.history.creator.Keys == {TRACK} && s.history.creator[TRACK] == t
    ensures s'.owner == s.owner && s'.tasks == s.tasks && s'.sent == s.sent
    ensures s'.tables.next == s.tables.next && s'.tables.sessions == s.tables.sessions - {p}
    ensures s'.tables.subs.Keys == {} && s'.history.creator.Keys == {}
    ensures s'.history.deleted == s.history.deleted + {t}
  {
    assert TRACK in s.tables.subs && TRACK !in s'.tables.subs;
  }

  lemma NewPublisherRun(R: State -> bool, s: State, a: TaskId) returns (s': State)
    requires Closed(R) && R(s) && s.owner.Keys == {} && a !in s.tasks
    requires 1 in s.tables.sessions && 1 < s.tables.next
    requires s.tables.subs.Keys == {} && s.history.creator.Keys == {}
    ensures R(s') && Idle(s', s.tables.next) && s'.sent == s.sent
    ensures s'.tasks == s.tasks[a := Announce(s.tables.next, NS, true)]
    ensures s'.history.deleted == s.history.deleted
  {
    hide Closed, Check, Requests, AfterAcquire, HasOtherFilter;
    var q := s.tables.next;
    s' := Goes(R, s, Connect);
    s' := Goes(R, s', Arrive(a, Announce(q, NS, false)));
    s' := Goes(R, s', Acquire(a));
  }

  /** One more subscription that loses its publisher. */
  lemma DesertOne(R: State -> bool, s: State, p: SessionId, ts: seq<TaskId>, bound: nat) returns (s': State)
    requires Closed(R) && R(s) && Idle(s, p) && Deserted(s, ts, bound)
    ensures R(s') && Idle(s', s.tables.next) && Deserted(s', ts + [bound], bound + 2)
  {
    s' := FirstSubscriberRun(R, s, bound, 1, p);
    assert s'.tables.subs.Keys == {TRACK} && s'.history.creator.Keys == {TRACK};
    s' := ReplacePublisher(R, s', bound, p, bound + 1);
    DesertedGrows(s, s', ts, bound);
  }

  lemma DesertedGrows(s: State, s': State, ts: seq<TaskId>, bound: nat)
    requires Deserted(s, ts, bound)
    requires exists q :: s'.tasks == s.tasks[bound := Serve(1, MSG, AwaitDone)][bound + 1 := Announce(q, NS, true)]
    requires s'.sent == s.sent[bound := [Accepted(OK)]] && s'.history.deleted == s.history.deleted + {bound}
    ensures Deserted(s', ts + [bound], bound + 2)
  {
    assert AsSet(ts + [bound]) == AsSet(ts) + {bound};
  }

  lemma {:induction false} DesertedRun(R: State -> bool, n: nat)
    returns (s: State, p: SessionId, ts: seq<TaskId>, bound: nat)
    requires Closed(R) && R(INIT)
    ensures R(s) && Idle(s, p) && Deserted(s, ts, bound) && |ts| == n
  {
    if n == 0 {
      s := PublisherRun(R);
      p, ts, bound := 0, [], 1;
    } else {
      s, p, ts, bound := DesertedRun(R, n - 1);
      var q := s.tables.next;
      s := DesertOne(R, s, p, ts, bound);
      p, ts, bound := q, ts + [bound], bound + 2;
    }
  }

  function Dones(ts: seq<TaskId>): seq<Response> {
    if ts == [] then [] else Dones(ts[..|ts| - 1]) + [Done(ts[|ts| - 1], DONE)]
  }

  lemma IdleIsAt(s: State, t: TaskId)
    requires t in s.tasks && s.tasks[t] == Serve(1, MSG, AwaitDone) && s.owner.Keys == {}
    ensures At(s, t, 1, AwaitDone)
  {
  }

  /** Every waiting handler of `ts` gets its PUBLISH_DONE and forwards it to the one listed request. */
  lemma {:induction false} NotifyAll(R: State -> bool, s: State, ts: seq<TaskId>, r: RequestId) returns (s': State)
    requires Closed(R) && R(s) && s.owner.Keys == {} && Requests(s.tables, TRACK) == [r]
    requires forall i, j :: 0 <= i < j < |ts| ==> ts[i] != ts[j]
    requires forall t :: t in ts ==> t in s.tasks && s.tasks[t] == Serve(1, MSG, AwaitDone)
    ensures R(s') && s'.owner.Keys == {} && s'.tables == s.tables && s'.history.deleted == s.history.deleted
    ensures Sent(s'.sent, r) == Sent(s.sent, r) + Dones(ts)
    ensures forall t :: t in s.tasks && t !in ts ==> t in s'.tasks && s'.tasks[t] == s.tasks[t]
    ensures forall t :: t in ts ==> t in s'.tasks && s'.tasks[t] == Serve(1, MSG, Finished(Notified(DONE, [r])))
    decreases |ts|
  {
    hide Closed, Requests, FindPublisher, At;
    if ts == [] {
      s' := s;
      assert Sent(s.sent, r) + [] == Sent(s.sent, r);
    } else {
      var n := |ts| - 1;
      s' := NotifyAll(R, s, ts[..n], r);
      IdleIsAt(s', ts[n]);
      s' := NotifyRun(R, s', ts[n], r);
      Concat3(Sent(s.sent, r), Dones(ts[..n]), [Done(ts[n], DONE)]);
      assert forall t :: t in ts <==> t in ts[..n] || t == ts[n];
    }
  }

  lemma {:induction false} CountDones(ts: seq<TaskId>)
    ensures DoneCount([Accepted(OK)] + Dones(ts)) == |ts|
  {
    var rs := [Accepted(OK)] + Dones(ts);
    if ts == [] {
      assert rs[..0] == [];
    } else {
      CountDones(ts[..|ts| - 1]);
      assert rs[..|rs| - 1] == [Accepted(OK)] + Dones(ts[..|ts| - 1]);
    }
  }

  /** The bound of `DoneBound` is attained for every number of deletions: there is a run in which the
      entries of `n` handlers of a track are deleted, one after the other, and a later request for the
      track is sent all `n + 1` PUBLISH_DONE. */
  lemma DoneBoundIsAttained(n: nat) returns (s: State, r: RequestId)
    ensures Reachable(s) && Serving(s.tasks, r)
    ensures |DeletedFor(s, TrackOf(s.tasks[r]))| == n
    ensures DoneCount(Sent(s.sent, r)) == 1 + n
  {
    InitIsReachable();
    ReachableIsClosed();
    var ts: seq<TaskId>;
    s, ts, r := ManyDones((s: State) => Reachable(s), n);
    CountDones(ts + [r]);
    assert DeletedFor(s, TRACK) == AsSet(ts);
    DistinctSize(ts);
  }

  lemma ManyDones(R: State -> bool, n: nat) returns (s: State, ts: seq<TaskId>, r: RequestId)
    requires Closed(R) && R(INIT)
    ensures R(s) && |ts| == n && (forall i, j :: 0 <= i < j < n ==> ts[i] != ts[j])
    ensures forall t :: t in ts + [r] ==> Serving(s.tasks, t) && TrackOf(s.tasks[t]) == TRACK
    ensures s.history.deleted == AsSet(ts)
    ensures Sent(s.sent, r) == [Accepted(OK)] + Dones(ts + [r])
  {
    var p;
    s, p, ts, r := DesertedRun(R, n);
    s := FirstSubscriberRun(R, s, r, 1, p);
    assert Requests(s.tables, TRACK) == [r];
    s := NotifyAll(R, s, ts + [r], r);
  }

  lemma {:induction false} DistinctSize(ts: seq<TaskId>)
    requires forall i, j :: 0 <= i < j < |ts| ==> ts[i] != ts[j]
    ensures |AsSet(ts)| == |ts|
  {
    if ts == [] {
      assert AsSet(ts) == {};
    } else {
      var n := |ts| - 1;
      var init := AsSet(ts[..n]);
      DistinctSize(ts[..n]);
      assert ts[n] !in init;
      assert AsSet(ts) == init + {ts[n]};
    }
  }

  /** One request gets two PUBLISH_DONE: the first subscription is deleted when its publisher leaves,
      a second one is established for the track, and then both publishers' PUBLISH_DONE are forwarded
      to the subscriber of the second. */
  lemma DoubleDoneRun() returns (s: State, r: RequestId)
    ensures Reachable(s) && Serving(s.tasks, r)
    ensures DoneCount(Sent(s.sent, r)) == 2
    ensures |DeletedFor(s, TrackOf(s.tasks[r]))| == 1
  {
    s, r := DoneBoundIsAttained(1);
  }

  /** The other way to overtake: the publisher of a deleted entry sends PUBLISH_DONE when the next
      request for the track is recorded and not yet answered. */
  lemma OvertakingAfterDeletionRun() returns (s: State, r: RequestId)
    ensures Reachable(s) && Serving(s.tasks, r) && s.tasks[r].pc.ForwardWait?
    ensures DoneCount(Sent(s.sent, r)) == 1 && Answers(Sent(s.sent, r)) == []
  {
    InitIsReachable();
    ReachableIsClosed();
    var t;
    s, r, t := RecordedAndNotified((s: State) => Reachable(s));
    OneDone(t);
  }

  lemma RecordedAndNotified(R: State -> bool) returns (s: State, r: RequestId, t: TaskId)
    requires Closed(R) && R(INIT)
    ensures R(s) && Serving(s.tasks, r) && s.tasks[r].pc == ForwardWait(OK)
    ensures Sent(s.sent, r) == [Done(t, DONE)]
  {
    var p, ts;
    s, p, ts, r := DesertedRun(R, 1);
    t := ts[0];
    assert t in ts;
    s := RecordOnly(R, s, r, p, OK);
    assert Requests(s.tables, TRACK) == [r];
    s := NotifyRun(R, s, t, r);
    assert [] + [Done(t, DONE)] == [Done(t, DONE)];
  }

  /** A first subscriber, recorded and not yet answered. */
  lemma RecordOnly(R: State -> bool, s: State, t: TaskId, p: SessionId, ok: SubscribeOkMessage) returns (s': State)
    requires Closed(R) && R(s) && Idle(s, p) && t !in s.tasks
    ensures R(s') && At(s', t, 1, ForwardWait(ok)) && s'.sent == s.sent
    ensures s'.tasks == s.tasks[t := Serve(1, MSG, ForwardWait(ok))]
    ensures s'.tables.subs.Keys == {TRACK}
    ensures s'.tables.subs[TRACK] == Subscription(p, ok.trackAlias, ok, [Subscriber(1, t)])
    ensures 1 in s'.tables.sessions && s'.history.deleted == s.history.deleted
  {
    s' := AskPublisherRun(R, s, t, 1, p, ok);
    s' := RecordOne(R, s', t, p, ok);
  }

  lemma RecordOne(R: State -> bool, s: State, t: TaskId, p: SessionId, ok: SubscribeOkMessage) returns (s': State)
    requires Closed(R) && R(s) && At(s, t, 1, Record(p, ok)) && s.tables.subs.Keys == {}
    ensures R(s') && At(s', t, 1, ForwardWait(ok)) && s'.sent == s.sent
    ensures s'.tasks == s.tasks[t := Serve(1, MSG, ForwardWait(ok))]
    ensures s'.tables.subs.Keys == {TRACK}
    ensures s'.tables.subs[TRACK] == Subscription(p, ok.trackAlias, ok, [Subscriber(1, t)])
    ensures s'.tables.sessions == s.tables.sessions && s'.history.deleted == s.history.deleted
  {
    assert TRACK !in s.tables.subs;
    s' := AcquiresTo(R, s, t, 1, Record(p, ok), ForwardWait(ok));
  }

  // ----- a SUBSCRIBE_OK that cannot be encoded -----

  const BAD_OK := SubscribeOkMessage(7, [FilterParameter(LargestObjectFilter)], [])

  lemma BadOkIsBad()
    ensures HasOtherFilter(BAD_OK.parameters)
  {
    assert BAD_OK.parameters[0].FilterParameter? && !BAD_OK.parameters[0].filter.NextGroupStart?;
  }

  lemma GivesUpRun(R: State -> bool, s: State, t: TaskId, pc: Pc) returns (s': State)
    requires Closed(R) && R(s) && At(s, t, 1, pc) && pc in {ForwardWait(BAD_OK), AggregateWait(BAD_OK)}
    ensures R(s') && At(s', t, 1, Finished(Unencodable)) && s'.sent == s.sent && s'.tables == s.tables
    ensures s'.tasks == s.tasks[t := Serve(1, MSG, Finished(Unencodable))]
    ensures s'.history.deleted == s.history.deleted
  {
    BadOkIsBad();
    s' := AcquiresTo(R, s, t, 1, pc, Finished(Unencodable));
  }

  /** A publisher answers with a filter other than NextGroupStart: the first subscriber and everyone who
      joins are listed, and their handlers end without a byte to any of them. */
  lemma UnencodableRun() returns (s: State)
    ensures Reachable(s) && s.sent == map[]
    ensures forall t :: t in [1, 2] ==> Serving(s.tasks, t) && s.tasks[t].pc == Finished(Unencodable)
    ensures TRACK in s.tables.subs && s.tables.subs[TRACK].ok == BAD_OK
    ensures s.tables.subs[TRACK].subscribers == [Subscriber(1, 1), Subscriber(1, 2)]
  {
    InitIsReachable();
    ReachableIsClosed();
    s := UnencodableSteps((s: State) => Reachable(s));
  }

  lemma UnencodableSteps(R: State -> bool) returns (s: State)
    requires Closed(R) && R(INIT)
    ensures R(s) && s.sent == map[]
    ensures forall t :: t in [1, 2] ==> Serving(s.tasks, t) && s.tasks[t].pc == Finished(Unencodable)
    ensures TRACK in s.tables.subs && s.tables.subs[TRACK].ok == BAD_OK
    ensures s.tables.subs[TRACK].subscribers == [Subscriber(1, 1), Subscriber(1, 2)]
  {
    s := PublisherRun(R);
    s := RecordOnly(R, s, 1, 0, BAD_OK);
    s := GivesUpRun(R, s, 1, ForwardWait(BAD_OK));
    s := JoinBadEntry(R, s);
  }

  lemma JoinBadEntry(R: State -> bool, s: State) returns (s': State)
    requires Closed(R) && R(s) && At(s, 1, 1, Finished(Unencodable)) && 2 !in s.tasks && 1 in s.tables.sessions
    requires TRACK in s.tables.subs && s.tables.subs[TRACK] == Subscription(0, 7, BAD_OK, [Subscriber(1, 1)])
    ensures R(s') && s'.sent == s.sent
    ensures s'.tasks == s.tasks[2 := Serve(1, MSG, Finished(Unencodable))]
    ensures TRACK in s'.tables.subs
    ensures s'.tables.subs[TRACK] == Subscription(0, 7, BAD_OK, [Subscriber(1, 1), Subscriber(1, 2)])
  {
    hide Closed, FindPublisher, HasOtherFilter, Requests;
    s' := JoinRun(R, s, 2, 1);
    s' := GivesUpRun(R, s', 2, AggregateWait(BAD_OK));
  }

  /** After a deletion, a request whose SUBSCRIBE_OK cannot be encoded is sent PUBLISH_DONE by the handler
      of the deleted entry, and never an answer. */
  lemma DoneWithoutAnswerRun() returns (s: State, r: RequestId)
    ensures Reachable(s) && Serving(s.tasks, r) && s.tasks[r].pc == Finished(Unencodable)
    ensures DoneCount(Sent(s.sent, r)) == 1 && Answers(Sent(s.sent, r)) == []
  {
    InitIsReachable();
    ReachableIsClosed();
    var t;
    s, r, t := GivesUpAndNotified((s: State) => Reachable(s));
    OneDone(t);
  }

  lemma GivesUpAndNotified(R: State -> bool) returns (s: State, r: RequestId, t: TaskId)
    requires Closed(R) && R(INIT)
    ensures R(s) && Serving(s.tasks, r) && s.tasks[r].pc == Finished(Unencodable)
    ensures Sent(s.sent, r) == [Done(t, DONE)]
  {
    hide Closed, FindPublisher;
    var p, ts;
    s, p, ts, r := DesertedRun(R, 1);
    t := ts[0];
    assert t in ts;
    s := RecordOnly(R, s, r, p, BAD_OK);
    s := GivesUpRun(R, s, r, ForwardWait(BAD_OK));
    assert Requests(s.tables, TRACK) == [r];
    IdleIsAt(s, t);
    s := NotifyRun(R, s, t, r);
    assert [] + [Done(t, DONE)] == [Done(t, DONE)];
  }

  lemma OneDone(t: TaskId)
    ensures DoneCount([Done(t, DONE)]) == 1 && Answers([Done(t, DONE)]) == []
  {
    assert [Done(t, DONE)][..0] == [];
    AppendResponse([], Done(t, DONE));
    assert [] + [Done(t, DONE)] == [Done(t, DONE)];
  }

  // ----- a stalled relay -----

  /** A subscriber asks for a namespace without a publisher and does not read the REQUEST_ERROR: the
      announcement of that very namespace and a data stream of another session wait for the state lock
      that its handler keeps. `StalledByOneWrite` says how it goes on. */
  lemma StalledRun() returns (s: State)
    ensures Reachable(s) && Serving(s.tasks, 0) && s.tasks[0].pc.NoPublisherWrite?
    ensures 1 in s.tasks && s.tasks[1] == Announce(1, NS, false) && WaitsFor(s, 1, 0)
    ensures 2 in s.tasks && s.tasks[2] == FanOut(1, 5, None) && WaitsFor(s, 2, 0)
  {
    InitIsReachable();
    ReachableIsClosed();
    s := StalledSteps((s: State) => Reachable(s));
  }

  lemma StalledSteps(R: State -> bool) returns (s: State)
    requires Closed(R) && R(INIT)
    ensures R(s) && Serving(s.tasks, 0) && s.tasks[0].pc.NoPublisherWrite?
    ensures 1 in s.tasks && s.tasks[1] == Announce(1, NS, false) && WaitsFor(s, 1, 0)
    ensures 2 in s.tasks && s.tasks[2] == FanOut(1, 5, None) && WaitsFor(s, 2, 0)
  {
    hide Closed, Check, FindPublisher, Requests, Utterance, HistoryAfterAcquire, AfterAcquire, TablesAfterAcquire;
    s := Goes(R, INIT, Connect);
    s := Goes(R, s, Connect);
    s := ArriveRun(R, s, 0, 0);
    s := RefuseRun(R, s);
    s := OthersWait(R, s);
  }

  lemma OthersWait(R: State -> bool, s: State) returns (s': State)
    requires Closed(R) && R(s) && At(s, 0, 0, NoPublisherWrite) && s.tasks.Keys == {0} && 1 in s.tables.sessions
    ensures R(s') && Serving(s'.tasks, 0) && s'.tasks[0] == s.tasks[0]
    ensures 1 in s'.tasks && s'.tasks[1] == Announce(1, NS, false) && WaitsFor(s', 1, 0)
    ensures 2 in s'.tasks && s'.tasks[2] == FanOut(1, 5, None) && WaitsFor(s', 2, 0)
  {
    hide Closed, Check, FindPublisher, Requests, Utterance, HistoryAfterAcquire, AfterAcquire, TablesAfterAcquire;
    assert StateLock in s.owner && s.owner[StateLock] == 0;
    s' := Goes(R, s, Arrive(1, Announce(1, NS, false)));
    s' := Goes(R, s', Arrive(2, FanOut(1, 5, None)));
  }

  lemma NobodyOwns(tables: Tables)
    requires tables.owners.Keys == {}
    ensures FindPublisher(tables, NS) == None
  {
    LongestPrefixRouting(tables.owners, NS);
  }

  lemma RefuseRun(R: State -> bool, s: State) returns (s': State)
    requires Closed(R) && R(s) && At(s, 0, 0, CheckExisting)
    requires s.tables.subs.Keys == {} && s.tables.owners.Keys == {}
    ensures R(s') && At(s', 0, 0, NoPublisherWrite) && s'.tasks == s.tasks[0 := Serve(0, MSG, NoPublisherWrite)]
    ensures s'.tables == s.tables
  {
    hide Closed, FindPublisher, HasOtherFilter, HistoryAfterAcquire;
    NobodyOwns(s.tables);
    s' := AcquiresTo(R, s, 0, 0, CheckExisting, WantPublisher);
    s' := AcquiresTo(R, s', 0, 0, WantPublisher, NoPublisherWait);
    s' := RefuseNow(R, s');
  }

  lemma RefuseNow(R: State -> bool, s: State) returns (s': State)
    requires Closed(R) && R(s) && At(s, 0, 0, NoPublisherWait)
    ensures R(s') && At(s', 0, 0, NoPublisherWrite) && s'.tasks == s.tasks[0 := Serve(0, MSG, NoPublisherWrite)]
    ensures s'.tables == s.tables
  {
    hide Closed, FindPublisher, HasOtherFilter, HistoryAfterAcquire;
    s' := AcquiresTo(R, s, 0, 0, NoPublisherWait, NoPublisherWrite);
  }

  /** A request that joins a subscription after its PUBLISH_DONE was forwarded: it is accepted and
      listed, and nothing is left that would tell it that the track has ended. */
  lemma StrandedRun() returns (s: State)
    ensures Reachable(s)
    ensures Serving(s.tasks, 1) && s.tasks[1].pc == Finished(Notified(DONE, [1]))
    ensures Serving(s.tasks, 2) && s.tasks[2].pc == Finished(Served)
    ensures Sent(s.sent, 2) == [Accepted(OK)]
    ensures TRACK in s.tables.subs && Subscriber(1, 2) in s.tables.subs[TRACK].subscribers
  {
    InitIsReachable();
    ReachableIsClosed();
    s := StrandedSteps((s: State) => Reachable(s));
  }

  lemma StrandedSteps(R: State -> bool) returns (s: State)
    requires Closed(R) && R(INIT)
    ensures R(s) && Serving(s.tasks, 1) && s.tasks[1].pc == Finished(Notified(DONE, [1]))
    ensures Serving(s.tasks, 2) && s.tasks[2].pc == Finished(Served)
    ensures Sent(s.sent, 2) == [Accepted(OK)]
    ensures TRACK in s.tables.subs && Subscriber(1, 2) in s.tables.subs[TRACK].subscribers
  {
    s := PublisherRun(R);
    s := FirstSubscriberRun(R, s, 1, 1, 0);
    assert Requests(s.tables, TRACK) == [1];
    s := NotifyRun(R, s, 1, 1);
    s := JoinRun(R, s, 2, 1);
    s := AnswerRun(R, s, 2);
  }

  lemma AnswerRun(R: State -> bool, s: State, t: TaskId) returns (s': State)
    requires Closed(R) && R(s) && At(s, t, 1, AggregateWait(OK)) && t !in s.sent
    ensures R(s') && s'.tasks == s.tasks[t := Serve(1, MSG, Finished(Served))] && s'.tables == s.tables
    ensures Sent(s'.sent, t) == [Accepted(OK)]
  {
    s' := AcquiresTo(R, s, t, 1, AggregateWait(OK), AggregateWrite);
    assert [] + [Accepted(OK)] == [Accepted(OK)];
    s' := GoesTo(R, s', Written(t, true), t, 1, AggregateWrite, Finished(Served));
  }

  /** A handler forwards PUBLISH_DONE to the only listed request. */
  lemma NotifyRun(R: State -> bool, s: State, t: TaskId, r: RequestId) returns (s': State)
    requires Closed(R) && R(s) && At(s, t, 1, AwaitDone)
    requires Requests(s.tables, TRACK) == [r]
    ensures R(s') && s'.owner.Keys == {} && s'.tables == s.tables && s'.history.deleted == s.history.deleted
    ensures s'.tasks == s.tasks[t := Serve(1, MSG, Finished(Notified(DONE, [r])))]
    ensures s'.sent == s.sent[r := Sent(s.sent, r) + [Done(t, DONE)]]
  {
    hide Closed, FindPublisher, Requests, HasOtherFilter, IsUtf8, ListsMatches, AfterAcquire, Utterance;
    s' := TakeSnapshot(R, s, t, r);
    s' := SayDone(R, s', t, r);
    s' := GoesTo(R, s', Written(t, true), t, 1, NotifyWrite(DONE, [r], 0), Finished(Notified(DONE, [r])));
  }

  lemma SayDone(R: State -> bool, s: State, t: TaskId, r: RequestId) returns (s': State)
    requires Closed(R) && R(s) && At(s, t, 1, NotifyWait(DONE, [r], 0))
    ensures R(s') && At(s', t, 1, NotifyWrite(DONE, [r], 0)) && s'.tables == s.tables
    ensures s'.tasks == s.tasks[t := Serve(1, MSG, NotifyWrite(DONE, [r], 0))]
    ensures s'.sent == s.sent[r := Sent(s.sent, r) + [Done(t, DONE)]]
    ensures s'.history.deleted == s.history.deleted
  {
    s' := AcquiresTo(R, s, t, 1, NotifyWait(DONE, [r], 0), NotifyWrite(DONE, [r], 0));
  }

  lemma TakeSnapshot(R: State -> bool, s: State, t: TaskId, r: RequestId) returns (s': State)
    requires Closed(R) && R(s) && At(s, t, 1, AwaitDone)
    requires Requests(s.tables, TRACK) == [r]
    ensures R(s') && At(s', t, 1, NotifyWait(DONE, [r], 0)) && s'.tables == s.tables && s'.sent == s.sent
    ensures s'.tasks == s.tasks[t := Serve(1, MSG, NotifyWait(DONE, [r], 0))]
    ensures s'.history.deleted == s.history.deleted
  {
    s' := GoesTo(R, s, DoneReceived(t, DONE), t, 1, AwaitDone, WantSnapshot(DONE));
    s' := AcquiresTo(R, s', t, 1, WantSnapshot(DONE), NotifyWait(DONE, [r], 0));
  }
}
