/** Which requests are left without a response: handlers that end without an answer, and subscribers
    that are never told that their track has ended. */
module RelayResponses {
  import opened Words
  import opened Codec
  import opened Wire
  import opened RelayTables
  import opened RelaySystem
  import opened Utf8
  import opened RelayInvariants
  import opened RelayTheorems

  // ----- no answer -----

  /** The filter check passes and the name is not UTF-8. */
  predicate HasBadName(msg: SubscribeMessage) { !HasUnsupportedFilter(msg) && !IsUtf8(msg.trackName) }

  /** The SUBSCRIBE_OK that handler `t` is to send on is one that the encoder refuses: it came from the
      publisher, or from the entry that the request joined. */
  predicate HasBadOffer(h: History, t: TaskId) { t in h.offered && HasOtherFilter(h.offered[t].parameters) }

  function Offer(h: History, t: TaskId): Option<SubscribeOkMessage> {
    if t in h.offered then Some(h.offered[t]) else None
  }

  /** What the phase of a handler says about its message, the fate of its upstream request and the
      SUBSCRIBE_OK that it was offered. */
  predicate ChecksOk(msg: SubscribeMessage, pc: Pc, failed: bool, offer: Option<SubscribeOkMessage>) {
    if pc.Start? then !failed && offer == None
    else if pc == Finished(Unanswered) then (failed || HasBadName(msg)) && offer == None
    else !failed && !HasBadName(msg) && OfferOk(pc, offer)
  }

  predicate OfferOk(pc: Pc, offer: Option<SubscribeOkMessage>) {
    match pc
    case Record(_, ok) => offer == Some(ok)
    case AggregateWait(ok) => offer == Some(ok)
    case ForwardWait(ok) => offer == Some(ok)
    case Finished(Unencodable) => offer.Some? && HasOtherFilter(offer.value.parameters)
    case _ => if Listed(pc) then offer.Some? && !HasOtherFilter(offer.value.parameters) else offer == None
  }

  ghost predicate AllChecked(s: State) {
    && (forall t :: Serving(s.tasks, t) ==>
          ChecksOk(s.tasks[t].msg, s.tasks[t].pc, t in s.history.failed, Offer(s.history, t)))
    && (forall t :: t in s.history.failed || t in s.history.offered ==> t in s.tasks)
  }

  /** The program counter moves as the checks say. */
  lemma CheckStep(s: State, step: Step)
    requires Enabled(s, step) && !step.Connect? && !step.Disconnect? && !step.Arrive?
    requires Serving(s.tasks, step.t)
    requires ChecksOk(s.tasks[step.t].msg, s.tasks[step.t].pc, step.t in s.history.failed, Offer(s.history, step.t))
    ensures var task, h := NextTask(s, step), NextHistory(s, step);
            task.Serve? && ChecksOk(task.msg, task.pc, step.t in h.failed, Offer(h, step.t))
  {
    hide HasOtherFilter, IsUtf8, AfterAcquire, HistoryAfterAcquire, AfterWrite, ListsMatches, Wanted, Targets;
    var task := s.tasks[step.t];
    if step.Acquire? {
      CheckAcquire(s.history, s.tables, step.t, task);
    } else if step.Written? {
      CheckWritten(task.msg, task.pc, step.t in s.history.failed, Offer(s.history, step.t), step.success);
    }
  }

  lemma CheckWritten(msg: SubscribeMessage, pc: Pc, failed: bool, offer: Option<SubscribeOkMessage>, success: bool)
    requires ChecksOk(msg, pc, failed, offer) && Writing(pc)
    ensures ChecksOk(msg, AfterWrite(pc, success), failed, offer)
  {
    hide HasOtherFilter, HasBadName;
  }

  lemma CheckAcquire(h: History, tables: Tables, t: TaskId, task: Task)
    requires task.Serve? && ChecksOk(task.msg, task.pc, t in h.failed, Offer(h, t))
    ensures var h' := HistoryAfterAcquire(h, tables, t, task);
            ChecksOk(task.msg, AfterAcquire(tables, task), t in h'.failed, Offer(h', t))
  {
    hide HistoryAfterAcquire, HasOtherFilter, IsUtf8, FindPublisher, Requests, HasBadName;
    AcquireHistory(h, tables, t, task);
  }

  lemma RemoveHistory(h: History, before: map<Track, Subscription>, after: map<Track, Subscription>)
    ensures var h' := HistoryAfterRemove(h, before, after);
            h'.failed == h.failed && h'.offered == h.offered && h'.received == h.received
  {
  }

  lemma ChecksAfter(s: State, step: Step)
    requires Enabled(s, step)
    ensures NextHistory(s, step).failed == if step.Refusal? then s.history.failed + {step.t} else s.history.failed
    ensures step.Connect? || step.Disconnect? ==> NextHistory(s, step).offered == s.history.offered
    ensures !step.Connect? && !step.Disconnect? ==>
              forall t :: t != step.t ==> Offer(NextHistory(s, step), t) == Offer(s.history, t)
    ensures !step.Connect? && !step.Disconnect? && (step.Arrive? || !Serving(s.tasks, step.t)) ==>
              NextHistory(s, step).offered == s.history.offered
  {
    hide HistoryAfterAcquire, HistoryAfterRemove, FindPublisher, HasOtherFilter, ListsMatches, Wanted, Targets, Remove;
    if step.Acquire? {
      AcquireHistory(s.history, s.tables, step.t, s.tasks[step.t]);
    } else if step.Disconnect? {
      RemoveHistory(s.history, s.tables.subs, Remove(s.tables, step.id).subs);
    }
  }

  lemma CheckedKept(s: State, step: Step)
    requires AllChecked(s) && Enabled(s, step)
    ensures AllChecked(Apply(s, step))
  {
    hide ChecksOk, NextHistory, NextTables, NextSent;
    ChecksAfter(s, step);
    if !step.Connect? && !step.Disconnect? {
      var task := NextTask(s, step);
      var h := NextHistory(s, step);
      assert forall t :: t in h.offered <==> Offer(h, t).Some?;
      if step.Arrive? {
        StartsUnchecked(task, step.t in s.history.failed, Offer(s.history, step.t));
      } else if Serving(s.tasks, step.t) {
        CheckStep(s, step);
      }
    }
  }

  lemma StartsUnchecked(task: Task, failed: bool, offer: Option<SubscribeOkMessage>)
    requires Fresh(task) && !failed && offer == None
    ensures task.Serve? ==> ChecksOk(task.msg, task.pc, failed, offer)
  {
  }

  lemma {:induction false} CheckedAlongRun(s: State, steps: seq<Step>)
    requires AllChecked(s) && Feasible(s, steps)
    ensures AllChecked(Exec(s, steps))
    decreases |steps|
  {
    if steps != [] {
      CheckedKept(s, steps[0]);
      CheckedAlongRun(Apply(s, steps[0]), steps[1..]);
    }
  }

  lemma ChecksHold(s: State, t: TaskId)
    requires Reachable(s) && Serving(s.tasks, t)
    ensures ChecksOk(s.tasks[t].msg, s.tasks[t].pc, t in s.history.failed, Offer(s.history, t))
  {
    var steps :| Feasible(INIT, steps) && s == Exec(INIT, steps);
    CheckedAlongRun(INIT, steps);
  }

  /** A handler that is done has sent neither SUBSCRIBE_OK nor REQUEST_ERROR if and only if the track
      name is not UTF-8 after the filter check was passed, or its upstream request was refused or
      lost, or the SUBSCRIBE_OK to be sent has a filter other than NextGroupStart. */
  lemma UnansweredIff(s: State, t: TaskId)
    requires Reachable(s) && Serving(s.tasks, t) && s.tasks[t].pc.Finished?
    ensures Answers(Sent(s.sent, t)) == [] <==>
            HasBadName(s.tasks[t].msg) || t in s.history.failed || HasBadOffer(s.history, t)
  {
    hide HasOtherFilter, IsUtf8;
    ChecksHold(s, t);
    AnswerHolds(s, t);
  }

  /** A request that has been sent PUBLISH_DONE has no SUBSCRIBE_OK yet if and only if its handler
      waits to answer it after joining an existing subscription, or after recording a new one on a
      track that has seen a deletion, or has given up because the SUBSCRIBE_OK cannot be encoded. */
  lemma DoneBeforeAnswer(s: State, r: RequestId)
    requires Reachable(s) && Serving(s.tasks, r)
    requires DoneCount(Sent(s.sent, r)) > 0
    ensures Answers(Sent(s.sent, r)) == [] <==>
            || s.tasks[r].pc.AggregateWait?
            || (s.tasks[r].pc.ForwardWait? && DeletedFor(s, TrackOf(s.tasks[r])) != {})
            || (s.tasks[r].pc.Finished? && HasBadOffer(s.history, r))
  {
    hide HasOtherFilter, IsUtf8, HasUnsupportedFilter;
    DonesHold(s, r, r);
    DoneCountIsNotifiers(Sent(s.sent, r));
    var t :| t in Notifiers(Sent(s.sent, r));
    NotifierFate(s, t, r);
    AnswerHolds(s, r);
    ChecksHold(s, r);
    if s.tasks[r].pc.ForwardWait? {
      AskedHolds(s, r);
      FateHolds(s, r);
      assert t in DeletedFor(s, TrackOf(s.tasks[r])) || r in DeletedFor(s, TrackOf(s.tasks[r]));
    }
  }

  // ----- entries whose SUBSCRIBE_OK cannot be encoded -----

  /** Everyone on a track was offered the SUBSCRIBE_OK of its entry: those on the list and the handler
      that recorded it. */
  ghost predicate OffersOk(subs: map<Track, Subscription>, h: History) {
    && (forall k, x :: k in subs && x in subs[k].subscribers ==> Offer(h, x.request) == Some(subs[k].ok))
    && (forall k :: k in subs && k in h.creator ==> Offer(h, h.creator[k]) == Some(subs[k].ok))
    && (forall k :: k in subs ==> subs[k].alias == subs[k].ok.trackAlias)
  }

  /** A handler whose offer changes is not listed yet. */
  lemma OfferChanges(s: State, step: Step, t: TaskId)
    requires Enabled(s, step) && Offer(NextHistory(s, step), t) != Offer(s.history, t)
    ensures Serving(s.tasks, t) && (s.tasks[t].pc.CheckExisting? || s.tasks[t].pc.Upstream?)
  {
    hide Copied, FindPublisher, HasOtherFilter;
  }

  lemma RemoveKeepsOffers(subs: map<Track, Subscription>, h: History, tables: Tables, id: SessionId)
    requires tables.subs == subs && OffersOk(subs, h)
    ensures OffersOk(Remove(tables, id).subs, HistoryAfterRemove(h, subs, Remove(tables, id).subs))
  {
  }

  /** The entries after a step of a handler: as before, or with one more request on the list of its
      track, which it was offered. */
  lemma EntriesAfter(s: State, step: Step)
    requires Reachable(s) && Enabled(s, step) && !step.Connect? && !step.Disconnect?
    ensures var subs, subs' := s.tables.subs, NextTables(s, step).subs;
            var h, h' := s.history, NextHistory(s, step);
            || (subs' == subs && h'.creator == h.creator)
            || (&& Serving(s.tasks, step.t) && TrackOf(s.tasks[step.t]) in subs'
                && var k := TrackOf(s.tasks[step.t]);
                && subs' == subs[k := subs'[k]]
                && Offer(h', step.t) == Some(subs'[k].ok)
                && (k in subs ==> subs'[k].ok == subs[k].ok && subs'[k].alias == subs[k].alias && h'.creator == h.creator)
                && (k !in subs ==> subs'[k].alias == subs'[k].ok.trackAlias && h'.creator == h.creator[k := step.t])
                && forall x :: x in subs'[k].subscribers ==>
                     x.request == step.t || (k in subs && x in subs[k].subscribers))
  {
    hide Copied, FindPublisher, HasOtherFilter;
    if step.Acquire? && Serving(s.tasks, step.t) && s.tasks[step.t].pc.Record? {
      VacantHolds(s, step.t);
      ChecksHold(s, step.t);
    }
  }

  lemma OffersKept(s: State, step: Step)
    requires Reachable(s) && OffersOk(s.tables.subs, s.history) && Enabled(s, step)
    ensures OffersOk(NextTables(s, step).subs, NextHistory(s, step))
  {
    if step.Connect? {
    } else if step.Disconnect? {
      RemoveKeepsOffers(s.tables.subs, s.history, s.tables, step.id);
    } else {
      EntriesAfter(s, step);
      hide NextTables, NextHistory, Offer;
      forall k | k in s.tables.subs
        ensures k in s.history.creator &&
                Offer(NextHistory(s, step), s.history.creator[k]) == Offer(s.history, s.history.creator[k])
      {
        OfferOfCreatorStays(s, step, k);
      }
      forall k, x | k in s.tables.subs && x in s.tables.subs[k].subscribers
        ensures Offer(NextHistory(s, step), x.request) == Offer(s.history, x.request)
      {
        OfferOfListedStays(s, step, k, x);
      }
    }
  }

  lemma OfferOfCreatorStays(s: State, step: Step, k: Track)
    requires Reachable(s) && Enabled(s, step) && k in s.tables.subs
    ensures k in s.history.creator &&
            Offer(NextHistory(s, step), s.history.creator[k]) == Offer(s.history, s.history.creator[k])
  {
    hide NextHistory, Offer;
    CreatorHolds(s, k);
    var c := s.history.creator[k];
    if Offer(NextHistory(s, step), c) != Offer(s.history, c) {
      OfferChanges(s, step, c);
    }
  }

  lemma OfferOfListedStays(s: State, step: Step, k: Track, x: Subscriber)
    requires Reachable(s) && Enabled(s, step) && k in s.tables.subs && x in s.tables.subs[k].subscribers
    ensures Offer(NextHistory(s, step), x.request) == Offer(s.history, x.request)
  {
    hide NextHistory, Offer;
    ListHolds(s, k, x);
    if Offer(NextHistory(s, step), x.request) != Offer(s.history, x.request) {
      OfferChanges(s, step, x.request);
    }
  }

  lemma {:induction false} OffersAlongRun(s: State, steps: seq<Step>)
    requires Reachable(s) && OffersOk(s.tables.subs, s.history) && Feasible(s, steps)
    ensures OffersOk(Exec(s, steps).tables.subs, Exec(s, steps).history)
    decreases |steps|
  {
    if steps != [] {
      OffersKept(s, steps[0]);
      OneStepRun(s, steps[0]);
      OffersAlongRun(Apply(s, steps[0]), steps[1..]);
    }
  }

  lemma OffersHold(s: State)
    requires Reachable(s)
    ensures OffersOk(s.tables.subs, s.history)
  {
    var steps :| Feasible(INIT, steps) && s == Exec(INIT, steps);
    assert Feasible(INIT, []) && Exec(INIT, []) == INIT;
    OffersAlongRun(INIT, steps);
  }

  /** A handler with such an offer answers nobody and never waits for or forwards PUBLISH_DONE. */
  lemma BadOfferIsMute(s: State, t: TaskId)
    requires Reachable(s) && Serving(s.tasks, t) && HasBadOffer(s.history, t)
    ensures Answers(Sent(s.sent, t)) == []
    ensures !s.tasks[t].pc.AwaitDone? && !s.tasks[t].pc.WantSnapshot?
    ensures forall r: RequestId :: t !in Notifiers(Sent(s.sent, r))
  {
    hide HasOtherFilter, IsUtf8, HasUnsupportedFilter;
    ChecksHold(s, t);
    AnswerHolds(s, t);
    forall r: RequestId ensures t !in Notifiers(Sent(s.sent, r)) {
      DonesHold(s, t, r);
    }
  }

  /** While an entry has a SUBSCRIBE_OK with a filter other than NextGroupStart, every request on its
      list, however late it joined, is without an answer, and the handler that recorded it neither
      waits for PUBLISH_DONE nor has forwarded it to anyone. */
  lemma UnencodableEntry(s: State, k: Track)
    requires Reachable(s) && k in s.tables.subs && HasOtherFilter(s.tables.subs[k].ok.parameters)
    ensures forall x :: x in s.tables.subs[k].subscribers ==>
              Serving(s.tasks, x.request) && Answers(Sent(s.sent, x.request)) == []
    ensures k in s.history.creator
    ensures var c := s.history.creator[k];
            && Serving(s.tasks, c) && !s.tasks[c].pc.AwaitDone? && !s.tasks[c].pc.WantSnapshot?
            && forall r: RequestId :: c !in Notifiers(Sent(s.sent, r))
  {
    hide HasOtherFilter;
    OffersHold(s);
    CreatorHolds(s, k);
    BadOfferIsMute(s, s.history.creator[k]);
    forall x | x in s.tables.subs[k].subscribers
      ensures Serving(s.tasks, x.request) && Answers(Sent(s.sent, x.request)) == []
    {
      ListHolds(s, k, x);
      BadOfferIsMute(s, x.request);
    }
  }

  // ----- what the responses say -----

  /** SUBSCRIBE_OK is the one that the handler was offered, REQUEST_ERROR names the check that failed, and
      PUBLISH_DONE is the one that its forwarder got. */
  predicate SaysRight(h: History, msg: SubscribeMessage, r: RequestId, x: Response) {
    match x
    case Accepted(ok) => Offer(h, r) == Some(ok)
    case Refused(code) => code == (if HasUnsupportedFilter(msg) then ERROR_NOT_SUPPORTED else ERROR_DOES_NOT_EXIST)
    case Done(t, done) => Got(h, t) == Some(done)
  }

  function Got(h: History, t: TaskId): Option<PublishDoneMessage> {
    if t in h.received then Some(h.received[t]) else None
  }

  /** What a handler is about to say. */
  predicate MeansRight(msg: SubscribeMessage, pc: Pc, got: Option<PublishDoneMessage>) {
    match pc
    case Start => true
    case RejectWait => HasUnsupportedFilter(msg)
    case RejectWrite => HasUnsupportedFilter(msg)
    case WantSnapshot(done) => got == Some(done)
    case NotifyWait(done, _, _) => got == Some(done)
    case NotifyWrite(done, _, _) => got == Some(done)
    case Finished(Notified(done, _)) => got == Some(done)
    case Finished(_) => true
    case _ => !HasUnsupportedFilter(msg)
  }

  ghost predicate ContentsOk(s: State) {
    && (forall r, x :: Serving(s.tasks, r) && x in Sent(s.sent, r) ==> SaysRight(s.history, s.tasks[r].msg, r, x))
    && (forall t :: Serving(s.tasks, t) ==> MeansRight(s.tasks[t].msg, s.tasks[t].pc, Got(s.history, t)))
  }

  lemma {:induction false} InAnswers(rs: seq<Response>, x: Response)
    requires x in rs && !x.Done?
    ensures x in Answers(rs)
  {
    if x != rs[|rs| - 1] {
      InAnswers(rs[..|rs| - 1], x);
    }
  }

  lemma InNotifiers(rs: seq<Response>, x: Response)
    requires x in rs && x.Done?
    ensures x.forwarder in Notifiers(rs)
  {
    var i :| 0 <= i < |rs| && rs[i] == x;
  }

  lemma GotChanges(s: State, step: Step, t: TaskId)
    requires Enabled(s, step)
    ensures Got(NextHistory(s, step), t) ==
            if step.DoneReceived? && step.t == t then Some(step.publishDone) else Got(s.history, t)
  {
    hide Copied, FindPublisher, HasOtherFilter;
  }

  /** What has been said stays right. */
  lemma StaysRight(s: State, step: Step, r: RequestId, x: Response)
    requires Reachable(s) && Enabled(s, step) && Serving(s.tasks, r) && x in Sent(s.sent, r)
    requires SaysRight(s.history, s.tasks[r].msg, r, x)
    ensures SaysRight(NextHistory(s, step), s.tasks[r].msg, r, x)
  {
    hide NextHistory, Offer, Got, HasUnsupportedFilter;
    match x
    case Accepted(ok) =>
      if Offer(NextHistory(s, step), r) != Offer(s.history, r) {
        OfferChanges(s, step, r);
        InAnswers(Sent(s.sent, r), x);
        AnswerHolds(s, r);
      }
    case Refused(_) =>
    case Done(t, _) =>
      GotChanges(s, step, t);
      InNotifiers(Sent(s.sent, r), x);
      DonesHold(s, t, r);
  }

  lemma MeansRightStep(s: State, step: Step)
    requires Enabled(s, step) && !step.Connect? && !step.Disconnect? && !step.Arrive?
    requires Serving(s.tasks, step.t)
    requires MeansRight(s.tasks[step.t].msg, s.tasks[step.t].pc, Got(s.history, step.t))
    ensures var task := NextTask(s, step);
            task.Serve? && MeansRight(task.msg, task.pc, Got(NextHistory(s, step), step.t))
  {
    GotChanges(s, step, step.t);
    hide HasUnsupportedFilter, HasOtherFilter, IsUtf8, FindPublisher, Requests, NextHistory, Got, ListsMatches, Targets;
  }

  /** What is said now is right. */
  lemma UtteredIsRight(s: State, step: Step)
    requires Reachable(s) && Enabled(s, step) && Uttered(s, step).Some?
    requires Serving(s.tasks, step.t) && MeansRight(s.tasks[step.t].msg, s.tasks[step.t].pc, Got(s.history, step.t))
    ensures var (r, x) := Uttered(s, step).value;
            Serving(s.tasks, r) && SaysRight(NextHistory(s, step), s.tasks[r].msg, r, x)
  {
    ChecksHold(s, step.t);
    TodoHolds(s, step.t);
    GotChanges(s, step, step.t);
    if Offer(NextHistory(s, step), step.t) != Offer(s.history, step.t) {
      OfferChanges(s, step, step.t);
    }
    hide NextHistory, Offer, Got, HasUnsupportedFilter, HasOtherFilter, IsUtf8;
    var task := s.tasks[step.t];
    if task.pc.NotifyWait? {
      assert task.pc.todo[task.pc.next] in task.pc.todo;
    }
  }

  lemma ContentsKept(s: State, step: Step)
    requires Reachable(s) && ContentsOk(s) && Enabled(s, step)
    ensures ContentsOk(Apply(s, step))
  {
    hide SaysRight, MeansRight, NextHistory, NextTables, Uttered, Got, NextTask, NextSent;
    var s' := Apply(s, step);
    IdentityKept(s, step);
    SentAfter(s, step);
    if Uttered(s, step).Some? {
      UtteranceTask(s, step);
      UtteredIsRight(s, step);
    }
    forall r, x | Serving(s'.tasks, r) && x in Sent(s'.sent, r)
      ensures SaysRight(s'.history, s'.tasks[r].msg, r, x)
    {
      SentToServed(s, step, r, x);
      if x in Sent(s.sent, r) {
        StaysRight(s, step, r, x);
      }
    }
    forall t | Serving(s'.tasks, t) ensures MeansRight(s'.tasks[t].msg, s'.tasks[t].pc, Got(s'.history, t)) {
      OneMeansRight(s, step, t);
    }
  }

  lemma UtteranceTask(s: State, step: Step)
    requires Enabled(s, step) && Uttered(s, step).Some?
    ensures Serving(s.tasks, step.t)
  {
  }

  lemma SentToServed(s: State, step: Step, r: RequestId, x: Response)
    requires Reachable(s) && Enabled(s, step) && x in Sent(Apply(s, step).sent, r)
    ensures (Serving(s.tasks, r) && x in Sent(s.sent, r)) || Uttered(s, step) == Some((r, x))
  {
    hide NextHistory, NextTables, Uttered, NextTask, NextSent;
    SentAfter(s, step);
    AnswerHolds(s, r);
  }

  lemma OneMeansRight(s: State, step: Step, t: TaskId)
    requires ContentsOk(s) && Enabled(s, step) && Serving(Apply(s, step).tasks, t)
    ensures MeansRight(Apply(s, step).tasks[t].msg, Apply(s, step).tasks[t].pc, Got(Apply(s, step).history, t))
  {
    hide SaysRight, Got, NextHistory, NextTables, NextSent, HasUnsupportedFilter, HasOtherFilter;
    GotChanges(s, step, t);
    if !step.Connect? && !step.Disconnect? && !step.Arrive? && step.t == t && Serving(s.tasks, t) {
      MeansRightStep(s, step);
    }
  }

  lemma {:induction false} ContentsAlongRun(s: State, steps: seq<Step>)
    requires Reachable(s) && ContentsOk(s) && Feasible(s, steps)
    ensures ContentsOk(Exec(s, steps))
    decreases |steps|
  {
    hide ContentsOk;
    if steps != [] {
      ContentsKept(s, steps[0]);
      OneStepRun(s, steps[0]);
      ContentsAlongRun(Apply(s, steps[0]), steps[1..]);
    }
  }

  /** Every response on the stream of a request says what it should. */
  lemma ResponsesSayRight(s: State, r: RequestId, x: Response)
    requires Reachable(s) && Serving(s.tasks, r) && x in Sent(s.sent, r)
    ensures x.Accepted? ==> r in s.history.offered && x.ok == s.history.offered[r]
    ensures x.Refused? ==>
              x.code == if HasUnsupportedFilter(s.tasks[r].msg) then ERROR_NOT_SUPPORTED else ERROR_DOES_NOT_EXIST
    ensures x.Done? ==> x.forwarder in s.history.received && x.done == s.history.received[x.forwarder]
  {
    var steps :| Feasible(INIT, steps) && s == Exec(INIT, steps);
    assert Feasible(INIT, []) && Exec(INIT, []) == INIT;
    ContentsAlongRun(INIT, steps);
  }

  /** Whoever is listed for a track was answered with the SUBSCRIBE_OK of its entry, if at all, whose alias is
      the one under which the publisher's data streams are looked up. */
  lemma AnswerMatchesEntry(s: State, k: Track, x: Subscriber, a: Response)
    requires Reachable(s) && k in s.tables.subs && x in s.tables.subs[k].subscribers
    requires a in Answers(Sent(s.sent, x.request))
    ensures a == Accepted(s.tables.subs[k].ok) && s.tables.subs[k].ok.trackAlias == s.tables.subs[k].alias
    ensures (s.tables.subs[k].publisher, s.tables.subs[k].alias, k) in s.history.granted
  {
    ListHolds(s, k, x);
    RefusedIsNeverListed(s, x.request, k, x);
    AnswersAreSent(Sent(s.sent, x.request), a);
    ResponsesSayRight(s, x.request, a);
    OffersHold(s);
    AliasHolds(s, k);
  }

  lemma {:induction false} AnswersAreSent(rs: seq<Response>, a: Response)
    requires a in Answers(rs)
    ensures a in rs
  {
    if a !in Answers(rs[..|rs| - 1]) {
      assert a == rs[|rs| - 1];
    } else {
      AnswersAreSent(rs[..|rs| - 1], a);
    }
  }

  // ----- no PUBLISH_DONE -----

  /** Once the handler `c` has taken its snapshot, a request that is not in it never gets PUBLISH_DONE
      from `c`; what it does get comes from other handlers of its track whose entry is the current one
      or was deleted. */
  lemma JoinerAfterSnapshot(s: State, steps: seq<Step>, c: TaskId, r: RequestId)
    requires Reachable(s) && Feasible(s, steps) && Serving(s.tasks, c)
    requires TodoOf(s.tasks[c].pc).Some? && r !in TodoOf(s.tasks[c].pc).value
    ensures var s' := Exec(s, steps);
            c !in Notifiers(Sent(s'.sent, r)) &&
            forall t :: t in Notifiers(Sent(s'.sent, r)) ==>
              && Serving(s'.tasks, t) && Serving(s'.tasks, r)
              && TrackOf(s'.tasks[t]) == TrackOf(s'.tasks[r])
              && (t in s'.history.deleted || Current(s'.history, t, TrackOf(s'.tasks[t])))
  {
    var s' := Exec(s, steps);
    StaysReachable(s, steps);
    SnapshotIsKept(s, steps, c);
    DonesHold(s', c, r);
    NotifiedWithinTodo(s'.tasks[c].pc, r);
    forall t | t in Notifiers(Sent(s'.sent, r))
      ensures Serving(s'.tasks, t) && Serving(s'.tasks, r) && TrackOf(s'.tasks[t]) == TrackOf(s'.tasks[r])
      ensures t in s'.history.deleted || Current(s'.history, t, TrackOf(s'.tasks[t]))
    {
      NotifierFate(s', t, r);
    }
  }

  lemma NotifiedWithinTodo(pc: Pc, r: RequestId)
    requires TodoOf(pc).Some?
    ensures r in NotifiedBy(pc) ==> r in TodoOf(pc).value
  {
  }

  /** `NotifiedIffListed` is the exact law of one handler, and by `JoinerAfterSnapshot` the others that can
      tell a request are few. What is left when there are none: a request that joined after the snapshot
      of its entry's handler is sent no PUBLISH_DONE, however the run goes on, as long as that entry stays
      and no other entry of the track has been deleted. */
  lemma JoinerIsStranded(s: State, steps: seq<Step>, c: TaskId, r: RequestId)
    requires Reachable(s) && Feasible(s, steps) && Serving(s.tasks, c) && Serving(s.tasks, r)
    requires TodoOf(s.tasks[c].pc).Some? && r !in TodoOf(s.tasks[c].pc).value
    requires TrackOf(s.tasks[r]) == TrackOf(s.tasks[c])
    requires var s' := Exec(s, steps);
             Current(s'.history, c, TrackOf(s.tasks[c])) &&
             forall t :: t in s'.history.deleted && Serving(s'.tasks, t) ==> TrackOf(s'.tasks[t]) != TrackOf(s.tasks[c])
    ensures DoneCount(Sent(Exec(s, steps).sent, r)) == 0
  {
    var s' := Exec(s, steps);
    StaysReachable(s, steps);
    JoinerAfterSnapshot(s, steps, c, r);
    MessagesStay(s, steps, r);
    DonesHold(s', r, r);
    DoneCountIsNotifiers(Sent(s'.sent, r));
  }

  /** The exact law of forwarding: a handler that has finished sent PUBLISH_DONE to precisely those
      requests that were listed at the moment it took its snapshot, whatever joined or left since. */
  lemma NotifiedIffListed(s: State, c: TaskId, steps: seq<Step>, r: RequestId)
    requires Reachable(s) && Serving(s.tasks, c) && s.tasks[c].pc.WantSnapshot? && Enabled(s, Acquire(c))
    requires Feasible(Apply(s, Acquire(c)), steps)
    requires var end := Exec(Apply(s, Acquire(c)), steps); Serving(end.tasks, c) && end.tasks[c].pc.Finished?
    ensures var end := Exec(Apply(s, Acquire(c)), steps);
            c in Notifiers(Sent(end.sent, r)) <==>
            exists x :: IsListed(s.tables.subs, TrackOf(s.tasks[c]), x) && x.request == r
  {
    hide Requests, NextTables, NextSent, NextHistory, Regrant;
    var s1 := Apply(s, Acquire(c));
    OneStepRun(s, Acquire(c));
    SnapshotIsSubscriberList(s, c);
    RequestsAreListed(s.tables, TrackOf(s.tasks[c]), r);
    SnapshotIsKept(s1, steps, c);
    StaysReachable(s1, steps);
    DoneReachesSnapshot(Exec(s1, steps), c, r);
  }

  lemma RequestsAreListed(tables: Tables, k: Track, r: RequestId)
    ensures r in Requests(tables, k) <==> exists x :: IsListed(tables.subs, k, x) && x.request == r
  {
    if k in tables.subs {
      var xs := tables.subs[k].subscribers;
      if r in Requests(tables, k) {
        var i :| 0 <= i < |xs| && Requests(tables, k)[i] == r;
        assert IsListed(tables.subs, k, xs[i]);
      }
      forall x | x in xs && x.request == r ensures r in Requests(tables, k) {
        var i :| 0 <= i < |xs| && xs[i] == x;
        assert Requests(tables, k)[i] == r;
      }
    }
  }

  /** A handler whose SUBSCRIBE_OK could not be written never forwards PUBLISH_DONE to anyone. */
  lemma FailedAnswerIsMute(s: State, t: TaskId, steps: seq<Step>, r: RequestId)
    requires Reachable(s) && Serving(s.tasks, t) && s.tasks[t].pc.ForwardWrite?
    requires Enabled(s, Written(t, false)) && Feasible(Apply(s, Written(t, false)), steps)
    ensures t !in Notifiers(Sent(Exec(Apply(s, Written(t, false)), steps).sent, r))
  {
    hide NextTables, NextSent, NextHistory, Regrant;
    var s1 := Apply(s, Written(t, false));
    OneStepRun(s, Written(t, false));
    FinishedStays(s1, steps, t);
    StaysReachable(s1, steps);
    DonesHold(Exec(s1, steps), t, r);
  }

  lemma {:induction false} FinishedStays(s: State, steps: seq<Step>, t: TaskId)
    requires Feasible(s, steps) && Serving(s.tasks, t) && s.tasks[t].pc.Finished?
    ensures Serving(Exec(s, steps).tasks, t) && Exec(s, steps).tasks[t] == s.tasks[t]
    decreases |steps|
  {
    if steps != [] {
      FinishedStep(s, steps[0], t);
      FinishedStays(Apply(s, steps[0]), steps[1..], t);
    }
  }

  lemma FinishedStep(s: State, step: Step, t: TaskId)
    requires Enabled(s, step) && Serving(s.tasks, t) && s.tasks[t].pc.Finished?
    ensures Serving(Apply(s, step).tasks, t) && Apply(s, step).tasks[t] == s.tasks[t]
  {
    hide NextTables, NextSent, NextHistory, Regrant;
  }

  /** A handler keeps its message. */
  lemma {:induction false} MessagesStay(s: State, steps: seq<Step>, t: TaskId)
    requires Feasible(s, steps) && Serving(s.tasks, t)
    ensures Serving(Exec(s, steps).tasks, t) && TrackOf(Exec(s, steps).tasks[t]) == TrackOf(s.tasks[t])
    decreases |steps|
  {
    if steps != [] {
      MessageStays(s, steps[0], t);
      MessagesStay(Apply(s, steps[0]), steps[1..], t);
    }
  }

  lemma MessageStays(s: State, step: Step, t: TaskId)
    requires Enabled(s, step) && Serving(s.tasks, t)
    ensures Serving(Apply(s, step).tasks, t) && TrackOf(Apply(s, step).tasks[t]) == TrackOf(s.tasks[t])
  {
    hide Check, AfterAcquire, AfterWrite, NextTables, NextSent, NextHistory;
  }
}
