/** What every step of the relay keeps. */
module RelayInvariants {
  import opened Words
  import opened Codec
  import opened Wire
  import opened RelayTables
  import opened RelaySystem
  import opened Utf8

  // ----- phases of handle_subscribe -----

  /** The request has been pushed onto a subscriber list. */
  predicate Listed(pc: Pc) {
    || pc.AggregateWait? || pc.AggregateWrite? || pc.ForwardWait? || pc.ForwardWrite? || pc.AwaitDone?
    || pc.WantSnapshot? || pc.NotifyWait? || pc.NotifyWrite?
    || (pc.Finished? && (pc.outcome.Served? || pc.outcome.Notified? || pc.outcome.Unencodable?))
  }

  predicate InFlight(pc: Pc) { pc.Upstream? || pc.Record? }

  /** Past the point where only the task that asked the publisher gets. */
  predicate PastRecord(pc: Pc) {
    || pc.ForwardWait? || pc.ForwardWrite? || pc.AwaitDone? || pc.WantSnapshot? || pc.NotifyWait?
    || pc.NotifyWrite? || (pc.Finished? && pc.outcome.Notified?)
  }

  /** Between finding the track vacant and recording the entry. */
  predicate FoundVacant(pc: Pc) {
    pc.WantPublisher? || pc.NoPublisherWait? || pc.NoPublisherWrite? || InFlight(pc)
  }

  // ----- A. locks -----

  ghost predicate LocksOk(tasks: map<TaskId, Task>, owner: map<Lock, TaskId>) {
    && (forall l :: l in owner ==> owner[l] in tasks)
    && (forall t, l :: t in tasks ==> (l in Held(t, tasks[t]) <==> l in owner && owner[l] == t))
  }

  lemma SetTaskKeepsLocks(tasks: map<TaskId, Task>, owner: map<Lock, TaskId>, t: TaskId, task: Task)
    requires LocksOk(tasks, owner)
    requires forall l :: l in Held(t, task) && l in owner ==> owner[l] == t
    ensures LocksOk(tasks[t := task], Regrant(owner, t, Held(t, task)))
  {
    hide Held;
    var held := Held(t, task);
    var owner' := Regrant(owner, t, held);
    forall u, l | u in tasks && u != t ensures l in Held(u, tasks[u]) <==> l in owner' && owner'[l] == u {
      assert l in Held(u, tasks[u]) <==> l in owner && owner[l] == u;
    }
    assert forall l :: l in held <==> l in owner' && owner'[l] == t;
  }

  /** A step takes at most the lock that it awaited. */
  lemma TakesOnlyWanted(s: State, step: Step)
    requires Enabled(s, step) && !step.Connect? && !step.Disconnect?
    ensures var old_ := if step.t in s.tasks then Held(step.t, s.tasks[step.t]) else {};
            && Held(step.t, NextTask(s, step)) <=
                 old_ + (if step.Acquire? then {Wanted(step.t, s.tasks[step.t]).value} else {})
  {
  }

  lemma LocksKept(s: State, step: Step)
    requires LocksOk(s.tasks, s.owner) && Enabled(s, step)
    ensures LocksOk(Apply(s, step).tasks, Apply(s, step).owner)
  {
    if !step.Connect? && !step.Disconnect? {
      TakesOnlyWanted(s, step);
      SetTaskKeepsLocks(s.tasks, s.owner, step.t, NextTask(s, step));
    }
  }

  // ----- B. every ID was issued by register_session -----

  predicate TaskIds(task: Task, next: nat) {
    && task.session < next
    && (task.Serve? && task.pc.Upstream? ==> task.pc.publisher < next)
    && (task.Serve? && task.pc.Record? ==> task.pc.publisher < next)
  }

  ghost predicate TableIds(tables: Tables) {
    && (forall id :: id in tables.sessions ==> id < tables.next)
    && (forall n :: n in tables.owners ==> tables.owners[n] < tables.next)
    && (forall k :: k in tables.subs ==> tables.subs[k].publisher < tables.next)
    && (forall k, x :: k in tables.subs && x in tables.subs[k].subscribers ==> x.session < tables.next)
  }

  ghost predicate IdsOk(tables: Tables, tasks: map<TaskId, Task>) {
    && TableIds(tables)
    && (forall t :: t in tasks ==> TaskIds(tasks[t], tables.next))
  }

  lemma NextTaskIds(s: State, step: Step)
    requires IdsOk(s.tables, s.tasks) && Enabled(s, step) && !step.Connect? && !step.Disconnect?
    ensures TaskIds(NextTask(s, step), s.tables.next)
  {
  }

  lemma RemoveKeepsIds(tables: Tables, id: SessionId)
    requires TableIds(tables)
    ensures TableIds(Remove(tables, id)) && Remove(tables, id).next == tables.next
  {
  }

  lemma AcquireKeepsIds(tables: Tables, t: TaskId, task: Task)
    requires TableIds(tables) && TaskIds(task, tables.next)
    ensures TableIds(TablesAfterAcquire(tables, t, task)) && TablesAfterAcquire(tables, t, task).next == tables.next
  {
  }

  lemma IdsKept(s: State, step: Step)
    requires IdsOk(s.tables, s.tasks) && Enabled(s, step)
    ensures IdsOk(Apply(s, step).tables, Apply(s, step).tasks)
  {
    match step
    case Connect =>
    case Disconnect(id) => RemoveKeepsIds(s.tables, id);
    case Acquire(t) =>
      AcquireKeepsIds(s.tables, t, s.tasks[t]);
      NextTaskIds(s, step);
    case _ => NextTaskIds(s, step);
  }

  // ----- C. entries and the tasks they name -----

  ghost predicate Distinct(xs: seq<Subscriber>) {
    forall i, j :: 0 <= i < j < |xs| ==> xs[i].request != xs[j].request
  }

  /** The subscriber `x` of track `k` stands for a request that was pushed by its own task. */
  predicate EntryOk(tasks: map<TaskId, Task>, k: Track, x: Subscriber) {
    && Serving(tasks, x.request)
    && tasks[x.request].session == x.session && TrackOf(tasks[x.request]) == k
    && Listed(tasks[x.request].pc)
  }

  ghost predicate ListOk(tasks: map<TaskId, Task>, k: Track, xs: seq<Subscriber>) {
    && xs != [] && Distinct(xs)
    && forall x :: x in xs ==> EntryOk(tasks, k, x)
  }

  ghost predicate ListsOk(tasks: map<TaskId, Task>, subs: map<Track, Subscription>) {
    forall k :: k in subs ==> ListOk(tasks, k, subs[k].subscribers)
  }

  lemma {:induction false} WithoutSessionDistinct(xs: seq<Subscriber>, id: SessionId)
    requires Distinct(xs)
    ensures Distinct(WithoutSession(xs, id))
  {
    if xs != [] {
      var ys := xs[..|xs| - 1];
      var x := xs[|xs| - 1];
      WithoutSessionDistinct(ys, id);
      forall y | y in WithoutSession(ys, id) ensures y.request != x.request {
        var i :| 0 <= i < |ys| && ys[i] == y;
        assert xs[i].request != xs[|xs| - 1].request;
      }
    }
  }

  lemma RemoveKeepsLists(tasks: map<TaskId, Task>, tables: Tables, id: SessionId)
    requires ListsOk(tasks, tables.subs)
    ensures ListsOk(tasks, Remove(tables, id).subs)
  {
    forall k | k in Remove(tables, id).subs
      ensures ListOk(tasks, k, Remove(tables, id).subs[k].subscribers)
    {
      assert ListOk(tasks, k, tables.subs[k].subscribers);
      WithoutSessionDistinct(tables.subs[k].subscribers, id);
    }
  }

  /** A handler never leaves the listed phase, and never changes what identifies it. */
  lemma StaysListed(s: State, step: Step)
    requires Enabled(s, step) && !step.Connect? && !step.Disconnect?
    requires Serving(s.tasks, step.t)
    ensures NextTask(s, step).Serve?
    ensures NextTask(s, step).session == s.tasks[step.t].session && NextTask(s, step).msg == s.tasks[step.t].msg
    ensures Listed(s.tasks[step.t].pc) ==> Listed(NextTask(s, step).pc)
    ensures Listed(NextTask(s, step).pc) && !Listed(s.tasks[step.t].pc) ==>
              step.Acquire? && ((s.tasks[step.t].pc.CheckExisting? && TrackOf(s.tasks[step.t]) in s.tables.subs) || s.tasks[step.t].pc.Record?)
  {
  }

  lemma ProgressKeepsLists(s: State, step: Step)
    requires ListsOk(s.tasks, s.tables.subs) && Enabled(s, step) && !step.Connect? && !step.Disconnect?
    ensures ListsOk(s.tasks[step.t := NextTask(s, step)], s.tables.subs)
  {
    if Serving(s.tasks, step.t) {
      StaysListed(s, step);
    }
    var tasks := s.tasks[step.t := NextTask(s, step)];
    forall k | k in s.tables.subs ensures ListOk(tasks, k, s.tables.subs[k].subscribers) {
      forall x | x in s.tables.subs[k].subscribers ensures EntryOk(tasks, k, x) {
        assert EntryOk(s.tasks, k, x);
      }
    }
  }

  /** A request that is not listed yet is in no list. */
  lemma PushKeepsList(tasks: map<TaskId, Task>, tasks': map<TaskId, Task>, k: Track, xs: seq<Subscriber>, t: TaskId)
    requires xs != [] ==> ListOk(tasks, k, xs) && ListOk(tasks', k, xs)
    requires Serving(tasks, t) && !Listed(tasks[t].pc)
    requires Serving(tasks', t) && EntryOk(tasks', k, Subscriber(tasks'[t].session, t))
    ensures ListOk(tasks', k, xs + [Subscriber(tasks'[t].session, t)])
  {
    forall x | x in xs ensures x.request != t {
      assert EntryOk(tasks, k, x);
    }
  }

  lemma ListsKept(s: State, step: Step)
    requires ListsOk(s.tasks, s.tables.subs) && Enabled(s, step)
    ensures ListsOk(Apply(s, step).tasks, Apply(s, step).tables.subs)
  {
    match step
    case Connect =>
    case Disconnect(id) => RemoveKeepsLists(s.tasks, s.tables, id);
    case Acquire(t) =>
      ProgressKeepsLists(s, step);
      if s.tasks[t].Serve? {
        AcquireKeepsLists(s, t);
      }
    case _ => ProgressKeepsLists(s, step);
  }

  lemma AcquireKeepsLists(s: State, t: TaskId)
    requires ListsOk(s.tasks, s.tables.subs) && Enabled(s, Acquire(t)) && s.tasks[t].Serve?
    requires ListsOk(s.tasks[t := NextTask(s, Acquire(t))], s.tables.subs)
    ensures ListsOk(s.tasks[t := NextTask(s, Acquire(t))], TablesAfterAcquire(s.tables, t, s.tasks[t]).subs)
  {
    var task := s.tasks[t];
    var k := TrackOf(task);
    var tasks := s.tasks[t := NextTask(s, Acquire(t))];
    if task.pc.CheckExisting? && k in s.tables.subs {
      PushKeepsList(s.tasks, tasks, k, s.tables.subs[k].subscribers, t);
    } else if task.pc.Record? {
      var xs := if k in s.tables.subs then s.tables.subs[k].subscribers else [];
      PushKeepsList(s.tasks, tasks, k, xs, t);
      assert [] + [Subscriber(task.session, t)] == [Subscriber(task.session, t)];
    }
  }

  // ----- D. the per-track lock keeps the track vacant -----

  ghost predicate VacantOk(tasks: map<TaskId, Task>, subs: map<Track, Subscription>) {
    forall t :: Serving(tasks, t) && FoundVacant(tasks[t].pc) ==> TrackOf(tasks[t]) !in subs
  }

  lemma FoundVacantHoldsTrack(t: TaskId, task: Task)
    requires task.Serve? && FoundVacant(task.pc)
    ensures TrackLock(TrackOf(task)) in Held(t, task)
  {
  }

  lemma StaysVacant(s: State, step: Step)
    requires Enabled(s, step) && !step.Connect? && !step.Disconnect?
    requires VacantOk(s.tasks, s.tables.subs)
    ensures VacantOk(s.tasks[step.t := NextTask(s, step)], s.tables.subs)
  {
  }

  lemma SubsKeysAfter(tables: Tables, t: TaskId, task: Task)
    ensures var subs := TablesAfterAcquire(tables, t, task).subs;
            subs.Keys == tables.subs.Keys + (if task.Serve? && task.pc.Record? then {TrackOf(task)} else {})
  {
  }

  lemma VacantKept(s: State, step: Step)
    requires VacantOk(s.tasks, s.tables.subs) && LocksOk(s.tasks, s.owner) && Enabled(s, step)
    ensures VacantOk(Apply(s, step).tasks, Apply(s, step).tables.subs)
  {
    if !step.Connect? && !step.Disconnect? {
      StaysVacant(s, step);
      if step.Acquire? {
        RecordingIsAlone(s, step.t);
        SubsKeysAfter(s.tables, step.t, s.tasks[step.t]);
      }
    }
  }

  /** While one task records an entry for a track, no other task has found that track vacant. */
  lemma RecordingIsAlone(s: State, t: TaskId)
    requires LocksOk(s.tasks, s.owner) && t in s.tasks
    requires Enabled(s, Acquire(t))
    ensures s.tasks[t].Serve? && s.tasks[t].pc.Record? ==>
              forall u :: Serving(s.tasks[t := NextTask(s, Acquire(t))], u) && FoundVacant(s.tasks[t := NextTask(s, Acquire(t))][u].pc) ==>
                u != t && TrackOf(s.tasks[u]) != TrackOf(s.tasks[t])
  {
    if s.tasks[t].Serve? && s.tasks[t].pc.Record? {
      FoundVacantHoldsTrack(t, s.tasks[t]);
      forall u | u != t && Serving(s.tasks, u) && FoundVacant(s.tasks[u].pc)
        ensures TrackOf(s.tasks[u]) != TrackOf(s.tasks[t])
      {
        FoundVacantHoldsTrack(u, s.tasks[u]);
        assert s.owner[TrackLock(TrackOf(s.tasks[u]))] == u;
        assert s.owner[TrackLock(TrackOf(s.tasks[t]))] == t;
      }
    }
  }

  // ----- E. the fate of every upstream SUBSCRIBE -----

  predicate Current(h: History, t: TaskId, k: Track) { k in h.creator && h.creator[k] == t }

  /** In flight, failed, recorded and current, or recorded and deleted: exactly one of these. */
  predicate FateOk(pc: Pc, failed: bool, deleted: bool, current: bool) {
    if InFlight(pc) then !failed && !deleted && !current
    else if failed then pc == Finished(Unanswered) && !deleted && !current
    else Listed(pc) && (deleted <==> !current)
  }

  predicate AskedOk(pc: Pc, asked: bool) {
    && (InFlight(pc) || PastRecord(pc) ==> asked)
    && (asked ==> InFlight(pc) || PastRecord(pc) || (pc.Finished? && !pc.outcome.Rejected?))
  }

  ghost predicate FatesOk(tasks: map<TaskId, Task>, h: History) {
    && (forall t :: t in h.upstream ==>
          && Serving(tasks, t)
          && FateOk(tasks[t].pc, t in h.failed, t in h.deleted, Current(h, t, TrackOf(tasks[t]))))
    && (forall t :: Serving(tasks, t) ==> AskedOk(tasks[t].pc, t in h.upstream))
  }

  ghost predicate CreatorsOk(tasks: map<TaskId, Task>, subs: map<Track, Subscription>, h: History) {
    && h.creator.Keys == subs.Keys
    && (forall k :: k in h.creator ==>
          h.creator[k] in h.upstream && Serving(tasks, h.creator[k]) && TrackOf(tasks[h.creator[k]]) == k)
    && h.failed <= h.upstream && h.deleted <= h.upstream
  }

  /** What the history says after a lock is granted, part by part. */
  lemma AcquireHistory(h: History, tables: Tables, t: TaskId, task: Task)
    ensures var h' := HistoryAfterAcquire(h, tables, t, task);
            && h'.failed == h.failed && h'.deleted == h.deleted && h'.granted == h.granted && h'.received == h.received
            && h'.upstream == (if task.Serve? && task.pc.WantPublisher? && FindPublisher(tables, TrackOf(task).namespace).Some?
                               then h.upstream + {t} else h.upstream)
            && h'.creator == (if task.Serve? && task.pc.Record? then h.creator[TrackOf(task) := t] else h.creator)
            && h'.offered == (if task.Serve? && task.pc.CheckExisting? && TrackOf(task) in tables.subs
                              then h.offered[t := tables.subs[TrackOf(task)].ok] else h.offered)
  {
    hide Copied, FindPublisher;
  }

  /** How one step of a handler may move its phase. */
  lemma PhaseStep(s: State, step: Step)
    requires Enabled(s, step) && !step.Connect? && !step.Disconnect? && !step.Arrive?
    requires Serving(s.tasks, step.t)
    ensures var pc, pc', h, h', t := s.tasks[step.t].pc, NextTask(s, step).pc, s.history, NextHistory(s, step), step.t;
            && h'.deleted == h.deleted
            && (if pc.WantPublisher? && InFlight(pc') then
                  h'.upstream == h.upstream + {t} && h'.failed == h.failed && h'.creator == h.creator
                else if step.Refusal? then
                  h'.upstream == h.upstream && h'.failed == h.failed + {t} && h'.creator == h.creator
                  && InFlight(pc) && pc' == Finished(Unanswered)
                else if step.Acquire? && pc.Record? then
                  h'.upstream == h.upstream && h'.failed == h.failed && h'.creator == h.creator[TrackOf(s.tasks[t]) := t]
                  && pc'.ForwardWait?
                else
                  && h'.upstream == h.upstream && h'.failed == h.failed && h'.creator == h.creator
                  && (InFlight(pc') <==> InFlight(pc)) && (Listed(pc) ==> Listed(pc'))
                  && (PastRecord(pc') ==> PastRecord(pc))
                  && (PastRecord(pc) ==> PastRecord(pc') || pc' == Finished(Served) || pc' == Finished(Unencodable))
                  && (pc.Finished? ==> pc' == pc))
  {
    hide HistoryAfterAcquire, FindPublisher, Requests, HasOtherFilter, IsUtf8, ListsMatches, Targets;
    if step.Acquire? {
      AcquireHistory(s.history, s.tables, step.t, s.tasks[step.t]);
    }
  }

  ghost predicate SameIdentity(tasks: map<TaskId, Task>, tasks': map<TaskId, Task>) {
    forall u :: Serving(tasks, u) ==>
      Serving(tasks', u) && tasks'[u].session == tasks[u].session && tasks'[u].msg == tasks[u].msg
  }

  lemma ReplaceKeepsIdentity(tasks: map<TaskId, Task>, t: TaskId, task: Task)
    requires Serving(tasks, t) ==> task.Serve? && task.session == tasks[t].session && task.msg == tasks[t].msg
    ensures SameIdentity(tasks, tasks[t := task])
  {
  }

  lemma IdentityKept(s: State, step: Step)
    requires Enabled(s, step)
    ensures SameIdentity(s.tasks, Apply(s, step).tasks)
  {
    if !step.Connect? && !step.Disconnect? {
      if Serving(s.tasks, step.t) {
        StaysListed(s, step);
      }
      ReplaceKeepsIdentity(s.tasks, step.t, NextTask(s, step));
    }
  }

  lemma CreatorsFrame(tasks: map<TaskId, Task>, tasks': map<TaskId, Task>, subs: map<Track, Subscription>,
                      subs': map<Track, Subscription>, h: History, h': History)
    requires CreatorsOk(tasks, subs, h) && SameIdentity(tasks, tasks')
    requires h'.creator == h.creator && subs'.Keys == subs.Keys
    requires h.upstream <= h'.upstream && h'.failed <= h'.upstream && h'.deleted == h.deleted
    ensures CreatorsOk(tasks', subs', h')
  {
  }

  lemma CreatorsRecord(tasks: map<TaskId, Task>, tasks': map<TaskId, Task>, subs: map<Track, Subscription>,
                       subs': map<Track, Subscription>, h: History, h': History, t: TaskId)
    requires CreatorsOk(tasks, subs, h) && SameIdentity(tasks, tasks') && Serving(tasks, t) && t in h.upstream
    requires h'.creator == h.creator[TrackOf(tasks[t]) := t] && subs'.Keys == subs.Keys + {TrackOf(tasks[t])}
    requires h.upstream == h'.upstream && h'.failed == h.failed && h'.deleted == h.deleted
    ensures CreatorsOk(tasks', subs', h')
  {
  }

  lemma RemoveKeepsCreators(tasks: map<TaskId, Task>, before: map<Track, Subscription>, after: map<Track, Subscription>, h: History)
    requires CreatorsOk(tasks, before, h) && after.Keys <= before.Keys
    ensures CreatorsOk(tasks, after, HistoryAfterRemove(h, before, after))
  {
  }

  lemma HistoryOfOthers(s: State, step: Step)
    requires Enabled(s, step) && !step.Disconnect?
    requires !step.Connect? && !step.Arrive? ==> !Serving(s.tasks, step.t)
    ensures var h, h' := s.history, NextHistory(s, step);
            h'.creator == h.creator && h'.upstream == h.upstream && h'.failed == h.failed && h'.deleted == h.deleted && h'.granted == h.granted
    ensures NextTables(s, step).subs == s.tables.subs
  {
  }

  lemma HandlerKeepsCreators(s: State, step: Step, tasks: map<TaskId, Task>)
    requires CreatorsOk(s.tasks, s.tables.subs, s.history) && FatesOk(s.tasks, s.history) && Enabled(s, step)
    requires !step.Connect? && !step.Disconnect? && !step.Arrive? && Serving(s.tasks, step.t)
    requires SameIdentity(s.tasks, tasks)
    ensures CreatorsOk(tasks, NextTables(s, step).subs, NextHistory(s, step))
  {
    hide NextHistory, NextTask, TablesAfterAcquire, Listed, PastRecord;
    PhaseStep(s, step);
    if step.Acquire? {
      SubsKeysAfter(s.tables, step.t, s.tasks[step.t]);
    }
    var subs, h := NextTables(s, step).subs, NextHistory(s, step);
    if step.Acquire? && s.tasks[step.t].pc.Record? {
      CreatorsRecord(s.tasks, tasks, s.tables.subs, subs, s.history, h, step.t);
    } else {
      CreatorsFrame(s.tasks, tasks, s.tables.subs, subs, s.history, h);
    }
  }

  lemma CreatorsKept(s: State, step: Step)
    requires CreatorsOk(s.tasks, s.tables.subs, s.history) && FatesOk(s.tasks, s.history) && Enabled(s, step)
    ensures CreatorsOk(Apply(s, step).tasks, Apply(s, step).tables.subs, Apply(s, step).history)
  {
    var s' := Apply(s, step);
    if step.Disconnect? {
      RemoveKeepsCreators(s.tasks, s.tables.subs, Remove(s.tables, step.id).subs, s.history);
    } else {
      IdentityKept(s, step);
      if !step.Connect? && !step.Arrive? && Serving(s.tasks, step.t) {
        HandlerKeepsCreators(s, step, s'.tasks);
      } else {
        HistoryOfOthers(s, step);
        CreatorsFrame(s.tasks, s'.tasks, s.tables.subs, s'.tables.subs, s.history, s'.history);
      }
    }
  }

  lemma RemoveKeepsFates(tasks: map<TaskId, Task>, h: History, before: map<Track, Subscription>, after: map<Track, Subscription>)
    requires CreatorsOk(tasks, before, h) && FatesOk(tasks, h)
    ensures FatesOk(tasks, HistoryAfterRemove(h, before, after))
  {
    var h' := HistoryAfterRemove(h, before, after);
    forall t | t in h.upstream
      ensures FateOk(tasks[t].pc, t in h'.failed, t in h'.deleted, Current(h', t, TrackOf(tasks[t])))
    {
      var k := TrackOf(tasks[t]);
      if t in h'.deleted && t !in h.deleted {
        var d :| d in before && d !in after && d in h.creator && h.creator[d] == t;
        assert d == k;
      }
    }
  }

  lemma OwnFate(s: State, step: Step)
    requires CreatorsOk(s.tasks, s.tables.subs, s.history) && FatesOk(s.tasks, s.history) && Enabled(s, step)
    requires VacantOk(s.tasks, s.tables.subs)
    requires !step.Connect? && !step.Disconnect? && !step.Arrive? && Serving(s.tasks, step.t)
    requires step.t in NextHistory(s, step).upstream
    ensures var h := NextHistory(s, step);
            FateOk(NextTask(s, step).pc, step.t in h.failed, step.t in h.deleted, Current(h, step.t, TrackOf(s.tasks[step.t])))
  {
    PhaseStep(s, step);
  }

  lemma OtherFate(s: State, step: Step, u: TaskId)
    requires CreatorsOk(s.tasks, s.tables.subs, s.history) && FatesOk(s.tasks, s.history) && Enabled(s, step)
    requires VacantOk(s.tasks, s.tables.subs)
    requires !step.Connect? && !step.Disconnect? && !step.Arrive? && Serving(s.tasks, step.t)
    requires u != step.t && u in NextHistory(s, step).upstream
    ensures var h := NextHistory(s, step);
            && u in s.history.upstream && Serving(s.tasks, u)
            && (u in h.failed <==> u in s.history.failed) && (u in h.deleted <==> u in s.history.deleted)
            && (Current(h, u, TrackOf(s.tasks[u])) <==> Current(s.history, u, TrackOf(s.tasks[u])))
  {
    hide NextHistory, NextTables, NextTask, FateOk, Listed, PastRecord;
    PhaseStep(s, step);
  }

  lemma FatesKept(s: State, step: Step)
    requires CreatorsOk(s.tasks, s.tables.subs, s.history) && FatesOk(s.tasks, s.history) && Enabled(s, step)
    requires VacantOk(s.tasks, s.tables.subs)
    ensures FatesOk(Apply(s, step).tasks, Apply(s, step).history)
  {
    hide NextTask, NextSent, FateOk, AskedOk, Regrant, CreatorsOk, VacantOk;
    if step.Disconnect? {
      RemoveKeepsFates(s.tasks, s.history, s.tables.subs, Remove(s.tables, step.id).subs);
    } else if !step.Connect? && !step.Arrive? && Serving(s.tasks, step.t) {
      HandlerKeepsFates(s, step);
    } else {
      OthersKeepFates(s, step);
    }
  }

  lemma OthersKeepFates(s: State, step: Step)
    requires FatesOk(s.tasks, s.history) && Enabled(s, step) && !step.Disconnect?
    requires !step.Connect? && !step.Arrive? ==> !Serving(s.tasks, step.t)
    ensures FatesOk(Apply(s, step).tasks, Apply(s, step).history)
  {
    hide NextHistory, NextTables, NextSent, FateOk, Regrant;
    HistoryOfOthers(s, step);
  }

  lemma HandlerKeepsFates(s: State, step: Step)
    requires CreatorsOk(s.tasks, s.tables.subs, s.history) && FatesOk(s.tasks, s.history) && Enabled(s, step)
    requires VacantOk(s.tasks, s.tables.subs)
    requires !step.Connect? && !step.Disconnect? && !step.Arrive? && Serving(s.tasks, step.t)
    ensures FatesOk(s.tasks[step.t := NextTask(s, step)], NextHistory(s, step))
  {
    StaysListed(s, step);
    var tasks := s.tasks[step.t := NextTask(s, step)];
    var h := NextHistory(s, step);
    forall u | u in h.upstream
      ensures Serving(tasks, u) && FateOk(tasks[u].pc, u in h.failed, u in h.deleted, Current(h, u, TrackOf(tasks[u])))
    {
      if u == step.t {
        OwnFate(s, step);
      } else {
        OtherFate(s, step, u);
      }
    }
    forall u | Serving(tasks, u) ensures AskedOk(tasks[u].pc, u in h.upstream) {
      if u == step.t {
        OwnAsking(s, step);
      } else {
        OtherAsking(s, step, u);
      }
    }
  }

  lemma OwnAsking(s: State, step: Step)
    requires FatesOk(s.tasks, s.history) && Enabled(s, step)
    requires !step.Connect? && !step.Disconnect? && !step.Arrive? && Serving(s.tasks, step.t)
    ensures AskedOk(NextTask(s, step).pc, step.t in NextHistory(s, step).upstream)
  {
    PhaseStep(s, step);
  }

  lemma OtherAsking(s: State, step: Step, u: TaskId)
    requires Enabled(s, step)
    requires !step.Connect? && !step.Disconnect? && !step.Arrive? && Serving(s.tasks, step.t)
    requires u != step.t
    ensures u in NextHistory(s, step).upstream <==> u in s.history.upstream
  {
    PhaseStep(s, step);
  }

  // ----- F. what is written on the request streams -----

  /** The SUBSCRIBE_OK and REQUEST_ERROR responses among `rs`. */
  function Answers(rs: seq<Response>): seq<Response> {
    if rs == [] then []
    else Answers(rs[..|rs| - 1]) + (if rs[|rs| - 1].Done? then [] else [rs[|rs| - 1]])
  }

  /** The tasks that forwarded a PUBLISH_DONE. */
  function Notifiers(rs: seq<Response>): set<TaskId> {
    set i | 0 <= i < |rs| && rs[i].Done? :: rs[i].forwarder
  }

  ghost predicate DonesDistinct(rs: seq<Response>) {
    forall i, j :: 0 <= i < j < |rs| && rs[i].Done? && rs[j].Done? ==> rs[i].forwarder != rs[j].forwarder
  }

  predicate AnswersOk(pc: Pc, rs: seq<Response>) {
    match pc
    case RejectWrite => |rs| == 1 && rs[0].Refused?
    case NoPublisherWrite => |rs| == 1 && rs[0].Refused?
    case AggregateWrite => |rs| == 1 && rs[0].Accepted?
    case ForwardWrite => |rs| == 1 && rs[0].Accepted?
    case AwaitDone => |rs| == 1 && rs[0].Accepted?
    case WantSnapshot(_) => |rs| == 1 && rs[0].Accepted?
    case NotifyWait(_, _, _) => |rs| == 1 && rs[0].Accepted?
    case NotifyWrite(_, _, _) => |rs| == 1 && rs[0].Accepted?
    case Finished(outcome) =>
      if outcome.Rejected? then |rs| == 1 && rs[0].Refused?
      else if outcome.Unanswered? || outcome.Unencodable? then rs == []
      else |rs| == 1 && rs[0].Accepted?
    case _ => rs == []
  }

  /** The requests to which the task has forwarded PUBLISH_DONE. */
  function NotifiedBy(pc: Pc): seq<RequestId> {
    match pc
    case NotifyWait(_, todo, next) => if next <= |todo| then todo[..next] else todo
    case NotifyWrite(_, todo, next) => if next < |todo| then todo[..next + 1] else todo
    case Finished(Notified(_, todo)) => todo
    case _ => []
  }

  /** The snapshot that the task works through. */
  function TodoOf(pc: Pc): Option<seq<RequestId>> {
    match pc
    case NotifyWait(_, todo, _) => Some(todo)
    case NotifyWrite(_, todo, _) => Some(todo)
    case Finished(Notified(_, todo)) => Some(todo)
    case _ => None
  }

  predicate NextInRange(pc: Pc) {
    && (pc.NotifyWait? ==> pc.next < |pc.todo|)
    && (pc.NotifyWrite? ==> pc.next < |pc.todo|)
  }

  ghost predicate TodoOk(tasks: map<TaskId, Task>, k: Track, pc: Pc) {
    && NextInRange(pc)
    && (TodoOf(pc).Some? ==>
          var todo := TodoOf(pc).value;
          && (forall i, j :: 0 <= i < j < |todo| ==> todo[i] != todo[j])
          && (forall r :: r in todo ==> Serving(tasks, r) && TrackOf(tasks[r]) == k && Listed(tasks[r].pc)))
  }

  ghost predicate TodosOk(tasks: map<TaskId, Task>) {
    forall t :: Serving(tasks, t) ==> TodoOk(tasks, TrackOf(tasks[t]), tasks[t].pc)
  }

  ghost predicate AnswersAllOk(tasks: map<TaskId, Task>, sent: map<RequestId, seq<Response>>) {
    && (forall r :: Serving(tasks, r) ==> AnswersOk(tasks[r].pc, Answers(Sent(sent, r))))
    && (forall r :: r in sent ==> Serving(tasks, r))
  }

  ghost predicate DonesOk(tasks: map<TaskId, Task>, sent: map<RequestId, seq<Response>>) {
    && (forall r :: DonesDistinct(Sent(sent, r)))
    && (forall t, r :: t in Notifiers(Sent(sent, r)) <==> Serving(tasks, t) && r in NotifiedBy(tasks[t].pc))
  }

  lemma AppendResponse(rs: seq<Response>, x: Response)
    ensures Answers(rs + [x]) == Answers(rs) + (if x.Done? then [] else [x])
    ensures Notifiers(rs + [x]) == Notifiers(rs) + (if x.Done? then {x.forwarder} else {})
    ensures DonesDistinct(rs) && (x.Done? ==> x.forwarder !in Notifiers(rs)) ==> DonesDistinct(rs + [x])
  {
    var ys := rs + [x];
    assert ys[..|rs|] == rs;
    assert Notifiers(ys) == Notifiers(rs) + (if x.Done? then {x.forwarder} else {}) by {
      forall t | t in Notifiers(rs) ensures t in Notifiers(ys) {
        var i :| 0 <= i < |rs| && rs[i].Done? && rs[i].forwarder == t;
        assert ys[i] == rs[i];
      }
      assert ys[|rs|] == x;
    }
  }

  /** The write that a step begins, if any. */
  function Uttered(s: State, step: Step): Option<(RequestId, Response)>
    requires Enabled(s, step)
  {
    if step.Acquire? then Utterance(step.t, s.tasks[step.t]) else None
  }

  lemma AnswerStep(s: State, step: Step, rs: seq<Response>)
    requires Enabled(s, step) && !step.Connect? && !step.Disconnect? && !step.Arrive?
    requires Serving(s.tasks, step.t) && NextInRange(s.tasks[step.t].pc)
    requires AnswersOk(s.tasks[step.t].pc, rs)
    ensures match Uttered(s, step)
            case None => AnswersOk(NextTask(s, step).pc, rs)
            case Some((r, x)) =>
              AnswersOk(NextTask(s, step).pc, if x.Done? then rs else rs + [x]) && (!x.Done? ==> r == step.t)
  {
  }

  lemma UtteranceIsServed(s: State, step: Step)
    requires Enabled(s, step) && TodosOk(s.tasks)
    requires Uttered(s, step).Some?
    ensures Serving(s.tasks, step.t) && Serving(s.tasks, Uttered(s, step).value.0)
  {
    var task := s.tasks[step.t];
    if task.pc.NotifyWait? {
      assert TodoOk(s.tasks, TrackOf(task), task.pc);
      assert task.pc.todo[task.pc.next] in task.pc.todo;
    }
  }

  lemma AnswersKept(s: State, step: Step)
    requires AnswersAllOk(s.tasks, s.sent) && TodosOk(s.tasks) && Enabled(s, step)
    ensures AnswersAllOk(Apply(s, step).tasks, Apply(s, step).sent)
  {
    IdentityKept(s, step);
    if !step.Connect? && !step.Disconnect? {
      var tasks, sent := s.tasks[step.t := NextTask(s, step)], NextSent(s, step);
      if Uttered(s, step).Some? {
        UtteranceIsServed(s, step);
        AppendResponse(Sent(s.sent, Uttered(s, step).value.0), Uttered(s, step).value.1);
      }
      forall r | Serving(tasks, r) ensures AnswersOk(tasks[r].pc, Answers(Sent(sent, r))) {
        OneAnswerKept(s, step, r);
      }
    }
  }

  lemma SentAfter(s: State, step: Step)
    requires Enabled(s, step)
    ensures match Uttered(s, step)
            case None => NextSent(s, step) == s.sent
            case Some((q, x)) => NextSent(s, step) == s.sent[q := Sent(s.sent, q) + [x]] && (x.Done? ==> x.forwarder == step.t)
  {
  }

  lemma AnswersAfter(s: State, step: Step, r: RequestId)
    requires Enabled(s, step)
    ensures Answers(Sent(NextSent(s, step), r)) ==
            Answers(Sent(s.sent, r)) +
            (if Uttered(s, step).Some? && Uttered(s, step).value.0 == r && !SaysDone(s, step, r) then [Uttered(s, step).value.1] else [])
  {
    hide Utterance, NextSent;
    SentAfter(s, step);
    if Uttered(s, step).Some? {
      var (q, x) := Uttered(s, step).value;
      AppendResponse(Sent(s.sent, q), x);
    }
  }

  lemma OneAnswerKept(s: State, step: Step, r: RequestId)
    requires AnswersAllOk(s.tasks, s.sent) && TodosOk(s.tasks) && Enabled(s, step)
    requires !step.Connect? && !step.Disconnect?
    requires Serving(s.tasks[step.t := NextTask(s, step)], r)
    ensures AnswersOk(s.tasks[step.t := NextTask(s, step)][r].pc, Answers(Sent(NextSent(s, step), r)))
  {
    AnswersAfter(s, step, r);
    if !step.Arrive? && Serving(s.tasks, step.t) {
      assert TodoOk(s.tasks, TrackOf(s.tasks[step.t]), s.tasks[step.t].pc);
      AnswerStep(s, step, Answers(Sent(s.sent, step.t)));
    }
  }

  lemma NotifiedStep(s: State, step: Step, r: RequestId)
    requires Enabled(s, step) && !step.Connect? && !step.Disconnect? && !step.Arrive?
    requires Serving(s.tasks, step.t) && NextInRange(s.tasks[step.t].pc)
    ensures r in NotifiedBy(NextTask(s, step).pc) <==>
            r in NotifiedBy(s.tasks[step.t].pc) || SaysDone(s, step, r)
  {
    var pc := s.tasks[step.t].pc;
    if pc.NotifyWrite? {
      assert pc.next + 1 == |pc.todo| ==> pc.todo[..pc.next + 1] == pc.todo;
    }
  }

  lemma DonesKept(s: State, step: Step)
    requires DonesOk(s.tasks, s.sent) && TodosOk(s.tasks) && Enabled(s, step)
    ensures DonesOk(Apply(s, step).tasks, Apply(s, step).sent)
  {
    if !step.Connect? && !step.Disconnect? {
      var tasks, sent := s.tasks[step.t := NextTask(s, step)], NextSent(s, step);
      forall r ensures DonesDistinct(Sent(sent, r)) {
        OneStreamDistinct(s, step, r);
      }
      forall t: TaskId, r: RequestId
        ensures t in Notifiers(Sent(sent, r)) <==> Serving(tasks, t) && r in NotifiedBy(tasks[t].pc)
      {
        OneNotifierKept(s, step, t, r);
      }
    }
  }

  lemma OneStreamDistinct(s: State, step: Step, r: RequestId)
    requires DonesOk(s.tasks, s.sent) && TodosOk(s.tasks) && Enabled(s, step)
    ensures DonesDistinct(Sent(NextSent(s, step), r))
  {
    assert DonesDistinct(Sent(s.sent, r));
    if Uttered(s, step).Some? {
      var (q, x) := Uttered(s, step).value;
      assert DonesDistinct(Sent(s.sent, q));
      AppendResponse(Sent(s.sent, q), x);
      var pc := s.tasks[step.t].pc;
      assert TodoOk(s.tasks, TrackOf(s.tasks[step.t]), pc);
      if x.Done? {
        assert q == pc.todo[pc.next] && q !in NotifiedBy(pc);
        assert step.t !in Notifiers(Sent(s.sent, q));
      }
    }
  }

  predicate SaysDone(s: State, step: Step, r: RequestId)
    requires Enabled(s, step)
  {
    Uttered(s, step).Some? && Uttered(s, step).value.0 == r && Uttered(s, step).value.1.Done?
  }

  lemma NotifiersAfter(s: State, step: Step, r: RequestId)
    requires Enabled(s, step)
    ensures Notifiers(Sent(NextSent(s, step), r)) ==
            Notifiers(Sent(s.sent, r)) + (if SaysDone(s, step, r) then {step.t} else {})
  {
    hide Enabled, Uttered, NextSent, Sent, Notifiers;
    SentAfter(s, step);
    if Uttered(s, step).Some? {
      var (q, x) := Uttered(s, step).value;
      NotifiersOfAppend(s.sent, q, x, r);
    }
  }

  lemma NotifiersOfAppend(sent: map<RequestId, seq<Response>>, q: RequestId, x: Response, r: RequestId)
    ensures Notifiers(Sent(sent[q := Sent(sent, q) + [x]], r)) ==
            Notifiers(Sent(sent, r)) + (if q == r && x.Done? then {x.forwarder} else {})
  {
    AppendResponse(Sent(sent, q), x);
  }

  lemma OneNotifierKept(s: State, step: Step, t: TaskId, r: RequestId)
    requires DonesOk(s.tasks, s.sent) && TodosOk(s.tasks) && Enabled(s, step)
    requires !step.Connect? && !step.Disconnect?
    ensures var tasks := s.tasks[step.t := NextTask(s, step)];
            t in Notifiers(Sent(NextSent(s, step), r)) <==> Serving(tasks, t) && r in NotifiedBy(tasks[t].pc)
  {
    NotifiersAfter(s, step, r);
    assert t in Notifiers(Sent(s.sent, r)) <==> Serving(s.tasks, t) && r in NotifiedBy(s.tasks[t].pc);
    if !step.Arrive? && Serving(s.tasks, step.t) {
      assert TodoOk(s.tasks, TrackOf(s.tasks[step.t]), s.tasks[step.t].pc);
      NotifiedStep(s, step, r);
      StaysListed(s, step);
    }
  }

  lemma TodosKept(s: State, step: Step)
    requires TodosOk(s.tasks) && ListsOk(s.tasks, s.tables.subs) && Enabled(s, step)
    ensures TodosOk(Apply(s, step).tasks)
  {
    if !step.Connect? && !step.Disconnect? {
      var tasks := s.tasks[step.t := NextTask(s, step)];
      forall t | Serving(tasks, t) ensures TodoOk(tasks, TrackOf(tasks[t]), tasks[t].pc) {
        OneTodoKept(s, step, t);
      }
    }
  }

  /** A snapshot, once taken, stays as it is until the task ends. */
  lemma TodoStep(s: State, step: Step)
    requires Enabled(s, step) && !step.Connect? && !step.Disconnect? && !step.Arrive?
    requires Serving(s.tasks, step.t) && NextInRange(s.tasks[step.t].pc)
    ensures var pc, pc' := s.tasks[step.t].pc, NextTask(s, step).pc;
            && NextInRange(pc')
            && (if step.Acquire? && pc.WantSnapshot? then TodoOf(pc') == Some(Requests(s.tables, TrackOf(s.tasks[step.t])))
                else TodoOf(pc') == TodoOf(pc))
  {
  }

  lemma ListedStays(s: State, step: Step, r: RequestId)
    requires Enabled(s, step) && !step.Connect? && !step.Disconnect?
    requires Serving(s.tasks, r) && Listed(s.tasks[r].pc)
    ensures var tasks := s.tasks[step.t := NextTask(s, step)];
            Serving(tasks, r) && TrackOf(tasks[r]) == TrackOf(s.tasks[r]) && Listed(tasks[r].pc)
  {
    if r == step.t {
      StaysListed(s, step);
    }
  }

  lemma SnapshotOk(tasks: map<TaskId, Task>, tables: Tables, k: Track)
    requires ListsOk(tasks, tables.subs)
    ensures var todo := Requests(tables, k);
            && (forall i, j :: 0 <= i < j < |todo| ==> todo[i] != todo[j])
            && (forall r :: r in todo ==> Serving(tasks, r) && TrackOf(tasks[r]) == k && Listed(tasks[r].pc))
  {
    var todo := Requests(tables, k);
    if k in tables.subs {
      var xs := tables.subs[k].subscribers;
      assert ListOk(tasks, k, xs);
      forall r | r in todo ensures Serving(tasks, r) && TrackOf(tasks[r]) == k && Listed(tasks[r].pc) {
        var i :| 0 <= i < |todo| && todo[i] == r;
        assert EntryOk(tasks, k, xs[i]);
      }
    }
  }

  lemma OneTodoKept(s: State, step: Step, t: TaskId)
    requires TodosOk(s.tasks) && ListsOk(s.tasks, s.tables.subs) && Enabled(s, step)
    requires !step.Connect? && !step.Disconnect?
    requires Serving(s.tasks[step.t := NextTask(s, step)], t)
    ensures var tasks := s.tasks[step.t := NextTask(s, step)];
            TodoOk(tasks, TrackOf(tasks[t]), tasks[t].pc)
  {
    if step.Arrive? && t == step.t {
      return;
    }
    var tasks := s.tasks[step.t := NextTask(s, step)];
    assert TodoOk(s.tasks, TrackOf(s.tasks[t]), s.tasks[t].pc);
    if t == step.t {
      TodoStep(s, step);
      StaysListed(s, step);
      SnapshotOk(s.tasks, s.tables, TrackOf(s.tasks[t]));
    }
    forall r | TodoOf(tasks[t].pc).Some? && r in TodoOf(tasks[t].pc).value
      ensures Serving(tasks, r) && TrackOf(tasks[r]) == TrackOf(tasks[t]) && Listed(tasks[r].pc)
    {
      ListedStays(s, step, r);
    }
  }

  // ----- G. aliases -----

  /** Every recorded pair of publisher and alias was assigned by that publisher for that track. */
  ghost predicate AliasesOk(tasks: map<TaskId, Task>, subs: map<Track, Subscription>, h: History) {
    && (forall k :: k in subs ==> (subs[k].publisher, subs[k].alias, k) in h.granted)
    && (forall t :: Serving(tasks, t) && tasks[t].pc.Record? ==>
          (tasks[t].pc.publisher, tasks[t].pc.ok.trackAlias, TrackOf(tasks[t])) in h.granted)
  }

  lemma RecordStep(s: State, step: Step)
    requires Enabled(s, step) && !step.Connect? && !step.Disconnect? && !step.Arrive?
    requires Serving(s.tasks, step.t)
    ensures NextHistory(s, step).granted >= s.history.granted
    ensures NextTask(s, step).Serve? && NextTask(s, step).pc.Record? ==>
              (NextTask(s, step).pc.publisher, NextTask(s, step).pc.ok.trackAlias, TrackOf(s.tasks[step.t])) in NextHistory(s, step).granted
    ensures forall k :: k in NextTables(s, step).subs ==>
              if k in s.tables.subs then
                NextTables(s, step).subs[k].publisher == s.tables.subs[k].publisher && NextTables(s, step).subs[k].alias == s.tables.subs[k].alias
              else
                && step.Acquire? && s.tasks[step.t].pc.Record? && k == TrackOf(s.tasks[step.t])
                && NextTables(s, step).subs[k].publisher == s.tasks[step.t].pc.publisher
                && NextTables(s, step).subs[k].alias == s.tasks[step.t].pc.ok.trackAlias
  {
  }

  lemma HandlerKeepsAliases(s: State, step: Step)
    requires AliasesOk(s.tasks, s.tables.subs, s.history) && Enabled(s, step)
    requires !step.Connect? && !step.Disconnect? && !step.Arrive? && Serving(s.tasks, step.t)
    ensures AliasesOk(s.tasks[step.t := NextTask(s, step)], NextTables(s, step).subs, NextHistory(s, step))
  {
    RecordStep(s, step);
    StaysListed(s, step);
  }

  lemma AliasesKept(s: State, step: Step)
    requires AliasesOk(s.tasks, s.tables.subs, s.history) && Enabled(s, step)
    ensures AliasesOk(Apply(s, step).tasks, Apply(s, step).tables.subs, Apply(s, step).history)
  {
    if !step.Connect? && !step.Disconnect? && !step.Arrive? && Serving(s.tasks, step.t) {
      HandlerKeepsAliases(s, step);
    } else if !step.Disconnect? {
      HistoryOfOthers(s, step);
    }
  }

  // ----- H. references to sessions that are gone -----

  ghost predicate PublishersOk(subs: map<Track, Subscription>, sessions: set<SessionId>, creator: map<Track, TaskId>, late: set<TaskId>) {
    forall k :: k in subs ==> subs[k].publisher in sessions || (k in creator && creator[k] in late)
  }

  ghost predicate SubscribersOk(subs: map<Track, Subscription>, sessions: set<SessionId>, late: set<TaskId>) {
    forall k, x :: k in subs && x in subs[k].subscribers ==> x.session in sessions || x.request in late
  }

  predicate AnnouncedLate(tasks: map<TaskId, Task>, late: set<TaskId>, t: TaskId, n: TrackNamespace, id: SessionId) {
    t in late && t in tasks && tasks[t] == Announce(id, n, true)
  }

  ghost predicate OwnersOk(owners: map<TrackNamespace, SessionId>, sessions: set<SessionId>, tasks: map<TaskId, Task>, late: set<TaskId>) {
    forall n :: n in owners ==> owners[n] in sessions || exists t :: AnnouncedLate(tasks, late, t, n, owners[n])
  }

  ghost predicate ReferencesOk(tables: Tables, tasks: map<TaskId, Task>, h: History) {
    && PublishersOk(tables.subs, tables.sessions, h.creator, h.late)
    && SubscribersOk(tables.subs, tables.sessions, h.late)
    && OwnersOk(tables.owners, tables.sessions, tasks, h.late)
  }

  /** remove_session leaves no reference to the session. */
  lemma RemoveWipes(tables: Tables, id: SessionId)
    ensures var after := Remove(tables, id);
            && id !in after.sessions
            && (forall n :: n in after.owners ==> after.owners[n] != id)
            && (forall k :: k in after.subs ==> after.subs[k].publisher != id)
            && (forall k, x :: k in after.subs && x in after.subs[k].subscribers ==> x.session != id)
  {
  }

  lemma RemoveKeepsReferences(tables: Tables, tasks: map<TaskId, Task>, h: History, id: SessionId)
    requires ReferencesOk(tables, tasks, h)
    ensures ReferencesOk(Remove(tables, id), tasks, HistoryAfterRemove(h, tables.subs, Remove(tables, id).subs))
  {
    RemoveWipes(tables, id);
    var after, h' := Remove(tables, id), HistoryAfterRemove(h, tables.subs, Remove(tables, id).subs);
    assert OwnersOk(after.owners, after.sessions, tasks, h'.late) by {
      forall n | n in after.owners && after.owners[n] !in after.sessions
        ensures exists t :: AnnouncedLate(tasks, h'.late, t, n, after.owners[n])
      {
        assert n in tables.owners && tables.owners[n] !in tables.sessions;
        var t :| AnnouncedLate(tasks, h.late, t, n, tables.owners[n]);
        assert AnnouncedLate(tasks, h'.late, t, n, after.owners[n]);
      }
    }
  }

  lemma LateGrows(s: State, step: Step)
    requires Enabled(s, step)
    ensures s.history.late <= NextHistory(s, step).late
    ensures step.Acquire? && !(Copied(s.tables, s.tasks[step.t]) <= s.tables.sessions) ==> step.t in NextHistory(s, step).late
    ensures !step.Disconnect? ==> NextTables(s, step).sessions >= s.tables.sessions
  {
  }

  lemma OwnersKept(s: State, step: Step)
    requires Enabled(s, step) && !step.Connect? && !step.Disconnect?
    requires OwnersOk(s.tables.owners, s.tables.sessions, s.tasks, s.history.late)
    ensures OwnersOk(NextTables(s, step).owners, NextTables(s, step).sessions, s.tasks[step.t := NextTask(s, step)], NextHistory(s, step).late)
  {
    LateGrows(s, step);
    OwnerStep(s, step);
    var owners, tasks, late := NextTables(s, step).owners, s.tasks[step.t := NextTask(s, step)], NextHistory(s, step).late;
    forall n | n in owners && owners[n] !in NextTables(s, step).sessions
      ensures exists t :: AnnouncedLate(tasks, late, t, n, owners[n])
    {
      if n in s.tables.owners && owners[n] == s.tables.owners[n] {
        var t :| AnnouncedLate(s.tasks, s.history.late, t, n, owners[n]);
        assert AnnouncedLate(tasks, late, t, n, owners[n]);
      } else {
        assert AnnouncedLate(tasks, late, step.t, n, owners[n]);
      }
    }
  }

  lemma OwnerStep(s: State, step: Step)
    requires Enabled(s, step) && !step.Connect? && !step.Disconnect?
    ensures forall n :: n in NextTables(s, step).owners ==>
              || (n in s.tables.owners && NextTables(s, step).owners[n] == s.tables.owners[n])
              || (step.Acquire? && NextTask(s, step) == Announce(NextTables(s, step).owners[n], n, true)
                  && Copied(s.tables, s.tasks[step.t]) == {NextTables(s, step).owners[n]})
    ensures NextTables(s, step).sessions == s.tables.sessions
    ensures !step.Arrive? && s.tasks[step.t].Announce? && s.tasks[step.t].registered ==> NextTask(s, step) == s.tasks[step.t]
  {
  }

  lemma SubscribersKept(s: State, step: Step)
    requires Enabled(s, step) && !step.Connect? && !step.Disconnect?
    requires SubscribersOk(s.tables.subs, s.tables.sessions, s.history.late)
    ensures SubscribersOk(NextTables(s, step).subs, NextTables(s, step).sessions, NextHistory(s, step).late)
  {
    LateGrows(s, step);
    OwnerStep(s, step);
    SubscriberStep(s, step);
  }

  lemma SubscriberStep(s: State, step: Step)
    requires Enabled(s, step) && !step.Connect? && !step.Disconnect?
    ensures forall k, x :: k in NextTables(s, step).subs && x in NextTables(s, step).subs[k].subscribers ==>
              || (k in s.tables.subs && x in s.tables.subs[k].subscribers)
              || (step.Acquire? && x.request == step.t && x.session in Copied(s.tables, s.tasks[step.t]))
  {
    hide FindPublisher, ListsMatches, HasOtherFilter, Held;
    var before, after := s.tables.subs, NextTables(s, step).subs;
    forall k, x | k in after && x in after[k].subscribers && !(k in before && x in before[k].subscribers)
      ensures step.Acquire? && x.request == step.t && x.session in Copied(s.tables, s.tasks[step.t])
    {
      assert x == Subscriber(s.tasks[step.t].session, step.t);
    }
  }

  lemma PublishersKept(s: State, step: Step)
    requires Enabled(s, step) && !step.Connect? && !step.Disconnect?
    requires step.Acquire? && s.tasks[step.t].Serve? && s.tasks[step.t].pc.Record? ==> TrackOf(s.tasks[step.t]) !in s.tables.subs
    requires PublishersOk(s.tables.subs, s.tables.sessions, s.history.creator, s.history.late)
    ensures PublishersOk(NextTables(s, step).subs, NextTables(s, step).sessions, NextHistory(s, step).creator, NextHistory(s, step).late)
  {
    LateGrows(s, step);
    OwnerStep(s, step);
    if !step.Arrive? && Serving(s.tasks, step.t) {
      RecordStep(s, step);
      PhaseStep(s, step);
    } else {
      HistoryOfOthers(s, step);
    }
  }

  lemma ReferencesKept(s: State, step: Step)
    requires ReferencesOk(s.tables, s.tasks, s.history) && VacantOk(s.tasks, s.tables.subs) && Enabled(s, step)
    ensures ReferencesOk(Apply(s, step).tables, Apply(s, step).tasks, Apply(s, step).history)
  {
    if step.Disconnect? {
      RemoveKeepsReferences(s.tables, s.tasks, s.history, step.id);
    } else if !step.Connect? {
      OwnersKept(s, step);
      SubscribersKept(s, step);
      PublishersKept(s, step);
    }
  }

  // ----- all together -----

  ghost predicate Inv(s: State) {
    && LocksOk(s.tasks, s.owner)
    && IdsOk(s.tables, s.tasks)
    && ListsOk(s.tasks, s.tables.subs)
    && VacantOk(s.tasks, s.tables.subs)
    && CreatorsOk(s.tasks, s.tables.subs, s.history)
    && FatesOk(s.tasks, s.history)
    && TodosOk(s.tasks)
    && AnswersAllOk(s.tasks, s.sent)
    && DonesOk(s.tasks, s.sent)
    && AliasesOk(s.tasks, s.tables.subs, s.history)
    && ReferencesOk(s.tables, s.tasks, s.history)
  }

  lemma InvInitially()
    ensures Inv(INIT)
  {
  }

  lemma InvKept(s: State, step: Step)
    requires Inv(s) && Enabled(s, step)
    ensures Inv(Apply(s, step))
  {
    LocksKept(s, step);
    IdsKept(s, step);
    ListsKept(s, step);
    VacantKept(s, step);
    CreatorsKept(s, step);
    FatesKept(s, step);
    TodosKept(s, step);
    AnswersKept(s, step);
    DonesKept(s, step);
    AliasesKept(s, step);
    ReferencesKept(s, step);
  }

  lemma {:induction false} InvAlongRun(s: State, steps: seq<Step>)
    requires Inv(s) && Feasible(s, steps)
    ensures Inv(Exec(s, steps))
    decreases |steps|
  {
    if steps != [] {
      InvKept(s, steps[0]);
      InvAlongRun(Apply(s, steps[0]), steps[1..]);
    }
  }

  lemma InvReachable(s: State)
    requires Reachable(s)
    ensures Inv(s)
  {
    var steps :| Feasible(INIT, steps) && s == Exec(INIT, steps);
    InvInitially();
    InvAlongRun(INIT, steps);
  }

  // ----- the parts, for use one at a time -----

  lemma LocksHold(s: State)
    requires Reachable(s)
    ensures LocksOk(s.tasks, s.owner)
  {
    InvReachable(s);
  }

  lemma IdsHold(s: State)
    requires Reachable(s)
    ensures IdsOk(s.tables, s.tasks)
  {
    InvReachable(s);
  }

  lemma ListHolds(s: State, k: Track, x: Subscriber)
    requires Reachable(s) && k in s.tables.subs && x in s.tables.subs[k].subscribers
    ensures EntryOk(s.tasks, k, x)
  {
    InvReachable(s);
    assert ListOk(s.tasks, k, s.tables.subs[k].subscribers);
  }

  lemma VacantHolds(s: State, t: TaskId)
    requires Reachable(s) && Serving(s.tasks, t) && FoundVacant(s.tasks[t].pc)
    ensures TrackOf(s.tasks[t]) !in s.tables.subs && TrackOf(s.tasks[t]) !in s.history.creator
  {
    InvReachable(s);
  }

  lemma FateHolds(s: State, t: TaskId)
    requires Reachable(s) && t in s.history.upstream
    ensures Serving(s.tasks, t)
    ensures FateOk(s.tasks[t].pc, t in s.history.failed, t in s.history.deleted, Current(s.history, t, TrackOf(s.tasks[t])))
  {
    InvReachable(s);
  }

  lemma CreatorHolds(s: State, k: Track)
    requires Reachable(s) && k in s.tables.subs
    ensures k in s.history.creator
    ensures var c := s.history.creator[k];
            Serving(s.tasks, c) && TrackOf(s.tasks[c]) == k && Listed(s.tasks[c].pc)
  {
    InvReachable(s);
    FateHolds(s, s.history.creator[k]);
  }

  lemma AskedHolds(s: State, t: TaskId)
    requires Reachable(s) && Serving(s.tasks, t)
    ensures AskedOk(s.tasks[t].pc, t in s.history.upstream)
  {
    InvReachable(s);
  }

  lemma TodoHolds(s: State, t: TaskId)
    requires Reachable(s) && Serving(s.tasks, t)
    ensures TodoOk(s.tasks, TrackOf(s.tasks[t]), s.tasks[t].pc)
  {
    InvReachable(s);
  }

  lemma AnswerHolds(s: State, r: RequestId)
    requires Reachable(s)
    ensures if Serving(s.tasks, r) then AnswersOk(s.tasks[r].pc, Answers(Sent(s.sent, r))) else Sent(s.sent, r) == []
  {
    InvReachable(s);
  }

  lemma DonesHold(s: State, t: TaskId, r: RequestId)
    requires Reachable(s)
    ensures DonesDistinct(Sent(s.sent, r))
    ensures t in Notifiers(Sent(s.sent, r)) <==> Serving(s.tasks, t) && r in NotifiedBy(s.tasks[t].pc)
  {
    InvReachable(s);
    assert DonesDistinct(Sent(s.sent, r));
  }

  lemma AliasHolds(s: State, k: Track)
    requires Reachable(s) && k in s.tables.subs
    ensures (s.tables.subs[k].publisher, s.tables.subs[k].alias, k) in s.history.granted
  {
    InvReachable(s);
  }

  lemma ReferencesHold(s: State)
    requires Reachable(s)
    ensures ReferencesOk(s.tables, s.tasks, s.history)
  {
    InvReachable(s);
  }
}
