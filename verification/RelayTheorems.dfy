/** What holds in every reachable state of the relay, and over whole runs. */
module RelayTheorems {
  import opened Words
  import opened Codec
  import opened Wire
  import opened RelayTables
  import opened RelaySystem
  import opened RelayInvariants

  // ----- aggregation -----

  /** Between taking the per-track lock and giving it back. */
  predicate HoldsTrack(task: Task) {
    && task.Serve?
    && (task.pc.CheckExisting? || task.pc.AggregateWait? || task.pc.AggregateWrite? || FoundVacant(task.pc))
  }

  lemma TrackIsHeld(t: TaskId, task: Task)
    requires HoldsTrack(task)
    ensures TrackLock(TrackOf(task)) in Held(t, task)
  {
  }

  lemma OneHolderPerTrack(s: State, t: TaskId, u: TaskId)
    requires Reachable(s)
    requires t in s.tasks && u in s.tasks && HoldsTrack(s.tasks[t]) && HoldsTrack(s.tasks[u])
    requires TrackOf(s.tasks[t]) == TrackOf(s.tasks[u])
    ensures t == u
  {
    LocksHold(s);
    var l := TrackLock(TrackOf(s.tasks[t]));
    TrackIsHeld(t, s.tasks[t]);
    TrackIsHeld(u, s.tasks[u]);
    assert s.owner[l] == t && s.owner[l] == u;
  }

  /** add_subscriber always takes its insertion branch. */
  lemma RecordFindsVacantTrack(s: State, t: TaskId)
    requires Reachable(s) && Serving(s.tasks, t) && s.tasks[t].pc.Record?
    ensures TrackOf(s.tasks[t]) !in s.tables.subs
  {
    VacantHolds(s, t);
  }

  /** When a second SUBSCRIBE for a track goes upstream, every earlier one has failed, or the entry
      it led to has been deleted by remove_session. */
  lemma UpstreamOnlyAfterLoss(s: State, step: Step, t: TaskId, u: TaskId)
    requires Reachable(s) && Enabled(s, step)
    requires t !in s.history.upstream && t in Apply(s, step).history.upstream
    requires Serving(s.tasks, t) && Serving(s.tasks, u) && u in s.history.upstream
    requires TrackOf(s.tasks[t]) == TrackOf(s.tasks[u])
    ensures u in s.history.failed || u in s.history.deleted
  {
    UpstreamComesFromRoute(s, step, t);
    VacantHolds(s, t);
    FateHolds(s, u);
    if InFlight(s.tasks[u].pc) {
      OneHolderPerTrack(s, t, u);
    }
  }

  lemma UpstreamComesFromRoute(s: State, step: Step, t: TaskId)
    requires Enabled(s, step) && t !in s.history.upstream && t in NextHistory(s, step).upstream
    ensures step == Acquire(t) && Serving(s.tasks, t) && s.tasks[t].pc.WantPublisher?
  {
  }

  /** At any moment, at most one SUBSCRIBE per track is pending or established. */
  lemma OneLiveUpstreamPerTrack(s: State, t: TaskId, u: TaskId)
    requires Reachable(s) && t in s.history.upstream && u in s.history.upstream
    requires Serving(s.tasks, t) && Serving(s.tasks, u) && TrackOf(s.tasks[t]) == TrackOf(s.tasks[u])
    requires t !in s.history.failed + s.history.deleted && u !in s.history.failed + s.history.deleted
    ensures t == u
  {
    FateHolds(s, t);
    FateHolds(s, u);
    if InFlight(s.tasks[t].pc) {
      VacantHolds(s, t);
    }
    if InFlight(s.tasks[u].pc) {
      VacantHolds(s, u);
    }
    if InFlight(s.tasks[t].pc) && InFlight(s.tasks[u].pc) {
      OneHolderPerTrack(s, t, u);
    }
  }

  // ----- sessions -----

  lemma {:induction false} RunsConcatenate(s: State, xs: seq<Step>, ys: seq<Step>)
    requires Feasible(s, xs) && Feasible(Exec(s, xs), ys)
    ensures Feasible(s, xs + ys) && Exec(s, xs + ys) == Exec(Exec(s, xs), ys)
    decreases |xs|
  {
    var zs := xs + ys;
    if xs == [] {
      assert zs == ys;
    } else {
      assert zs[0] == xs[0] && zs[1..] == xs[1..] + ys;
      var next := Apply(s, xs[0]);
      assert Feasible(next, xs[1..]) && Exec(s, xs) == Exec(next, xs[1..]);
      RunsConcatenate(next, xs[1..], ys);
      assert Feasible(s, zs) && Exec(s, zs) == Exec(next, zs[1..]);
    }
  }

  lemma OneStepRun(s: State, step: Step)
    requires Reachable(s) && Enabled(s, step)
    ensures Feasible(s, [step]) && Exec(s, [step]) == Apply(s, step) && Reachable(Apply(s, step))
  {
    hide Enabled, Apply;
    var s' := Apply(s, step);
    assert [step][1..] == [];
    assert Feasible(s', []) && Exec(s', []) == s';
    StaysReachable(s, [step]);
  }

  lemma StaysReachable(s: State, steps: seq<Step>)
    requires Reachable(s) && Feasible(s, steps)
    ensures Reachable(Exec(s, steps))
  {
    var xs :| Feasible(INIT, xs) && s == Exec(INIT, xs);
    RunsConcatenate(INIT, xs, steps);
  }

  /** An ID that was issued and is no longer registered never becomes registered again. */
  lemma {:induction false} IdsAreNeverReused(s: State, steps: seq<Step>, id: SessionId)
    requires Feasible(s, steps) && id < s.tables.next && id !in s.tables.sessions
    ensures id < Exec(s, steps).tables.next && id !in Exec(s, steps).tables.sessions
    decreases |steps|
  {
    if steps != [] {
      SessionsStep(s, steps[0]);
      IdsAreNeverReused(Apply(s, steps[0]), steps[1..], id);
    }
  }

  lemma SessionsStep(s: State, step: Step)
    requires Enabled(s, step)
    ensures NextTables(s, step).next >= s.tables.next
    ensures forall id :: id in NextTables(s, step).sessions ==> id in s.tables.sessions || (id == s.tables.next && id < NextTables(s, step).next)
  {
  }

  /** A table refers to a session that is gone only where a task wrote, after the removal, an ID that
      it had captured: `late` names the task. Without such a task every reference is live. */
  lemma DanglingOnlyFromLateWrites(s: State)
    requires Reachable(s)
    ensures forall k, x :: k in s.tables.subs && x in s.tables.subs[k].subscribers && x.session !in s.tables.sessions ==>
              x.request in s.history.late && Serving(s.tasks, x.request) && s.tasks[x.request].session == x.session
    ensures forall k :: k in s.tables.subs && s.tables.subs[k].publisher !in s.tables.sessions ==>
              k in s.history.creator && s.history.creator[k] in s.history.late
    ensures forall n :: n in s.tables.owners && s.tables.owners[n] !in s.tables.sessions ==>
              exists t :: t in s.history.late && t in s.tasks && s.tasks[t] == Announce(s.tables.owners[n], n, true)
    ensures s.history.late == {} ==>
              && (forall k :: k in s.tables.subs ==> s.tables.subs[k].publisher in s.tables.sessions)
              && (forall n :: n in s.tables.owners ==> s.tables.owners[n] in s.tables.sessions)
  {
    ReferencesHold(s);
    forall k, x | k in s.tables.subs && x in s.tables.subs[k].subscribers
      ensures EntryOk(s.tasks, k, x)
    {
      ListHolds(s, k, x);
    }
    forall n | n in s.tables.owners && s.tables.owners[n] !in s.tables.sessions
      ensures exists t :: t in s.history.late && t in s.tasks && s.tasks[t] == Announce(s.tables.owners[n], n, true)
    {
      var t :| AnnouncedLate(s.tasks, s.history.late, t, n, s.tables.owners[n]);
    }
  }

  /** A task enters `late` exactly when it copies into the tables an ID that was issued and has been
      removed. */
  lemma LateMeansAfterRemoval(s: State, step: Step, t: TaskId)
    requires Reachable(s) && Enabled(s, step) && t !in s.history.late
    ensures t in NextHistory(s, step).late <==>
            && step == Acquire(t) && t in s.tasks
            && exists id :: id in Copied(s.tables, s.tasks[t]) && id < s.tables.next && id !in s.tables.sessions
  {
    LateIsAcquire(s, step, t);
    IdsHold(s);
    if t in s.tasks && t in NextHistory(s, step).late {
      assert TaskIds(s.tasks[t], s.tables.next);
      var id :| id in Copied(s.tables, s.tasks[t]) && id !in s.tables.sessions;
      assert id < s.tables.next;
    }
  }

  lemma LateIsAcquire(s: State, step: Step, t: TaskId)
    requires Enabled(s, step) && t !in s.history.late
    ensures t in NextHistory(s, step).late <==>
            step == Acquire(t) && t in s.tasks && !(Copied(s.tables, s.tasks[t]) <= s.tables.sessions)
  {
  }

  /** A handler sends its SUBSCRIBE to the live owner of the longest registered prefix of the namespace.
      It goes on to REQUEST_ERROR if and only if that prefix has no live owner; then a live owner of a
      shorter prefix does not help. */
  lemma RoutesToLongestPrefix(s: State, t: TaskId)
    requires Enabled(s, Acquire(t)) && Serving(s.tasks, t) && s.tasks[t].pc.WantPublisher?
    ensures var n, s' := TrackOf(s.tasks[t]).namespace, Apply(s, Acquire(t));
            && (forall id :: s'.tasks[t].pc == Upstream(id) <==>
                  id in s.tables.sessions && exists p :: IsLongest(s.tables.owners, n, p) && s.tables.owners[p] == id)
            && (s'.tasks[t].pc == NoPublisherWait <==>
                  !exists p :: IsLongest(s.tables.owners, n, p) && s.tables.owners[p] in s.tables.sessions)
            && (s'.tasks[t].pc.Upstream? <==> !s'.tasks[t].pc.NoPublisherWait?)
            && (t !in s.history.upstream ==> (t in s'.history.upstream <==> s'.tasks[t].pc.Upstream?))
  {
    hide FindPublisher;
    var n := TrackOf(s.tasks[t]).namespace;
    forall id: SessionId
      ensures FindPublisher(s.tables, n) == Some(id) <==>
              id in s.tables.sessions && exists p :: IsLongest(s.tables.owners, n, p) && s.tables.owners[p] == id
    {
      RoutesToLiveOwner(s.tables, n, id);
    }
    RoutesNowhere(s.tables, n);
  }

  // ----- deadlock -----

  predicate Blocked(s: State, t: TaskId) {
    t in s.tasks && Wanted(t, s.tasks[t]).Some? && Wanted(t, s.tasks[t]).value in s.owner
  }

  predicate WaitsFor(s: State, t: TaskId, u: TaskId) {
    Blocked(s, t) && s.owner[Wanted(t, s.tasks[t]).value] == u
  }

  /** Every lock held while waiting for another ranks below it; nothing is held while waiting for
      PUBLISH_DONE; and the state lock is held across an `.await` only in the None arm. */
  lemma LockOrder(t: TaskId, task: Task)
    ensures Wanted(t, task).Some? ==> forall l :: l in Held(t, task) ==> Rank(l) < Rank(Wanted(t, task).value)
    ensures task.Serve? && task.pc.AwaitDone? ==> Held(t, task) == {}
    ensures StateLock in Held(t, task) <==> task.Serve? && (task.pc.NoPublisherWait? || task.pc.NoPublisherWrite?)
  {
  }

  function Level(s: State, t: TaskId): nat {
    if t in s.tasks && Wanted(t, s.tasks[t]).Some? then Rank(Wanted(t, s.tasks[t]).value) else 4
  }

  lemma WaitingRaisesLevel(s: State, t: TaskId, u: TaskId)
    requires LocksOk(s.tasks, s.owner) && WaitsFor(s, t, u)
    ensures u in s.tasks && Level(s, t) < Level(s, u) <= 4
  {
    var l := Wanted(t, s.tasks[t]).value;
    assert l in Held(u, s.tasks[u]);
    LockOrder(u, s.tasks[u]);
  }

  ghost predicate IsWaitChain(s: State, path: seq<TaskId>) {
    forall i :: 0 <= i < |path| - 1 ==> WaitsFor(s, path[i], path[i + 1])
  }

  lemma {:induction false} ChainRaisesLevel(s: State, path: seq<TaskId>, i: nat, j: nat)
    requires LocksOk(s.tasks, s.owner) && IsWaitChain(s, path) && i < j < |path|
    ensures Level(s, path[i]) < Level(s, path[j])
    decreases j
  {
    WaitingRaisesLevel(s, path[j - 1], path[j]);
    if i < j - 1 {
      ChainRaisesLevel(s, path, i, j - 1);
    }
  }

  /** The wait-for graph has no cycle, of any length. */
  lemma NoWaitCycle(s: State, path: seq<TaskId>)
    requires Reachable(s) && IsWaitChain(s, path) && |path| >= 2
    ensures path[0] != path[|path| - 1]
  {
    LocksHold(s);
    ChainRaisesLevel(s, path, 0, |path| - 1);
  }

  /** The task that a step moves. */
  predicate Moves(step: Step, t: TaskId) { !step.Connect? && !step.Disconnect? && !step.Arrive? && step.t == t }

  /** Whoever holds a lock and is not blocked can be moved: by the scheduler, by the end of its write,
      or by the publisher. */
  lemma HolderCanMove(s: State, t: TaskId)
    requires t in s.tasks && Held(t, s.tasks[t]) != {} && !Blocked(s, t)
    ensures exists step :: Moves(step, t) && Enabled(s, step)
  {
    var task := s.tasks[t];
    if Wanted(t, task).Some? {
      assert Moves(Acquire(t), t) && Enabled(s, Acquire(t));
    } else if Writing(task.pc) {
      assert Moves(Written(t, true), t) && Enabled(s, Written(t, true));
    } else {
      assert Moves(Refusal(t), t) && Enabled(s, Refusal(t));
    }
  }

  predicate IsDone(task: Task) {
    match task
    case Serve(_, _, pc) => pc.Finished?
    case Announce(_, _, registered) => registered
    case FanOut(_, _, targets) => targets.Some?
  }

  /** Nobody is stuck: in every reachable state, a task that is neither done nor blocked can be moved; and
      where the environment decides, by whatever it decides. */
  lemma NobodyIsStuck(s: State, t: TaskId)
    requires Reachable(s) && t in s.tasks && !IsDone(s.tasks[t]) && !Blocked(s, t)
    ensures exists step :: Moves(step, t) && Enabled(s, step)
    ensures var task := s.tasks[t];
            task.Serve? ==>
              && (Writing(task.pc) ==> forall success :: Enabled(s, Written(t, success)))
              && (task.pc.Upstream? ==> Enabled(s, Refusal(t)) && forall ok :: Enabled(s, Answered(t, ok)))
              && (task.pc.AwaitDone? ==> Enabled(s, DoneLost(t)) && forall done :: Enabled(s, DoneReceived(t, done)))
  {
    var task := s.tasks[t];
    if task.FanOut? {
      var order := MatchesInOrder(s.tables, task.session, task.alias, s.tables.subs.Keys);
      assert Moves(Looked(t, order), t) && Enabled(s, Looked(t, order));
    } else if task.Announce? {
      assert Moves(Acquire(t), t) && Enabled(s, Acquire(t));
    } else {
      HandlerCanMove(s, t);
    }
  }

  lemma HandlerCanMove(s: State, t: TaskId)
    requires Reachable(s) && Serving(s.tasks, t) && !s.tasks[t].pc.Finished? && !Blocked(s, t)
    ensures exists step :: Moves(step, t) && Enabled(s, step)
  {
    TodoHolds(s, t);
    var pc := s.tasks[t].pc;
    if Wanted(t, s.tasks[t]).Some? {
      assert Moves(Acquire(t), t) && Enabled(s, Acquire(t));
    } else if Writing(pc) {
      assert Moves(Written(t, true), t) && Enabled(s, Written(t, true));
    } else if pc.Start? {
      assert Moves(Begin(t), t) && Enabled(s, Begin(t));
    } else if pc.Upstream? {
      assert Moves(Refusal(t), t) && Enabled(s, Refusal(t));
    } else {
      assert Moves(DoneLost(t), t) && Enabled(s, DoneLost(t));
    }
  }

  /** The matching tracks among `ks`, in some order. */
  lemma {:induction false} MatchesInOrder(tables: Tables, p: SessionId, a: u64, ks: set<Track>)
    returns (order: seq<Track>)
    ensures forall k :: k in order <==> k in ks && Matches(tables, k, p, a)
    ensures forall i, j :: 0 <= i < j < |order| ==> order[i] != order[j]
    decreases ks
  {
    order := [];
    if k :| k in ks {
      order := MatchesInOrder(tables, p, a, ks - {k});
      if Matches(tables, k, p, a) {
        order := order + [k];
      }
    }
  }

  /** Deadlock freedom: from every blocked task the waits lead, in at most three hops, to a task that
      holds a lock and can move. */
  lemma {:induction false} NoDeadlock(s: State, t: TaskId) returns (path: seq<TaskId>)
    requires Reachable(s) && Blocked(s, t)
    ensures 2 <= |path| <= 5 - Level(s, t) && path[0] == t && IsWaitChain(s, path)
    ensures exists step :: Moves(step, path[|path| - 1]) && Enabled(s, step)
    decreases 4 - Level(s, t)
  {
    LocksHold(s);
    var u := s.owner[Wanted(t, s.tasks[t]).value];
    WaitingRaisesLevel(s, t, u);
    if Blocked(s, u) {
      var rest := NoDeadlock(s, u);
      path := [t] + rest;
      assert path[1] == u;
      assert path[|path| - 1] == rest[|rest| - 1];
    } else {
      path := [t, u];
      HolderCanMove(s, u);
    }
  }

  // ----- how long entries live -----

  /** The request of `x` is listed for track `k`. */
  predicate IsListed(subs: map<Track, Subscription>, k: Track, x: Subscriber) {
    k in subs && x in subs[k].subscribers
  }

  predicate Removes(step: Step, id: SessionId) { step.Disconnect? && step.id == id }

  lemma ListedStep(s: State, step: Step, k: Track, x: Subscriber)
    requires Reachable(s) && Enabled(s, step) && IsListed(s.tables.subs, k, x)
    ensures var p, subs := s.tables.subs[k].publisher, NextTables(s, step).subs;
            && (IsListed(subs, k, x) <==> !Removes(step, x.session) && !Removes(step, p))
            && (IsListed(subs, k, x) ==> subs[k].publisher == p)
  {
    if step.Disconnect? {
      RemoveEntries(s.tables, step.id, k);
    } else if !step.Connect? && Serving(s.tasks, step.t) && s.tasks[step.t].pc.Record? {
      VacantHolds(s, step.t);
    }
  }

  /** What is listed is listed under the request of a handler that is past listing itself. */
  lemma NewlyListed(s: State, step: Step, k: Track, x: Subscriber)
    requires Reachable(s) && Enabled(s, step)
    requires !IsListed(s.tables.subs, k, x) && IsListed(NextTables(s, step).subs, k, x)
    ensures Serving(s.tasks, x.request) && !Listed(s.tasks[x.request].pc)
  {
    if step.Disconnect? {
      RemoveEntries(s.tables, step.id, k);
    }
  }

  lemma {:induction false} NeverListedAgain(s: State, steps: seq<Step>, k: Track, x: Subscriber)
    requires Reachable(s) && Feasible(s, steps)
    requires Serving(s.tasks, x.request) && Listed(s.tasks[x.request].pc) && !IsListed(s.tables.subs, k, x)
    ensures !IsListed(Exec(s, steps).tables.subs, k, x)
    decreases |steps|
  {
    hide IsListed, NextTables, NextHistory, NextSent, Enabled;
    if steps != [] {
      var step := steps[0];
      if IsListed(NextTables(s, step).subs, k, x) {
        NewlyListed(s, step, k, x);
      }
      StillListed(s, step, x.request);
      OneStepRun(s, step);
      NeverListedAgain(Apply(s, step), steps[1..], k, x);
    }
  }

  lemma StillListed(s: State, step: Step, t: TaskId)
    requires Enabled(s, step) && Serving(s.tasks, t) && Listed(s.tasks[t].pc)
    ensures Serving(Apply(s, step).tasks, t) && Listed(Apply(s, step).tasks[t].pc)
  {
    hide Listed, NextTask, NextTables, NextHistory, NextSent;
    if !step.Connect? && !step.Disconnect? && !step.Arrive? && step.t == t {
      StaysListed(s, step);
    }
  }

  /** Over every run, a listed request stays listed, for the same publisher, until its own session or the
      publisher is removed, and from then on it never is again. */
  lemma {:induction false} ListedUntilRemoved(s: State, steps: seq<Step>, k: Track, x: Subscriber)
    requires Reachable(s) && Feasible(s, steps) && IsListed(s.tables.subs, k, x)
    ensures var p, subs := s.tables.subs[k].publisher, Exec(s, steps).tables.subs;
            && (IsListed(subs, k, x) <==>
                  forall i :: 0 <= i < |steps| ==> !Removes(steps[i], x.session) && !Removes(steps[i], p))
            && (IsListed(subs, k, x) ==> subs[k].publisher == p)
    decreases |steps|
  {
    hide NextTables, NextHistory, NextSent, Enabled;
    if steps != [] {
      var step := steps[0];
      ListHolds(s, k, x);
      ListedStep(s, step, k, x);
      StillListed(s, step, x.request);
      OneStepRun(s, step);
      var next, more := Apply(s, step), steps[1..];
      if IsListed(next.tables.subs, k, x) {
        ListedUntilRemoved(next, more, k, x);
        assert forall i :: 0 <= i < |steps| ==> steps[i] == if i == 0 then step else more[i - 1];
        assert forall i :: 0 <= i < |more| ==> more[i] == steps[i + 1];
      } else {
        NeverListedAgain(next, more, k, x);
        assert Removes(steps[0], x.session) || Removes(steps[0], s.tables.subs[k].publisher);
      }
    }
  }

  /** An announcement of `n` is about to be registered. */
  predicate Registers(s: State, step: Step, n: TrackNamespace) {
    step.Acquire? && step.t in s.tasks && s.tasks[step.t].Announce? && s.tasks[step.t].namespace == n
  }

  lemma OwnerAfter(s: State, step: Step, n: TrackNamespace)
    requires Enabled(s, step)
    ensures var owners, owners' := s.tables.owners, NextTables(s, step).owners;
            if Registers(s, step, n) then n in owners' && owners'[n] == s.tasks[step.t].session
            else
              && (n in owners' <==> n in owners && !Removes(step, owners[n]))
              && (n in owners' ==> owners'[n] == owners[n])
  {
    if step.Disconnect? {
      RemoveOwners(s.tables, step.id, n);
    }
  }

  ghost predicate NobodyRegisters(s: State, steps: seq<Step>, n: TrackNamespace)
    requires Feasible(s, steps)
    decreases |steps|
  {
    steps != [] ==> !Registers(s, steps[0], n) && NobodyRegisters(Apply(s, steps[0]), steps[1..], n)
  }

  /** The last announcement of a namespace decides: over every run without another one, its owner is the
      session that made it until that session is removed, and then nobody. */
  lemma {:induction false} LastAnnouncementOwns(s: State, steps: seq<Step>, n: TrackNamespace)
    requires Feasible(s, steps) && NobodyRegisters(s, steps, n) && n in s.tables.owners
    ensures var id, owners := s.tables.owners[n], Exec(s, steps).tables.owners;
            && (n in owners <==> forall i :: 0 <= i < |steps| ==> !Removes(steps[i], id))
            && (n in owners ==> owners[n] == id)
    decreases |steps|
  {
    hide NextTables, NextHistory, NextSent, Enabled, Registers;
    if steps != [] {
      var step := steps[0];
      OwnerAfter(s, step, n);
      var next, more := Apply(s, step), steps[1..];
      if n in next.tables.owners {
        LastAnnouncementOwns(next, more, n);
        assert forall i :: 0 <= i < |steps| ==> steps[i] == if i == 0 then step else more[i - 1];
        assert forall i :: 0 <= i < |more| ==> more[i] == steps[i + 1];
      } else {
        StaysUnowned(next, more, n);
        assert Removes(steps[0], s.tables.owners[n]);
      }
    }
  }

  lemma {:induction false} StaysUnowned(s: State, steps: seq<Step>, n: TrackNamespace)
    requires Feasible(s, steps) && NobodyRegisters(s, steps, n) && n !in s.tables.owners
    ensures n !in Exec(s, steps).tables.owners
    decreases |steps|
  {
    hide NextTables, NextHistory, NextSent, Enabled, Registers;
    if steps != [] {
      OwnerAfter(s, steps[0], n);
      StaysUnowned(Apply(s, steps[0]), steps[1..], n);
    }
  }

  // ----- one writer at a time -----

  /** The request on whose response stream the task is writing. */
  function WritesOn(t: TaskId, task: Task): Option<RequestId> {
    if !task.Serve? then None
    else match task.pc
      case RejectWrite => Some(t)
      case AggregateWrite => Some(t)
      case NoPublisherWrite => Some(t)
      case ForwardWrite => Some(t)
      case NotifyWrite(_, todo, next) => if next < |todo| then Some(todo[next]) else None
      case _ => None
  }

  /** What a suspended task holds: the lock of its track up to the end of the answer or of the recording,
      the state lock in the None arm, and the lock of a request exactly while it writes on its stream. */
  lemma HeldExactly(t: TaskId, task: Task)
    ensures forall k: Track :: TrackLock(k) in Held(t, task) <==> HoldsTrack(task) && TrackOf(task) == k
    ensures StateLock in Held(t, task) <==> HoldsState(task)
    ensures forall r: RequestId :: RequestLock(r) in Held(t, task) <==> WritesOn(t, task) == Some(r)
  {
  }

  /** The step looks the shared tables up. */
  predicate LooksUp(s: State, step: Step)
    requires Enabled(s, step)
  {
    step.Looked? || (step.Acquire? && s.tasks[step.t].Serve? &&
      var pc := s.tasks[step.t].pc;
      pc.WantLockEntry? || pc.CheckExisting? || pc.WantPublisher? || pc.Record? || pc.WantSnapshot?)
  }

  /** The tables are read and changed only when nobody else holds the state lock. */
  lemma TablesUnderLock(s: State, step: Step)
    requires Enabled(s, step) && (LooksUp(s, step) || NextTables(s, step) != s.tables)
    ensures StateLock !in s.owner
  {
    hide Remove, Push, Add;
  }

  /** Two tasks that write on the stream of the same request are the same task. */
  lemma OneWriter(s: State, t: TaskId, u: TaskId, r: RequestId)
    requires Reachable(s) && t in s.tasks && u in s.tasks
    requires WritesOn(t, s.tasks[t]) == Some(r) && WritesOn(u, s.tasks[u]) == Some(r)
    ensures t == u
  {
    LocksHold(s);
    HeldExactly(t, s.tasks[t]);
    HeldExactly(u, s.tasks[u]);
    assert s.owner[RequestLock(r)] == t && s.owner[RequestLock(r)] == u;
  }

  /** A response is begun only when nobody is writing on the stream, and from then on its task is. */
  lemma ResponseStartsAlone(s: State, t: TaskId)
    requires Reachable(s) && Enabled(s, Acquire(t)) && Uttered(s, Acquire(t)).Some?
    ensures var r := Uttered(s, Acquire(t)).value.0;
            && (forall u :: u in s.tasks ==> WritesOn(u, s.tasks[u]) != Some(r))
            && WritesOn(t, NextTask(s, Acquire(t))) == Some(r)
  {
    var r := Uttered(s, Acquire(t)).value.0;
    LocksHold(s);
    assert Wanted(t, s.tasks[t]) == Some(RequestLock(r));
    forall u | u in s.tasks ensures WritesOn(u, s.tasks[u]) != Some(r) {
      HeldExactly(u, s.tasks[u]);
    }
  }

  // ----- stalls -----

  /** In the None arm, where the state lock is held across the writing of REQUEST_ERROR. */
  predicate HoldsState(task: Task) { task.Serve? && (task.pc.NoPublisherWait? || task.pc.NoPublisherWrite?) }

  predicate EndsWrite(step: Step, t: TaskId) { step.Written? && step.t == t }

  lemma StallStep(s: State, step: Step, t: TaskId)
    requires LocksOk(s.tasks, s.owner) && Enabled(s, step) && !EndsWrite(step, t)
    requires t in s.tasks && HoldsState(s.tasks[t])
    ensures var s' := Apply(s, step);
            && t in s'.tasks && HoldsState(s'.tasks[t]) && s'.tables == s.tables
            && forall u :: u in s.tasks && Wanted(u, s.tasks[u]) == Some(StateLock) ==>
                 u in s'.tasks && s'.tasks[u] == s.tasks[u]
  {
    hide LocksOk, Held, Check, FindPublisher, Requests, HasOtherFilter, NextSent, NextHistory, Regrant;
    HoldsStateLock(s, t);
  }

  lemma {:induction false} StallRun(s: State, steps: seq<Step>, t: TaskId)
    requires LocksOk(s.tasks, s.owner) && t in s.tasks && HoldsState(s.tasks[t])
    requires Feasible(s, steps) && forall i :: 0 <= i < |steps| ==> !EndsWrite(steps[i], t)
    ensures var s' := Exec(s, steps);
            && LocksOk(s'.tasks, s'.owner) && t in s'.tasks && HoldsState(s'.tasks[t]) && s'.tables == s.tables
            && forall u :: u in s.tasks && Wanted(u, s.tasks[u]) == Some(StateLock) ==>
                 u in s'.tasks && s'.tasks[u] == s.tasks[u]
    decreases |steps|
  {
    hide LocksOk, Enabled, Apply, Wanted, HoldsState, EndsWrite;
    if steps != [] {
      StallStep(s, steps[0], t);
      LocksKept(s, steps[0]);
      StallRun(Apply(s, steps[0]), steps[1..], t);
    }
  }

  /** One subscriber that stops reading stalls the relay. While the write of a REQUEST_ERROR in the None
      arm does not end, whatever else happens: the state lock stays with that handler, the tables stay as
      they are, no session is registered or removed, and every task that waits for the state lock stays
      where it is, among them every data stream that asks for its subscribers. */
  lemma StalledByOneWrite(s: State, steps: seq<Step>, t: TaskId)
    requires Reachable(s) && t in s.tasks && HoldsState(s.tasks[t])
    requires Feasible(s, steps) && forall i :: 0 <= i < |steps| ==> !EndsWrite(steps[i], t)
    ensures var s' := Exec(s, steps);
            && StateLock in s'.owner && s'.owner[StateLock] == t && s'.tables == s.tables
            && (forall step: Step :: step.Connect? || step.Disconnect? ==> !Enabled(s', step))
            && (forall u :: u in s.tasks && Wanted(u, s.tasks[u]) == Some(StateLock) ==>
                  u in s'.tasks && s'.tasks[u] == s.tasks[u] && WaitsFor(s', u, t))
  {
    hide LocksOk, Held, Apply, HoldsState, EndsWrite, Exec, Feasible;
    LocksHold(s);
    StallRun(s, steps, t);
    HoldsStateLock(Exec(s, steps), t);
  }

  lemma HoldsStateLock(s: State, t: TaskId)
    requires LocksOk(s.tasks, s.owner) && t in s.tasks && HoldsState(s.tasks[t])
    ensures StateLock in s.owner && s.owner[StateLock] == t
  {
    LockOrder(t, s.tasks[t]);
  }

  /** The end of that write is what frees the state lock. */
  lemma WriteEndFreesState(s: State, t: TaskId, success: bool)
    requires Reachable(s) && Serving(s.tasks, t) && s.tasks[t].pc.NoPublisherWrite?
    ensures Enabled(s, Written(t, success)) && StateLock !in Apply(s, Written(t, success)).owner
  {
    LocksHold(s);
    LockOrder(t, s.tasks[t]);
  }

  // ----- responses -----

  /** Each SUBSCRIBE gets at most one of SUBSCRIBE_OK and REQUEST_ERROR. */
  lemma AtMostOneAnswer(s: State, r: RequestId)
    requires Reachable(s)
    ensures |Answers(Sent(s.sent, r))| <= 1
  {
    AnswerHolds(s, r);
  }

  /** A request that was refused is in no subscription, and one that is in a subscription was not. */
  lemma RefusedIsNeverListed(s: State, r: RequestId, k: Track, x: Subscriber)
    requires Reachable(s)
    requires k in s.tables.subs && x in s.tables.subs[k].subscribers && x.request == r
    ensures forall a :: a in Answers(Sent(s.sent, r)) ==> a.Accepted?
  {
    ListHolds(s, k, x);
    AnswerHolds(s, r);
  }

  /** The handlers of track `k` whose recorded entry was deleted. */
  function DeletedFor(s: State, k: Track): set<TaskId> {
    set t | t in s.history.deleted && Serving(s.tasks, t) && TrackOf(s.tasks[t]) == k
  }

  /** Number of PUBLISH_DONE messages among the responses. */
  function DoneCount(rs: seq<Response>): nat {
    if rs == [] then 0 else DoneCount(rs[..|rs| - 1]) + (if rs[|rs| - 1].Done? then 1 else 0)
  }

  lemma {:induction false} DoneCountIsNotifiers(rs: seq<Response>)
    requires DonesDistinct(rs)
    ensures DoneCount(rs) == |Notifiers(rs)|
  {
    if rs != [] {
      var init, x := rs[..|rs| - 1], rs[|rs| - 1];
      DoneCountIsNotifiers(init);
      AppendResponse(init, x);
      assert rs == init + [x];
      if x.Done? {
        assert x.forwarder !in Notifiers(init);
      }
    }
  }

  lemma SubsetSize(a: set<TaskId>, b: set<TaskId>)
    requires a <= b
    ensures |a| <= |b|
  {
    assert b == a + (b - a);
  }

  /** A request gets at most one PUBLISH_DONE more than entries of its track have been deleted. */
  lemma DoneBound(s: State, r: RequestId)
    requires Reachable(s) && Serving(s.tasks, r)
    ensures DoneCount(Sent(s.sent, r)) <= 1 + |DeletedFor(s, TrackOf(s.tasks[r]))|
  {
    var k := TrackOf(s.tasks[r]);
    DonesHold(s, r, r);
    DoneCountIsNotifiers(Sent(s.sent, r));
    var current := if k in s.history.creator then {s.history.creator[k]} else {};
    forall t | t in Notifiers(Sent(s.sent, r)) ensures t in DeletedFor(s, k) + current {
      NotifierFate(s, t, r);
    }
    SubsetSize(Notifiers(Sent(s.sent, r)), DeletedFor(s, k) + current);
    assert |DeletedFor(s, k) + current| <= |DeletedFor(s, k)| + 1;
  }

  /** Who forwards PUBLISH_DONE to `r`: a handler of the same track, whose own entry is the current
      one or has been deleted. */
  lemma NotifierFate(s: State, t: TaskId, r: RequestId)
    requires Reachable(s) && t in Notifiers(Sent(s.sent, r))
    ensures Serving(s.tasks, t) && Serving(s.tasks, r) && TrackOf(s.tasks[t]) == TrackOf(s.tasks[r])
    ensures Listed(s.tasks[r].pc)
    ensures PastRecord(s.tasks[t].pc) && !s.tasks[t].pc.ForwardWait?
    ensures t in s.history.deleted || Current(s.history, t, TrackOf(s.tasks[t]))
  {
    DonesHold(s, t, r);
    TodoHolds(s, t);
    assert r in TodoOf(s.tasks[t].pc).value;
    AskedHolds(s, t);
    FateHolds(s, t);
  }

  /** Without a deletion on its track, each request gets at most one PUBLISH_DONE. */
  lemma AtMostOneDone(s: State, r: RequestId)
    requires Reachable(s) && Serving(s.tasks, r) && DeletedFor(s, TrackOf(s.tasks[r])) == {}
    ensures DoneCount(Sent(s.sent, r)) <= 1
  {
    DoneBound(s, r);
  }

  /** A handler that has finished forwarding reached exactly the requests of its snapshot. */
  lemma DoneReachesSnapshot(s: State, t: TaskId, r: RequestId)
    requires Reachable(s) && Serving(s.tasks, t)
    requires s.tasks[t].pc.Finished? && s.tasks[t].pc.outcome.Notified?
    ensures t in Notifiers(Sent(s.sent, r)) <==> r in s.tasks[t].pc.outcome.todo
  {
    DonesHold(s, t, r);
  }

  /** The snapshot is the subscriber list at the moment PUBLISH_DONE is processed, and it never
      changes afterwards. */
  lemma {:induction false} SnapshotIsKept(s: State, steps: seq<Step>, t: TaskId)
    requires Reachable(s) && Feasible(s, steps) && Serving(s.tasks, t) && TodoOf(s.tasks[t].pc).Some?
    ensures Serving(Exec(s, steps).tasks, t)
    ensures TodoOf(Exec(s, steps).tasks[t].pc) == TodoOf(s.tasks[t].pc)
    decreases |steps|
  {
    if steps != [] {
      var step := steps[0];
      TodoHolds(s, t);
      if !step.Connect? && !step.Disconnect? && !step.Arrive? && step.t == t {
        TodoStep(s, step);
        StaysListed(s, step);
      }
      OneStepRun(s, step);
      SnapshotIsKept(Apply(s, step), steps[1..], t);
    }
  }

  lemma SnapshotIsSubscriberList(s: State, t: TaskId)
    requires Reachable(s) && Enabled(s, Acquire(t)) && Serving(s.tasks, t) && s.tasks[t].pc.WantSnapshot?
    ensures TodoOf(NextTask(s, Acquire(t)).pc) == Some(Requests(s.tables, TrackOf(s.tasks[t])))
  {
  }

  // ----- track isolation -----

  /** No publisher session has given one alias to two tracks. */
  ghost predicate AliasesUnique(h: History) {
    forall p, a, k, k' :: (p, a, k) in h.granted && (p, a, k') in h.granted ==> k == k'
  }

  /** Under unique aliases a data stream goes to the live subscribers of the one track to which its
      publisher gave the alias, each entry once, and to nobody else. */
  lemma TrackIsolation(s: State, t: TaskId, order: seq<Track>)
    requires Reachable(s) && AliasesUnique(s.history) && Enabled(s, Looked(t, order))
    ensures var p, a := s.tasks[t].session, s.tasks[t].alias;
            && (forall k :: k in order ==> (p, a, k) in s.history.granted)
            && (order == [] ==> NextTask(s, Looked(t, order)).targets == Some([]))
            && (forall k :: k in s.tables.subs && s.tables.subs[k].publisher == p && s.tables.subs[k].alias == a ==>
                  && order == [k]
                  && NextTask(s, Looked(t, order)).targets == Some(LiveSessions(s.tables.sessions, s.tables.subs[k].subscribers)))
  {
    var p, a := s.tasks[t].session, s.tasks[t].alias;
    forall k | k in order ensures (p, a, k) in s.history.granted {
      assert Matches(s.tables, k, p, a);
      AliasHolds(s, k);
    }
    forall k, k' | k in s.tables.subs && k' in s.tables.subs && Matches(s.tables, k, p, a) && Matches(s.tables, k', p, a)
      ensures k == k'
    {
      AliasHolds(s, k);
      AliasHolds(s, k');
    }
    IsolationIffUniqueMatch(s.tables, p, a, order);
    forall k | k in s.tables.subs && s.tables.subs[k].publisher == p && s.tables.subs[k].alias == a
      ensures order == [k] && Targets(s.tables, order) == LiveSessions(s.tables.sessions, s.tables.subs[k].subscribers)
    {
      assert Matches(s.tables, k, p, a);
      assert order[..0] == [] && Targets(s.tables, order[..0]) == [];
    }
  }

  /** Whatever aliases there are: a data stream goes to a session if and only if the session is registered and
      listed for a track that is recorded for the publisher and the alias of the stream. */
  lemma LookUpFindsAll(s: State, t: TaskId, order: seq<Track>, id: SessionId)
    requires Enabled(s, Looked(t, order))
    ensures var p, a := s.tasks[t].session, s.tasks[t].alias;
            var targets := NextTask(s, Looked(t, order)).targets;
            && targets.Some?
            && (id in targets.value <==>
                  id in s.tables.sessions &&
                  exists k, x ::
                    && IsListed(s.tables.subs, k, x) && x.session == id
                    && s.tables.subs[k].publisher == p && s.tables.subs[k].alias == a)
  {
    var p, a := s.tasks[t].session, s.tasks[t].alias;
    TargetsAre(s.tables, order, id);
    if id in Targets(s.tables, order) {
      var k, x :| k in order && IsListed(s.tables.subs, k, x) && x.session == id;
      assert Matches(s.tables, k, p, a);
    }
    if k, x :|
      && IsListed(s.tables.subs, k, x) && x.session == id
      && s.tables.subs[k].publisher == p && s.tables.subs[k].alias == a
    {
      assert Matches(s.tables, k, p, a);
    }
  }

  lemma {:induction false} TargetsAre(tables: Tables, order: seq<Track>, id: SessionId)
    requires forall k :: k in order ==> k in tables.subs
    ensures id in Targets(tables, order) <==>
            id in tables.sessions && exists k, x :: k in order && IsListed(tables.subs, k, x) && x.session == id
  {
    if order != [] {
      var init, last := order[..|order| - 1], order[|order| - 1];
      TargetsAre(tables, init, id);
      var xs := tables.subs[last].subscribers;
      if id in LiveSessions(tables.sessions, xs) {
        var i :| 0 <= i < |xs| && xs[i].session == id;
        assert last in order && IsListed(tables.subs, last, xs[i]);
      }
      if id in tables.sessions {
        forall k, x | k in order && IsListed(tables.subs, k, x) && x.session == id
          ensures id in Targets(tables, order)
        {
          if k == last {
            var i :| 0 <= i < |xs| && xs[i] == x;
          } else {
            assert k in init;
          }
        }
      }
    }
  }

  /** Isolation is lost exactly when two recorded tracks share the publisher and the alias. */
  lemma IsolationIffUniqueMatch(tables: Tables, p: SessionId, a: u64, order: seq<Track>)
    requires ListsMatches(tables, p, a, order)
    ensures |order| <= 1 <==>
            forall k, k' :: k in tables.subs && k' in tables.subs && Matches(tables, k, p, a) && Matches(tables, k', p, a) ==> k == k'
  {
    if |order| >= 2 {
      assert order[0] in order && order[1] in order;
    }
  }
}
