/** The relay as a system of interleaved tasks (moqt-relay/src/relay.rs, handle_connection,
    handle_subscribe, handle_data_stream). Every stretch of code between two `.await` points is one
    atomic step. The environment decides which task moves, which sessions come and go, what a
    publisher answers, and whether a write succeeds. */
module RelaySystem {
  import opened Words
  import opened Codec
  import opened Wire
  import opened RelayTables
  import opened Utf8

  /** Spawned tasks are numbered; a SUBSCRIBE request carries the number of its task. */
  type TaskId = nat

  // ----- tasks -----

  datatype Outcome =
    | Rejected
    | Unanswered                                          // returned without writing a response
    | Unencodable                                         // listed, but its SUBSCRIBE_OK cannot be encoded
    | Served
    | Notified(done: PublishDoneMessage, todo: seq<RequestId>)

  /** Where handle_subscribe stands: at which `.await`, with which locals. */
  datatype Pc =
    | Start
    | RejectWait | RejectWrite                            // unsupported filter
    | WantLockEntry | WantTrack | CheckExisting
    | AggregateWait(ok: SubscribeOkMessage) | AggregateWrite
    | WantPublisher
    | NoPublisherWait | NoPublisherWrite                  // the None arm, under the state guard
    | Upstream(publisher: SessionId)                      // awaiting publisher_session.subscribe
    | Record(publisher: SessionId, ok: SubscribeOkMessage)
    | ForwardWait(ok: SubscribeOkMessage) | ForwardWrite
    | AwaitDone
    | WantSnapshot(done: PublishDoneMessage)
    | NotifyWait(done: PublishDoneMessage, todo: seq<RequestId>, next: nat)
    | NotifyWrite(done: PublishDoneMessage, todo: seq<RequestId>, next: nat)
    | Finished(outcome: Outcome)

  datatype Task =
    | Serve(session: SessionId, msg: SubscribeMessage, pc: Pc)
    | Announce(session: SessionId, namespace: TrackNamespace, registered: bool)
    | FanOut(session: SessionId, alias: u64, targets: Option<seq<SessionId>>)

  function TrackOf(task: Task): Track
    requires task.Serve?
  {
    Track(task.msg.trackNamespace, task.msg.trackName)
  }

  /** A filter other than NextGroupStart: what the filter check rejects in a SUBSCRIBE, and what the
      encoder refuses in any message. */
  predicate HasOtherFilter(ps: seq<MessageParameter>) {
    exists i :: 0 <= i < |ps| && ps[i].FilterParameter? && !ps[i].filter.NextGroupStart?
  }

  predicate HasUnsupportedFilter(msg: SubscribeMessage) { HasOtherFilter(msg.parameters) }

  // ----- locks -----

  datatype Lock = TrackLock(track: Track) | StateLock | RequestLock(request: RequestId)

  /** The order in which handle_subscribe nests its locks. */
  function Rank(l: Lock): nat {
    match l case TrackLock(_) => 1 case StateLock => 2 case RequestLock(_) => 3
  }

  /** The guards alive while the task is suspended. A state guard that is dropped before the next
      `.await` never shows up here. */
  function Held(t: TaskId, task: Task): set<Lock> {
    if !task.Serve? then {}
    else match task.pc
      case CheckExisting => {TrackLock(TrackOf(task))}
      case AggregateWait(_) => {TrackLock(TrackOf(task))}
      case AggregateWrite => {TrackLock(TrackOf(task)), RequestLock(t)}
      case WantPublisher => {TrackLock(TrackOf(task))}
      case NoPublisherWait => {TrackLock(TrackOf(task)), StateLock}
      case NoPublisherWrite => {TrackLock(TrackOf(task)), StateLock, RequestLock(t)}
      case Upstream(_) => {TrackLock(TrackOf(task))}
      case Record(_, _) => {TrackLock(TrackOf(task))}
      case RejectWrite => {RequestLock(t)}
      case ForwardWrite => {RequestLock(t)}
      case NotifyWrite(_, todo, next) => if next < |todo| then {RequestLock(todo[next])} else {}
      case _ => {}
  }

  /** The lock that the task is awaiting. */
  function Wanted(t: TaskId, task: Task): Option<Lock> {
    match task
    case Announce(_, _, registered) => if registered then None else Some(StateLock)
    case FanOut(_, _, targets) => if targets.Some? then None else Some(StateLock)
    case Serve(_, _, pc) =>
      match pc
      case RejectWait => Some(RequestLock(t))
      case WantLockEntry => Some(StateLock)
      case WantTrack => Some(TrackLock(TrackOf(task)))
      case CheckExisting => Some(StateLock)
      case AggregateWait(_) => Some(RequestLock(t))
      case WantPublisher => Some(StateLock)
      case NoPublisherWait => Some(RequestLock(t))
      case Record(_, _) => Some(StateLock)
      case ForwardWait(_) => Some(RequestLock(t))
      case WantSnapshot(_) => Some(StateLock)
      case NotifyWait(_, todo, next) => if next < |todo| then Some(RequestLock(todo[next])) else None
      case _ => None
  }

  // ----- states -----

  /** A response that the relay began to write on a request stream. */
  datatype Response =
    | Accepted(ok: SubscribeOkMessage)
    | Refused(code: u64)
    | Done(forwarder: TaskId, done: PublishDoneMessage)

  /** What happened so far; no step reads it. */
  datatype History = History(
    upstream: set<TaskId>,                                // sent a SUBSCRIBE to a publisher
    failed: set<TaskId>,                                  // ... that was refused or lost
    deleted: set<TaskId>,                                 // ... whose entry remove_session dropped
    creator: map<Track, TaskId>,                          // the task that recorded each entry
    granted: set<(SessionId, u64, Track)>,                // aliases that publishers assigned
    late: set<TaskId>,                                    // wrote the ID of a session already removed
    offered: map<TaskId, SubscribeOkMessage>,             // the SUBSCRIBE_OK that each handler is to send
    received: map<TaskId, PublishDoneMessage>)            // the PUBLISH_DONE that each handler got

  datatype State = State(
    tables: Tables, tasks: map<TaskId, Task>, owner: map<Lock, TaskId>,
    sent: map<RequestId, seq<Response>>, history: History)

  const INIT := State(EMPTY, map[], map[], map[], History({}, {}, {}, map[], {}, {}, map[], map[]))

  predicate Serving(tasks: map<TaskId, Task>, t: TaskId) { t in tasks && tasks[t].Serve? }

  function Sent(sent: map<RequestId, seq<Response>>, r: RequestId): seq<Response> {
    if r in sent then sent[r] else []
  }

  // ----- steps -----

  datatype Step =
    | Connect
    | Disconnect(id: SessionId)
    | Arrive(t: TaskId, task: Task)                       // the connection task spawns a handler
    | Begin(t: TaskId)
    | Acquire(t: TaskId)                                  // the awaited lock is granted
    | Looked(t: TaskId, order: seq<Track>)                // find_subscriber_sessions, in map order
    | Written(t: TaskId, success: bool)                   // a response write ends
    | Answered(t: TaskId, answer: SubscribeOkMessage)     // SUBSCRIBE_OK from the publisher
    | Refusal(t: TaskId)                                  // anything else from the publisher
    | DoneReceived(t: TaskId, publishDone: PublishDoneMessage)
    | DoneLost(t: TaskId)

  predicate Fresh(task: Task) {
    match task
    case Serve(_, _, pc) => pc == Start
    case Announce(_, _, registered) => !registered
    case FanOut(_, _, targets) => targets == None
  }

  predicate Writing(pc: Pc) {
    pc.RejectWrite? || pc.AggregateWrite? || pc.NoPublisherWrite? || pc.ForwardWrite? || pc.NotifyWrite?
  }

  predicate Granted(s: State, t: TaskId) {
    && t in s.tasks && Wanted(t, s.tasks[t]).Some? && Wanted(t, s.tasks[t]).value !in s.owner
  }

  predicate Enabled(s: State, step: Step) {
    match step
    case Connect => StateLock !in s.owner
    case Disconnect(id) => StateLock !in s.owner && id in s.tables.sessions
    case Arrive(t, task) => t !in s.tasks && Fresh(task) && task.session in s.tables.sessions
    case Acquire(t) => Granted(s, t) && !s.tasks[t].FanOut?
    case Looked(t, order) =>
      && Granted(s, t) && s.tasks[t].FanOut?
      && ListsMatches(s.tables, s.tasks[t].session, s.tasks[t].alias, order)
    case Begin(t) => Serving(s.tasks, t) && s.tasks[t].pc.Start?
    case Written(t, _) => Serving(s.tasks, t) && Writing(s.tasks[t].pc)
    case Answered(t, _) => Serving(s.tasks, t) && s.tasks[t].pc.Upstream?
    case Refusal(t) => Serving(s.tasks, t) && s.tasks[t].pc.Upstream?
    case DoneReceived(t, _) => Serving(s.tasks, t) && s.tasks[t].pc.AwaitDone?
    case DoneLost(t) => Serving(s.tasks, t) && s.tasks[t].pc.AwaitDone?
  }

  // Control: where the task stands afterwards.

  /** The code before the first `.await`. */
  function Check(msg: SubscribeMessage): Pc {
    if HasUnsupportedFilter(msg) then RejectWait
    else if !IsUtf8(msg.trackName) then Finished(Unanswered)
    else WantLockEntry
  }

  /** The head of the loop over the request handles. */
  function Notify(done: PublishDoneMessage, todo: seq<RequestId>, next: nat): Pc {
    if next < |todo| then NotifyWait(done, todo, next) else Finished(Notified(done, todo))
  }

  function AfterAcquire(tables: Tables, task: Task): Pc
    requires task.Serve?
  {
    var k := TrackOf(task);
    match task.pc
    case RejectWait => RejectWrite
    case WantLockEntry => WantTrack
    case WantTrack => CheckExisting
    case CheckExisting => if k in tables.subs then AggregateWait(tables.subs[k].ok) else WantPublisher
    case AggregateWait(ok) => if HasOtherFilter(ok.parameters) then Finished(Unencodable) else AggregateWrite
    case WantPublisher =>
      (match FindPublisher(tables, k.namespace) case Some(p) => Upstream(p) case None => NoPublisherWait)
    case NoPublisherWait => NoPublisherWrite
    case Record(_, ok) => ForwardWait(ok)
    case ForwardWait(ok) => if HasOtherFilter(ok.parameters) then Finished(Unencodable) else ForwardWrite
    case WantSnapshot(done) => Notify(done, Requests(tables, k), 0)
    case NotifyWait(done, todo, next) => NotifyWrite(done, todo, next)
    case pc => pc
  }

  function AfterWrite(pc: Pc, success: bool): Pc {
    match pc
    case RejectWrite => Finished(Rejected)
    case NoPublisherWrite => Finished(Rejected)
    case AggregateWrite => Finished(Served)
    case ForwardWrite => if success then AwaitDone else Finished(Served)
    case NotifyWrite(done, todo, next) => Notify(done, todo, next + 1)
    case pc => pc
  }

  function NextTask(s: State, step: Step): Task
    requires Enabled(s, step) && !step.Connect? && !step.Disconnect?
  {
    match step
    case Arrive(_, task) => task
    case Begin(t) => s.tasks[t].(pc := Check(s.tasks[t].msg))
    case Acquire(t) =>
      if s.tasks[t].Announce? then s.tasks[t].(registered := true)
      else s.tasks[t].(pc := AfterAcquire(s.tables, s.tasks[t]))
    case Looked(t, order) => s.tasks[t].(targets := Some(Targets(s.tables, order)))
    case Written(t, success) => s.tasks[t].(pc := AfterWrite(s.tasks[t].pc, success))
    case Answered(t, ok) => s.tasks[t].(pc := Record(s.tasks[t].pc.publisher, ok))
    case Refusal(t) => s.tasks[t].(pc := Finished(Unanswered))
    case DoneReceived(t, done) => s.tasks[t].(pc := WantSnapshot(done))
    case DoneLost(t) => s.tasks[t].(pc := Finished(Served))
  }

  // Data: what the step does to the shared tables.

  function TablesAfterAcquire(tables: Tables, t: TaskId, task: Task): Tables {
    match task
    case Announce(id, n, _) => tables.(owners := tables.owners[n := id])
    case FanOut(_, _, _) => tables
    case Serve(id, _, pc) =>
      var k := TrackOf(task);
      match pc
      case WantLockEntry => tables.(locks := tables.locks + {k})
      case CheckExisting => if k in tables.subs then Push(tables, k, Subscriber(id, t)) else tables
      case Record(p, ok) => Add(tables, k, p, ok.trackAlias, ok, Subscriber(id, t))
      case _ => tables
  }

  function NextTables(s: State, step: Step): Tables
    requires Enabled(s, step)
  {
    match step
    case Connect => s.tables.(next := s.tables.next + 1, sessions := s.tables.sessions + {s.tables.next})
    case Disconnect(id) => Remove(s.tables, id)
    case Acquire(t) => TablesAfterAcquire(s.tables, t, s.tasks[t])
    case _ => s.tables
  }

  // Output: the response whose write begins.

  function Utterance(t: TaskId, task: Task): Option<(RequestId, Response)> {
    if !task.Serve? then None
    else match task.pc
      case RejectWait => Some((t, Refused(ERROR_NOT_SUPPORTED)))
      case AggregateWait(ok) => if HasOtherFilter(ok.parameters) then None else Some((t, Accepted(ok)))
      case NoPublisherWait => Some((t, Refused(ERROR_DOES_NOT_EXIST)))
      case ForwardWait(ok) => if HasOtherFilter(ok.parameters) then None else Some((t, Accepted(ok)))
      case NotifyWait(done, todo, next) => if next < |todo| then Some((todo[next], Done(t, done))) else None
      case _ => None
  }

  function NextSent(s: State, step: Step): map<RequestId, seq<Response>>
    requires Enabled(s, step)
  {
    if step.Acquire? && Utterance(step.t, s.tasks[step.t]).Some? then
      var (r, x) := Utterance(step.t, s.tasks[step.t]).value;
      s.sent[r := Sent(s.sent, r) + [x]]
    else s.sent
  }

  // Bookkeeping.

  /** The session IDs that the step copies from the task into the tables. */
  function Copied(tables: Tables, task: Task): set<SessionId> {
    match task
    case Announce(id, _, _) => {id}
    case FanOut(_, _, _) => {}
    case Serve(id, _, pc) =>
      if pc.CheckExisting? && TrackOf(task) in tables.subs then {id}
      else if pc.Record? then {id, pc.publisher}
      else {}
  }

  function HistoryAfterAcquire(h: History, tables: Tables, t: TaskId, task: Task): History {
    var late := if Copied(tables, task) <= tables.sessions then h.late else h.late + {t};
    if task.Serve? && task.pc.WantPublisher? && FindPublisher(tables, TrackOf(task).namespace).Some? then
      h.(upstream := h.upstream + {t})
    else if task.Serve? && task.pc.Record? then
      h.(creator := h.creator[TrackOf(task) := t], late := late)
    else if task.Serve? && task.pc.CheckExisting? && TrackOf(task) in tables.subs then
      h.(offered := h.offered[t := tables.subs[TrackOf(task)].ok], late := late)
    else h.(late := late)
  }

  function HistoryAfterRemove(h: History, before: map<Track, Subscription>, after: map<Track, Subscription>): History {
    h.(deleted := h.deleted + (set k | k in before && k !in after && k in h.creator :: h.creator[k]),
       creator := map k | k in h.creator && k in after :: h.creator[k])
  }

  function NextHistory(s: State, step: Step): History
    requires Enabled(s, step)
  {
    var h := s.history;
    match step
    case Disconnect(id) => HistoryAfterRemove(h, s.tables.subs, Remove(s.tables, id).subs)
    case Acquire(t) => HistoryAfterAcquire(h, s.tables, t, s.tasks[t])
    case Answered(t, ok) =>
      h.(granted := h.granted + {(s.tasks[t].pc.publisher, ok.trackAlias, TrackOf(s.tasks[t]))},
         offered := h.offered[t := ok])
    case Refusal(t) => h.(failed := h.failed + {t})
    case DoneReceived(t, done) => h.(received := h.received[t := done])
    case _ => h
  }

  /** The locks of `t` become exactly `held`; nobody else's change. */
  function Regrant(owner: map<Lock, TaskId>, t: TaskId, held: set<Lock>): map<Lock, TaskId> {
    map l | l in owner.Keys + held && (l in held || owner[l] != t) :: if l in held then t else owner[l]
  }

  function Apply(s: State, step: Step): State
    requires Enabled(s, step)
  {
    if step.Connect? || step.Disconnect? then
      s.(tables := NextTables(s, step), history := NextHistory(s, step))
    else
      var task := NextTask(s, step);
      State(NextTables(s, step), s.tasks[step.t := task], Regrant(s.owner, step.t, Held(step.t, task)),
            NextSent(s, step), NextHistory(s, step))
  }

  // ----- runs -----

  ghost predicate Feasible(s: State, steps: seq<Step>)
    decreases |steps|
  {
    steps != [] ==> Enabled(s, steps[0]) && Feasible(Apply(s, steps[0]), steps[1..])
  }

  ghost function Exec(s: State, steps: seq<Step>): State
    requires Feasible(s, steps)
    decreases |steps|
  {
    if steps == [] then s else Exec(Apply(s, steps[0]), steps[1..])
  }

  ghost predicate Reachable(s: State) {
    exists steps :: Feasible(INIT, steps) && s == Exec(INIT, steps)
  }
}
