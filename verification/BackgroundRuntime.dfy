/**
  The background-service runtime: one supervisor, its workers, and the hosts that start it, stop
  it and take snapshots of it. Every action below is one lock section, one atomic read or write,
  or one await that became ready; a run interleaves the actions of all parties freely.
  Deadlines, joins and worker code are nondeterministic.
  */
module BackgroundRuntime {
  import opened Wrappers
  import Scopes = ScopeLedger

  // ---------------------------------------------------------------- state

  datatype Outcome = Completed | Failed | Panicked | NotStarted | Aborted

  datatype Fault = InitializationFailed | InitializationPanicked | SupervisorFailed

  /** The one-shot channel on which a worker reports its construction. */
  datatype Ready = Open | SentOk | SentErr(fault: Fault) | Closed

  datatype Worker =
    | Unspawned
    | Constructing
    | AwaitingStart
    | Released                               // the start token was seen
    | Executing
    | Done(outcome: Outcome, begun: bool)    // ended, not joined yet
    | Joined(outcome: Outcome, begun: bool)

  datatype Supervisor =
    | NotRunning
    | LoopHead(i: nat)
    | CountSpawn(i: nat)
    | SpawnTask(i: nat)
    | AwaitReady(i: nat)
    | StoreError(fault: Fault)
    | MarkInitialized
    | Serving
    | ReadDeadlines
    | Cooperative
    | SealScopes
    | CountAborts
    | AbortAll
    | Aborting
    | Draining
    | Exited
    | Crashed

  datatype Deadlines = Deadlines(cooperative: int, executionStop: int, cleanup: int, reconcile: int)

  datatype Counters = Counters(
    spawned: nat, started: nat, joined: nat,
    completed: nat, failed: nat, panicked: nat, aborted: nat, stoppedBeforeStart: nat,
    abortRequested: nat, executionDeadlineMissed: bool)

  datatype Snapshot = Snapshot(
    registered: nat, counters: Counters, outstanding: int,
    supervisorJoined: bool, supervisorFailed: bool, scopes: Scopes.Snapshot)
  {
    predicate Reconciles() {
      && counters.started <= counters.spawned <= registered
      && counters.spawned == counters.joined + outstanding
      && counters.joined ==
         counters.completed + counters.failed + counters.panicked + counters.aborted + counters.stoppedBeforeStart
      && scopes.Reconciles()
    }

    predicate IsTerminal() {
      Reconciles() && supervisorJoined && outstanding == 0 && scopes.IsTerminal()
    }
  }

  /** What a call of `start` answers. */
  datatype StartAnswer = Started | StartFailed(fault: Fault) | StartedTooLate | NotInitialized

  /** A snapshot is assembled from three separate reads. */
  datatype Observer =
    | OwnerRead(joined: bool, failed: bool)
    | StateRead(joined: bool, failed: bool, counters: Counters)
    | Taken(snapshot: Snapshot)

  datatype System = System(
    workers: seq<Worker>, ready: seq<Ready>, frontier: nat, constructed: set<nat>,
    supervisor: Supervisor, abortSent: bool,
    counters: Counters, initialized: bool, error: Option<Fault>, lockHeld: bool,
    start: bool, stopping: bool, deadlines: Option<Deadlines>, forcing: bool, force: bool,
    scopes: Scopes.Ledger, observers: seq<Observer>, starts: seq<StartAnswer>)

  function Initial(registered: nat): System {
    System(seq(registered, _ => Unspawned), seq(registered, _ => Open), 0, {},
           NotRunning, false,
           Counters(0, 0, 0, 0, 0, 0, 0, 0, 0, false), false, None, false,
           false, false, None, false, false,
           Scopes.EMPTY, [], [])
  }

  // ---------------------------------------------------------------- workers

  datatype WorkerAction =
    | ConstructOk
    | ConstructErr(fault: Fault)
    | SeeStopping
    | SeeStart
    | Begin
    | Finish(outcome: Outcome)
    | TaskPanics
    | AbortTask

  predicate Running(w: Worker) {
    w.Constructing? || w.AwaitingStart? || w.Released? || w.Executing?
  }

  predicate WorkerEnabled(s: System, i: nat, a: WorkerAction) {
    i < |s.workers| && i < |s.ready| &&
    match a
    case ConstructOk => s.workers[i].Constructing?
    case ConstructErr(fault) => s.workers[i].Constructing?
    case SeeStopping => s.workers[i].AwaitingStart? && s.stopping
    case SeeStart => s.workers[i].AwaitingStart? && s.start
    case Begin => s.workers[i].Released? && !s.lockHeld
    case Finish(outcome) => s.workers[i].Executing? && (outcome.Completed? || outcome.Failed? || outcome.Panicked?)
    case TaskPanics => Running(s.workers[i])
    case AbortTask => Running(s.workers[i]) && (s.abortSent || s.supervisor.Crashed?)
  }

  /** A task that ends without having reported drops its end of the channel. */
  function AfterEnd(r: Ready): Ready { if r.Open? then Closed else r }

  function WorkerNext(s: System, i: nat, a: WorkerAction): System
    requires WorkerEnabled(s, i, a)
  {
    match a
    case ConstructOk =>
      s.(workers := s.workers[i := AwaitingStart], ready := s.ready[i := SentOk], constructed := s.constructed + {i})
    case ConstructErr(fault) =>
      var outcome := if fault.InitializationPanicked? then Panicked else Failed;
      s.(workers := s.workers[i := Done(outcome, false)], ready := s.ready[i := SentErr(fault)])
    case SeeStopping => s.(workers := s.workers[i := Done(NotStarted, false)])
    case SeeStart => s.(workers := s.workers[i := Released])
    case Begin =>
      s.(workers := s.workers[i := Executing], counters := s.counters.(started := s.counters.started + 1))
    case Finish(outcome) => s.(workers := s.workers[i := Done(outcome, true)])
    case TaskPanics =>
      s.(workers := s.workers[i := Done(Panicked, s.workers[i].Executing?)],
         ready := s.ready[i := AfterEnd(s.ready[i])])
    case AbortTask =>
      s.(workers := s.workers[i := Done(Aborted, s.workers[i].Executing?)], ready := s.ready[i := AfterEnd(s.ready[i])])
  }

  // ---------------------------------------------------------------- supervisor

  datatype SupervisorAction =
    | CheckLoop                      // for-loop head: done, stopping, or the next registration
    | CountOne                       // spawned += 1
    | Spawn
    | StopWhileWaiting
    | ReceiveReady
    | RecordError
    | Initialize
    | Join(i: nat, late: bool)
    | SeeStop
    | FindDeadlines
    | AllReturned
    | ForceArrives
    | CooperativeDeadline
    | SealAll
    | CountAborted
    | SendAborts
    | ExecutionDeadline
    | AllAborted
    | Drained
    | Crash

  /** The join set is empty. */
  predicate AllJoined(s: System) {
    forall i :: 0 <= i < |s.workers| ==> s.workers[i].Unspawned? || s.workers[i].Joined?
  }

  predicate Outstanding(w: Worker) { !w.Unspawned? && !w.Joined? }

  predicate SupervisorEnabled(s: System, a: SupervisorAction) {
    var v := s.supervisor;
    match a
    case CheckLoop => v.LoopHead?
    case CountOne => v.CountSpawn? && !s.lockHeld
    case Spawn => v.SpawnTask? && v.i < |s.workers|
    case StopWhileWaiting => v.AwaitReady? && s.stopping
    case ReceiveReady => v.AwaitReady? && v.i < |s.ready| && !s.ready[v.i].Open?
    case RecordError => v.StoreError? && !s.lockHeld
    case Initialize => v.MarkInitialized? && !s.lockHeld
    case Join(i, _) =>
      (v.Serving? || v.Cooperative? || v.Aborting?) && i < |s.workers| && s.workers[i].Done? && !s.lockHeld
    case SeeStop => v.Serving? && s.stopping
    case FindDeadlines => v.ReadDeadlines?
    case AllReturned => v.Cooperative? && AllJoined(s)
    case ForceArrives => v.Cooperative? && !AllJoined(s) && s.force
    case CooperativeDeadline => v.Cooperative? && !AllJoined(s)
    case SealAll => v.SealScopes?
    case CountAborted => v.CountAborts? && !s.lockHeld
    case SendAborts => v.AbortAll?
    case ExecutionDeadline => v.Aborting? && !AllJoined(s) && !s.lockHeld
    case AllAborted => v.Aborting? && AllJoined(s)
    case Drained => v.Draining?
    case Crash => !v.NotRunning? && !v.Exited? && !v.Crashed?
  }

  function RecordJoin(c: Counters, outcome: Outcome, missed: bool): Counters {
    var c' := c.(joined := c.joined + 1, executionDeadlineMissed := c.executionDeadlineMissed || missed);
    match outcome
    case Completed => c'.(completed := c.completed + 1)
    case NotStarted => c'.(stoppedBeforeStart := c.stoppedBeforeStart + 1)
    case Failed => c'.(failed := c.failed + 1)
    case Panicked => c'.(panicked := c.panicked + 1)
    case Aborted => c'.(aborted := c.aborted + 1)
  }

  function SupervisorNext(s: System, a: SupervisorAction): System
    requires SupervisorEnabled(s, a)
  {
    match a
    case CheckLoop =>
      var i := s.supervisor.i;
      s.(supervisor := if i >= |s.workers| || s.stopping then MarkInitialized else CountSpawn(i))
    case CountOne =>
      s.(counters := s.counters.(spawned := s.counters.spawned + 1), supervisor := SpawnTask(s.supervisor.i))
    case Spawn =>
      var i := s.supervisor.i;
      s.(workers := s.workers[i := Constructing], frontier := s.frontier + 1, supervisor := AwaitReady(i))
    case StopWhileWaiting => s.(supervisor := MarkInitialized)
    case ReceiveReady => s.(supervisor := AfterReady(s.supervisor.i, s.ready[s.supervisor.i]))
    case RecordError => s.(error := Some(s.supervisor.fault), supervisor := MarkInitialized)
    case Initialize => s.(initialized := true, supervisor := Serving)
    case Join(i, late) =>
      var w := s.workers[i];
      s.(workers := s.workers[i := Joined(w.outcome, w.begun)],
         counters := RecordJoin(s.counters, w.outcome, s.deadlines.Some? && late))
    case SeeStop => s.(supervisor := ReadDeadlines)
    case FindDeadlines => s.(supervisor := if s.deadlines.None? then Crashed else Cooperative)
    case AllReturned => s.(supervisor := SealScopes)
    case ForceArrives => s.(supervisor := SealScopes)
    case CooperativeDeadline => s.(supervisor := SealScopes)
    case SealAll => s.(scopes := Sealed(s.scopes), supervisor := if AllJoined(s) then Draining else CountAborts)
    case CountAborted =>
      var outstanding := Count(s.workers, Outstanding);
      s.(counters := s.counters.(abortRequested := s.counters.abortRequested + outstanding), supervisor := AbortAll)
    case SendAborts => s.(abortSent := true, supervisor := Aborting)
    case ExecutionDeadline => s.(counters := s.counters.(executionDeadlineMissed := true))
    case AllAborted => s.(supervisor := Draining)
    case Drained => s.(supervisor := Exited)
    case Crash => s.(supervisor := Crashed)
  }

  function AfterReady(i: nat, r: Ready): Supervisor {
    match r
    case SentOk => LoopHead(i + 1)
    case SentErr(fault) => StoreError(fault)
    case _ => StoreError(SupervisorFailed)
  }

  function Sealed(l: Scopes.Ledger): Scopes.Ledger { l.(sealed := true) }

  // ---------------------------------------------------------------- hosts

  datatype HostAction =
    | EnsureOwner
    | Start
    | ShutdownLock(deadlines: Deadlines)   // first half of the shutdown lock section: fix the deadlines
    | ShutdownCancel                       // second half: cancel the token and release the lock
    | ForceSeal
    | ForceCancel

  predicate HostEnabled(s: System, a: HostAction) {
    match a
    case EnsureOwner => !s.lockHeld
    case Start => !s.lockHeld
    case ShutdownLock(_) => !s.lockHeld
    case ShutdownCancel => s.lockHeld
    case ForceSeal => s.stopping
    case ForceCancel => s.forcing
  }

  predicate StartSucceeds(s: System) {
    !s.stopping && s.error.None? && s.initialized
  }

  /** The checks of `start`, in the order in which they are made. */
  function AnswerToStart(s: System): StartAnswer {
    if s.stopping then StartedTooLate
    else if s.error.Some? then StartFailed(s.error.value)
    else if !s.initialized then NotInitialized
    else Started
  }

  function HostNext(s: System, a: HostAction): System
    requires HostEnabled(s, a)
  {
    match a
    case EnsureOwner => if s.supervisor.NotRunning? then s.(supervisor := LoopHead(0)) else s
    case Start =>
      var answer := AnswerToStart(s);
      s.(start := s.start || answer.Started?, starts := s.starts + [answer])
    case ShutdownLock(d) => s.(deadlines := if s.deadlines.None? then Some(d) else s.deadlines, lockHeld := true)
    case ShutdownCancel => s.(stopping := true, lockHeld := false)
    case ForceSeal => s.(scopes := Sealed(s.scopes), forcing := true)
    case ForceCancel => s.(force := true)
  }

  // ---------------------------------------------------------------- observers

  datatype ObserverAction =
    | ReadOwner
    | ReadState(o: nat)
    | ReadScopes(o: nat, polled: Scopes.Polled)

  predicate ObserverEnabled(s: System, a: ObserverAction) {
    match a
    case ReadOwner => true
    case ReadState(o) => o < |s.observers| && s.observers[o].OwnerRead? && !s.lockHeld
    case ReadScopes(o, _) => o < |s.observers| && s.observers[o].StateRead?
  }

  function ObserverNext(s: System, a: ObserverAction): System
    requires ObserverEnabled(s, a)
  {
    match a
    case ReadOwner =>
      s.(observers := s.observers + [OwnerRead(s.supervisor.Exited? || s.supervisor.Crashed?, s.supervisor.Crashed?)])
    case ReadState(o) =>
      var b := s.observers[o];
      s.(observers := s.observers[o := StateRead(b.joined, b.failed, s.counters)])
    case ReadScopes(o, polled) =>
      var b := s.observers[o];
      var scopes := Scopes.Next(s.scopes, Scopes.TakeSnapshot(polled));
      s.(scopes := scopes,
         observers := s.observers[o := Taken(Snapshot(|s.workers|, b.counters, b.counters.spawned - b.counters.joined,
                                                      b.joined, b.failed, Scopes.SnapshotOf(scopes)))])
  }

  // ---------------------------------------------------------------- runs

  datatype Action =
    | OfWorker(i: nat, worker: WorkerAction)
    | OfSupervisor(supervisor: SupervisorAction)
    | OfHost(host: HostAction)
    | OfObserver(observer: ObserverAction)
    | OfScope(scope: Scopes.Step)             // jobs create scopes and clean them up

  predicate Enabled(s: System, a: Action) {
    match a
    case OfWorker(i, w) => WorkerEnabled(s, i, w)
    case OfSupervisor(v) => SupervisorEnabled(s, v)
    case OfHost(h) => HostEnabled(s, h)
    case OfObserver(o) => ObserverEnabled(s, o)
    case OfScope(_) => true
  }

  function Next(s: System, a: Action): System
    requires Enabled(s, a)
  {
    match a
    case OfWorker(i, w) => WorkerNext(s, i, w)
    case OfSupervisor(v) => SupervisorNext(s, v)
    case OfHost(h) => HostNext(s, h)
    case OfObserver(o) => ObserverNext(s, o)
    case OfScope(step) => s.(scopes := Scopes.Next(s.scopes, step))
  }

  ghost predicate IsRun(s: System, run: seq<Action>)
    decreases |run|
  {
    run == [] || (Enabled(s, run[0]) && IsRun(Next(s, run[0]), run[1..]))
  }

  ghost function After(s: System, run: seq<Action>): System
    requires IsRun(s, run)
    decreases |run|
  {
    if run == [] then s else After(Next(s, run[0]), run[1..])
  }

  // ---------------------------------------------------------------- counting workers

  function Count(ws: seq<Worker>, p: Worker -> bool): nat {
    if ws == [] then 0 else Count(ws[..|ws| - 1], p) + if p(ws[|ws| - 1]) then 1 else 0
  }

  lemma {:induction false} CountUpdate(ws: seq<Worker>, i: nat, w: Worker, p: Worker -> bool)
    requires i < |ws|
    ensures Count(ws[i := w], p) == Count(ws, p) - (if p(ws[i]) then 1 else 0) + (if p(w) then 1 else 0)
  {
    var last := |ws| - 1;
    if i < last {
      CountUpdate(ws[..last], i, w, p);
      assert ws[i := w][..last] == ws[..last][i := w];
    } else {
      assert ws[i := w][..last] == ws[..last];
    }
  }

  lemma {:induction false} CountImplies(ws: seq<Worker>, p: Worker -> bool, q: Worker -> bool)
    requires forall i :: 0 <= i < |ws| && p(ws[i]) ==> q(ws[i])
    ensures Count(ws, p) <= Count(ws, q)
  {
    if ws != [] { CountImplies(ws[..|ws| - 1], p, q); }
  }

  predicate HasBegun(w: Worker) { w.Executing? || ((w.Done? || w.Joined?) && w.begun) }

  predicate IsJoined(w: Worker) { w.Joined? }

  predicate IsSpawned(w: Worker) { !w.Unspawned? }

  function JoinedWith(outcome: Outcome): Worker -> bool {
    (w: Worker) => w.Joined? && w.outcome == outcome
  }

  lemma {:induction false} OutcomesAddUp(ws: seq<Worker>)
    ensures Count(ws, IsJoined) ==
            Count(ws, JoinedWith(Completed)) + Count(ws, JoinedWith(Failed)) + Count(ws, JoinedWith(Panicked))
            + Count(ws, JoinedWith(Aborted)) + Count(ws, JoinedWith(NotStarted))
  {
    if ws != [] { OutcomesAddUp(ws[..|ws| - 1]); }
  }

  lemma {:induction false} SpawnedPrefix(ws: seq<Worker>, frontier: nat)
    requires frontier <= |ws| && forall i :: 0 <= i < |ws| ==> (ws[i].Unspawned? <==> i >= frontier)
    ensures Count(ws, IsSpawned) == frontier
  {
    if ws != [] {
      SpawnedPrefix(ws[..|ws| - 1], if frontier == |ws| then frontier - 1 else frontier);
    }
  }

  // ---------------------------------------------------------------- invariant

  /** Tasks are spawned in registration order, and the program counter says how far. */
  ghost predicate Shape(s: System) {
    && |s.ready| == |s.workers| && s.frontier <= |s.workers|
    && (forall i :: 0 <= i < |s.workers| ==> (s.workers[i].Unspawned? <==> i >= s.frontier))
    && (forall i :: 0 <= i < |s.workers| ==> (i in s.constructed <==> s.ready[i].SentOk?))
    && (forall i :: 0 <= i < |s.workers| && (s.workers[i].Unspawned? || s.workers[i].Constructing?) ==>
      s.ready[i].Open?)
    && match s.supervisor
       case NotRunning => s.frontier == 0
       case LoopHead(i) => s.frontier == i
       case CountSpawn(i) => s.frontier == i < |s.workers|
       case SpawnTask(i) => s.frontier == i < |s.workers|
       case AwaitReady(i) => s.frontier == i + 1
       case _ => true
  }

  /** The counters say exactly what happened to the workers. */
  ghost predicate CountsMatch(ws: seq<Worker>, c: Counters) {
    && c.started == Count(ws, HasBegun)
    && c.joined == Count(ws, IsJoined)
    && c.completed == Count(ws, JoinedWith(Completed))
    && c.failed == Count(ws, JoinedWith(Failed))
    && c.panicked == Count(ws, JoinedWith(Panicked))
    && c.aborted == Count(ws, JoinedWith(Aborted))
    && c.stoppedBeforeStart == Count(ws, JoinedWith(NotStarted))
  }

  /** The spawn counter runs at most one ahead, while a worker is being spawned. */
  ghost predicate SpawnCount(s: System) {
    && s.frontier <= s.counters.spawned <= |s.workers|
    && s.counters.spawned <= s.frontier + 1
    && (s.counters.spawned == s.frontier + 1 ==> s.supervisor.SpawnTask? || s.supervisor.Crashed?)
    && (s.supervisor.SpawnTask? ==> s.counters.spawned == s.frontier + 1)
  }

  ghost predicate Counting(s: System) {
    SpawnCount(s) && CountsMatch(s.workers, s.counters)
  }

  ghost predicate AllConstructed(s: System) {
    forall i :: 0 <= i < |s.workers| ==> i in s.constructed
  }

  /** Nothing starts before every constructor has succeeded. */
  ghost predicate Gated(s: System) {
    && (s.supervisor.LoopHead? || s.supervisor.CountSpawn? || s.supervisor.SpawnTask? || s.supervisor.AwaitReady? ==>
          forall j :: 0 <= j < s.supervisor.i ==> j in s.constructed)
    && (s.supervisor.MarkInitialized? || s.initialized ==> s.stopping || s.error.Some? || AllConstructed(s))
    && (s.start ==> AllConstructed(s))
  }

  /** Nothing begins before a start. */
  ghost predicate BegunAfterStart(s: System) {
    forall i :: 0 <= i < |s.workers| && (s.workers[i].Released? || HasBegun(s.workers[i])) ==> s.start
  }

  ghost predicate Starting(s: System) { Gated(s) && BegunAfterStart(s) }

  predicate PastSealing(v: Supervisor) {
    v.CountAborts? || v.AbortAll? || v.Aborting? || v.Draining? || v.Exited?
  }

  predicate PastServing(v: Supervisor) {
    v.ReadDeadlines? || v.Cooperative? || v.SealScopes? || PastSealing(v)
  }

  /** Whoever observes stopping also finds the deadlines. */
  ghost predicate Stopping(s: System) {
    && (s.stopping || s.lockHeld ==> s.deadlines.Some?)
    && (PastServing(s.supervisor) || s.forcing || s.force ==> s.stopping)
  }

  /** The supervisor leaves only with the scopes sealed and every task joined. */
  ghost predicate Ending(s: System) {
    && (PastSealing(s.supervisor) ==> s.scopes.sealed)
    && (s.supervisor.Draining? || s.supervisor.Exited? ==> AllJoined(s))
  }

  ghost predicate CountersReconcile(registered: nat, c: Counters) {
    && c.started <= c.spawned <= registered
    && c.joined <= c.spawned
    && c.joined == c.completed + c.failed + c.panicked + c.aborted + c.stoppedBeforeStart
  }

  ghost predicate SoundSnapshot(registered: nat, t: Snapshot) {
    && t.registered == registered
    && t.Reconciles() && t.outstanding >= 0
    && (t.supervisorJoined && !t.supervisorFailed ==> t.outstanding == 0 && t.scopes.sealed)
  }

  ghost predicate SoundObserver(s: System, b: Observer) {
    match b
    case OwnerRead(joined, failed) => joined && !failed ==> s.supervisor.Exited?
    case StateRead(joined, failed, c) =>
      && CountersReconcile(|s.workers|, c)
      && (joined && !failed ==> s.supervisor.Exited? && c.spawned == c.joined)
    case Taken(t) => SoundSnapshot(|s.workers|, t)
  }

  ghost predicate Observed(s: System) {
    forall o :: 0 <= o < |s.observers| ==> SoundObserver(s, s.observers[o])
  }

  ghost predicate Inv(s: System) {
    Shape(s) && Counting(s) && Starting(s) && Stopping(s) && Ending(s) && Observed(s) && Scopes.Conserved(s.scopes)
  }

  // ---------------------------------------------------------------- each step keeps the invariant

  lemma InitialInv(registered: nat)
    ensures Inv(Initial(registered))
  {
    var s := Initial(registered);
    NothingCounted(s.workers);
  }

  lemma {:induction false} NothingCounted(ws: seq<Worker>)
    requires forall i :: 0 <= i < |ws| ==> ws[i].Unspawned?
    ensures Count(ws, HasBegun) == Count(ws, IsJoined) == 0
    ensures forall outcome :: Count(ws, JoinedWith(outcome)) == 0
  {
    if ws != [] { NothingCounted(ws[..|ws| - 1]); }
  }

  lemma CountersAlwaysReconcile(s: System)
    requires Shape(s) && Counting(s)
    ensures CountersReconcile(|s.workers|, s.counters)
    ensures AllJoined(s) && s.supervisor.Exited? ==> s.counters.spawned == s.counters.joined
  {
    OutcomesAddUp(s.workers);
    SpawnedPrefix(s.workers, s.frontier);
    CountImplies(s.workers, HasBegun, IsSpawned);
    CountImplies(s.workers, IsJoined, IsSpawned);
    if AllJoined(s) { CountImplies(s.workers, IsSpawned, IsJoined); }
  }

  /** How the counts change when one worker is replaced. */
  lemma CountsUpdate(ws: seq<Worker>, c: Counters, i: nat, w: Worker, c': Counters)
    requires i < |ws| && CountsMatch(ws, c) && !ws[i].Joined?
    requires c'.started == c.started + (if HasBegun(w) then 1 else 0) - (if HasBegun(ws[i]) then 1 else 0)
    requires w.Joined? ==> c' == RecordJoin(c, w.outcome, c'.executionDeadlineMissed)
    requires !w.Joined? ==> c' == c.(started := c'.started)
    ensures CountsMatch(ws[i := w], c')
  {
    CountUpdate(ws, i, w, HasBegun);
    CountUpdate(ws, i, w, IsJoined);
    CountUpdate(ws, i, w, JoinedWith(Completed));
    CountUpdate(ws, i, w, JoinedWith(Failed));
    CountUpdate(ws, i, w, JoinedWith(Panicked));
    CountUpdate(ws, i, w, JoinedWith(Aborted));
    CountUpdate(ws, i, w, JoinedWith(NotStarted));
  }

  /** Counters that do not count workers may change freely. */
  lemma CountsIgnore(ws: seq<Worker>, c: Counters, spawned: nat, aborts: nat, missed: bool)
    requires CountsMatch(ws, c)
    ensures CountsMatch(ws, c.(spawned := spawned, abortRequested := aborts, executionDeadlineMissed := missed))
  {
  }

  /** Observers only depend on whether the supervisor has left, which is final. */
  lemma ObserversUnmoved(s: System, t: System)
    requires Observed(s) && t.observers == s.observers && |t.workers| == |s.workers|
    requires s.supervisor.Exited? ==> t.supervisor.Exited?
    ensures Observed(t)
  {
    forall o | 0 <= o < |t.observers| ensures SoundObserver(t, t.observers[o]) {
      assert SoundObserver(s, s.observers[o]);
    }
  }

  lemma WorkerKeepsShape(s: System, i: nat, a: WorkerAction)
    requires Shape(s) && WorkerEnabled(s, i, a)
    ensures Shape(WorkerNext(s, i, a))
  {
  }

  lemma WorkerKeepsStarting(s: System, i: nat, a: WorkerAction)
    requires Starting(s) && WorkerEnabled(s, i, a)
    ensures Starting(WorkerNext(s, i, a))
  {
  }

  lemma WorkerKeepsInv(s: System, i: nat, a: WorkerAction)
    requires Inv(s) && WorkerEnabled(s, i, a)
    ensures Inv(WorkerNext(s, i, a))
  {
    var t := WorkerNext(s, i, a);
    WorkerKeepsShape(s, i, a);
    WorkerKeepsStarting(s, i, a);
    CountsUpdate(s.workers, s.counters, i, t.workers[i], t.counters);
    assert t.workers == s.workers[i := t.workers[i]];
    assert !AllJoined(s);
    ObserversUnmoved(s, t);
  }

  /** Only spawning and joining touch the workers; the reports and constructions are theirs alone. */
  lemma SupervisorTouches(s: System, a: SupervisorAction)
    requires SupervisorEnabled(s, a)
    ensures var t := SupervisorNext(s, a);
            && t.ready == s.ready && t.constructed == s.constructed && t.start == s.start && t.stopping == s.stopping
            && |t.workers| == |s.workers|
            && (!a.Spawn? && !a.Join? ==> t.workers == s.workers)
            && (!a.Spawn? ==> t.frontier == s.frontier)
            && (!a.CountOne? && !a.Join? ==> t.counters.spawned == s.counters.spawned)
  {
    match a
    case Spawn =>
    case Join(_, _) =>
    case _ =>
  }

  lemma SupervisorKeepsShape(s: System, a: SupervisorAction)
    requires Shape(s) && SupervisorEnabled(s, a)
    ensures Shape(SupervisorNext(s, a))
  {
  }

  lemma SupervisorKeepsSpawnCount(s: System, a: SupervisorAction)
    requires Shape(s) && SpawnCount(s) && SupervisorEnabled(s, a)
    ensures SpawnCount(SupervisorNext(s, a))
  {
    SupervisorTouches(s, a);
  }

  lemma SupervisorKeepsCounts(s: System, a: SupervisorAction)
    requires Shape(s) && CountsMatch(s.workers, s.counters) && SupervisorEnabled(s, a)
    ensures CountsMatch(SupervisorNext(s, a).workers, SupervisorNext(s, a).counters)
  {
    var t, c := SupervisorNext(s, a), s.counters;
    match a
    case Spawn => CountsUpdate(s.workers, c, s.supervisor.i, Constructing, c);
    case Join(i, _) => CountsUpdate(s.workers, c, i, t.workers[i], t.counters);
    case CountOne => CountsIgnore(s.workers, c, t.counters.spawned, c.abortRequested, c.executionDeadlineMissed);
    case CountAborted => CountsIgnore(s.workers, c, c.spawned, t.counters.abortRequested, c.executionDeadlineMissed);
    case ExecutionDeadline => CountsIgnore(s.workers, c, c.spawned, c.abortRequested, true);
    case _ => assert t.workers == s.workers && t.counters == c;
  }

  lemma SupervisorKeepsGated(s: System, a: SupervisorAction)
    requires Shape(s) && Gated(s) && SupervisorEnabled(s, a)
    ensures Gated(SupervisorNext(s, a))
  {
    SupervisorTouches(s, a);
  }

  lemma SupervisorKeepsBegun(s: System, a: SupervisorAction)
    requires BegunAfterStart(s) && SupervisorEnabled(s, a)
    ensures BegunAfterStart(SupervisorNext(s, a))
  {
    SupervisorTouches(s, a);
  }

  /** With deadlines fixed before stopping is visible, the supervisor never fails to find them. */
  lemma SupervisorKeepsStopping(s: System, a: SupervisorAction)
    requires Stopping(s) && SupervisorEnabled(s, a)
    ensures Stopping(SupervisorNext(s, a))
    ensures a.FindDeadlines? ==> SupervisorNext(s, a).supervisor.Cooperative?
  {
  }

  lemma SupervisorKeepsEnding(s: System, a: SupervisorAction)
    requires Ending(s) && SupervisorEnabled(s, a)
    ensures Ending(SupervisorNext(s, a))
  {
    SupervisorTouches(s, a);
  }

  lemma SupervisorKeepsObservers(s: System, a: SupervisorAction)
    requires SupervisorEnabled(s, a) && Observed(s)
    ensures Observed(SupervisorNext(s, a))
  {
    var t := SupervisorNext(s, a);
    assert t.observers == s.observers;
    assert |t.workers| == |s.workers|;
    ObserversUnmoved(s, t);
  }

  lemma SupervisorKeepsScopes(s: System, a: SupervisorAction)
    requires SupervisorEnabled(s, a) && Scopes.Conserved(s.scopes)
    ensures Scopes.Conserved(SupervisorNext(s, a).scopes)
  {
    if a.SealAll? {
      Scopes.SealingKeepsConserved(s.scopes);
    } else {
      assert SupervisorNext(s, a).scopes == s.scopes;
    }
  }

  lemma SupervisorKeepsInv(s: System, a: SupervisorAction)
    requires Inv(s) && SupervisorEnabled(s, a)
    ensures Inv(SupervisorNext(s, a))
  {
    SupervisorKeepsShape(s, a);
    SupervisorKeepsSpawnCount(s, a);
    SupervisorKeepsCounts(s, a);
    SupervisorKeepsGated(s, a);
    SupervisorKeepsBegun(s, a);
    SupervisorKeepsStopping(s, a);
    SupervisorKeepsEnding(s, a);
    SupervisorKeepsObservers(s, a);
    SupervisorKeepsScopes(s, a);
  }

  lemma HostKeepsWork(s: System, a: HostAction)
    requires HostEnabled(s, a)
    ensures var t := HostNext(s, a);
            && t.workers == s.workers && t.ready == s.ready
            && t.constructed == s.constructed && t.frontier == s.frontier
            && t.counters == s.counters && t.observers == s.observers
            && (t.supervisor == s.supervisor || (s.supervisor.NotRunning? && t.supervisor == LoopHead(0)))
            && t.initialized == s.initialized && t.error == s.error
  {
    match a
    case EnsureOwner =>
    case Start =>
    case ShutdownLock(_) =>
    case ShutdownCancel =>
    case ForceSeal =>
    case ForceCancel =>
  }

  lemma HostKeepsFlags(s: System, a: HostAction)
    requires HostEnabled(s, a)
    ensures var t := HostNext(s, a);
            && (t.scopes == s.scopes || t.scopes == Sealed(s.scopes))
            && (s.stopping ==> t.stopping)
            && (s.start ==> t.start)
            && (t.start ==> s.start || StartSucceeds(s))
  {
    match a
    case EnsureOwner =>
    case Start =>
    case ShutdownLock(_) =>
    case ShutdownCancel =>
    case ForceSeal =>
    case ForceCancel =>
  }

  lemma HostKeepsStopping(s: System, a: HostAction)
    requires HostEnabled(s, a) && Stopping(s)
    ensures Stopping(HostNext(s, a))
  {
    match a
    case EnsureOwner =>
    case Start =>
    case ShutdownLock(_) =>
    case ShutdownCancel =>
    case ForceSeal =>
    case ForceCancel =>
  }

  lemma HostKeepsInv(s: System, a: HostAction)
    requires Inv(s) && HostEnabled(s, a)
    ensures Inv(HostNext(s, a))
  {
    var t := HostNext(s, a);
    HostKeepsWork(s, a);
    HostKeepsFlags(s, a);
    HostKeepsStopping(s, a);
    UnchangedWork(s, t);
    Scopes.SealingKeepsConserved(s.scopes);
    ObserversUnmoved(s, t);
  }

  /** What depends only on the work done so far, and on flags that were only raised. */
  lemma UnchangedWork(s: System, t: System)
    requires Shape(s) && Counting(s) && Starting(s) && Ending(s)
    requires t.workers == s.workers && t.ready == s.ready && t.constructed == s.constructed && t.frontier == s.frontier
    requires t.counters == s.counters && t.initialized == s.initialized && t.error == s.error
    requires t.supervisor == s.supervisor || (s.supervisor.NotRunning? && t.supervisor == LoopHead(0))
    requires (s.stopping ==> t.stopping) && (s.start ==> t.start) && (t.start ==> s.start || StartSucceeds(s))
    requires s.scopes.sealed ==> t.scopes.sealed
    ensures Shape(t) && Counting(t) && Starting(t) && Ending(t)
  {
  }

  lemma ScopeKeepsInv(s: System, step: Scopes.Step)
    requires Inv(s)
    ensures Inv(s.(scopes := Scopes.Next(s.scopes, step)))
  {
    Scopes.StepKeepsConserved(s.scopes, step);
    ObserversUnmoved(s, s.(scopes := Scopes.Next(s.scopes, step)));
  }

  lemma NewReading(s: System, o: nat, b: Observer)
    requires Observed(s) && o <= |s.observers| && SoundObserver(s, b)
    ensures o < |s.observers| ==> Observed(s.(observers := s.observers[o := b]))
    ensures o == |s.observers| ==> Observed(s.(observers := s.observers + [b]))
  {
  }

  lemma StateReading(s: System, o: nat)
    requires Shape(s) && Counting(s) && Ending(s) && Observed(s) && ObserverEnabled(s, ReadState(o))
    ensures SoundObserver(s, StateRead(s.observers[o].joined, s.observers[o].failed, s.counters))
  {
    assert SoundObserver(s, s.observers[o]);
    CountersAlwaysReconcile(s);
  }

  lemma ScopeReading(s: System, o: nat, polled: Scopes.Polled)
    requires Observed(s) && Ending(s) && Scopes.Conserved(s.scopes) && ObserverEnabled(s, ReadScopes(o, polled))
    ensures var t := ObserverNext(s, ReadScopes(o, polled)); SoundObserver(s, t.observers[o])
  {
    var t := ObserverNext(s, ReadScopes(o, polled));
    assert SoundObserver(s, s.observers[o]);
    Scopes.StepKeepsConserved(s.scopes, Scopes.TakeSnapshot(polled));
    Scopes.ConservedReconciles(t.scopes);
  }

  /** The three reads happen at different times, yet the assembled snapshot is sound. */
  lemma ObserverKeepsObserved(s: System, a: ObserverAction)
    requires Shape(s) && Counting(s) && Ending(s) && Observed(s) && Scopes.Conserved(s.scopes) && ObserverEnabled(s, a)
    ensures Observed(ObserverNext(s, a))
  {
    var t := ObserverNext(s, a);
    match a
    case ReadOwner =>
      NewReading(s, |s.observers|, t.observers[|s.observers|]);
    case ReadState(o) =>
      StateReading(s, o);
      NewReading(s, o, t.observers[o]);
    case ReadScopes(o, polled) =>
      ScopeReading(s, o, polled);
      NewReading(s, o, t.observers[o]);
      ObserversUnmoved(s.(observers := t.observers), t);
  }

  lemma ObserverKeepsRest(s: System, a: ObserverAction)
    requires ObserverEnabled(s, a) && Scopes.Conserved(s.scopes)
    ensures var t := ObserverNext(s, a);
            && t == s.(observers := t.observers, scopes := t.scopes)
            && Scopes.Conserved(t.scopes) && t.scopes.sealed == s.scopes.sealed
  {
    if a.ReadScopes? { Scopes.StepKeepsConserved(s.scopes, Scopes.TakeSnapshot(a.polled)); }
  }

  lemma ObserverKeepsInv(s: System, a: ObserverAction)
    requires Inv(s) && ObserverEnabled(s, a)
    ensures Inv(ObserverNext(s, a))
  {
    ObserverKeepsObserved(s, a);
    ObserverKeepsRest(s, a);
    UnchangedWork(s, ObserverNext(s, a));
  }

  lemma StepKeepsInv(s: System, a: Action)
    requires Inv(s) && Enabled(s, a)
    ensures Inv(Next(s, a))
  {
    match a
    case OfWorker(i, w) => WorkerKeepsInv(s, i, w);
    case OfSupervisor(v) => SupervisorKeepsInv(s, v);
    case OfHost(h) => HostKeepsInv(s, h);
    case OfObserver(o) => ObserverKeepsInv(s, o);
    case OfScope(step) => ScopeKeepsInv(s, step);
  }

  lemma {:induction false} RunKeepsInv(s: System, run: seq<Action>)
    requires Inv(s) && IsRun(s, run)
    ensures Inv(After(s, run))
    decreases |run|
  {
    if run != [] {
      StepKeepsInv(s, run[0]);
      RunKeepsInv(Next(s, run[0]), run[1..]);
    }
  }

  // ---------------------------------------------------------------- what holds over whole runs

  /**
    In every interleaving, every snapshot assembled from the three reads reconciles without
    underflow, and one that shows the supervisor joined without panic has nothing outstanding
    and its scopes sealed.
    */
  lemma {:induction false} EverySnapshotIsSound(registered: nat, run: seq<Action>)
    requires IsRun(Initial(registered), run)
    ensures SnapshotsSound(After(Initial(registered), run))
  {
    InitialInv(registered);
    RunKeepsInv(Initial(registered), run);
    ObservedSnapshots(After(Initial(registered), run));
  }

  ghost predicate SnapshotsSound(s: System) {
    forall o :: 0 <= o < |s.observers| && s.observers[o].Taken? ==> SoundSnapshot(|s.workers|, s.observers[o].snapshot)
  }

  lemma ObservedSnapshots(s: System)
    requires Observed(s)
    ensures SnapshotsSound(s)
  {
  }

  lemma {:induction false} NoneBegun(ws: seq<Worker>)
    requires forall i :: 0 <= i < |ws| ==> !HasBegun(ws[i])
    ensures Count(ws, HasBegun) == 0
  {
    if ws != [] { NoneBegun(ws[..|ws| - 1]); }
  }

  /** No worker begins executing unless a start succeeded, and a start succeeds only after every constructor did. */
  lemma NothingBeginsUnstarted(s: System)
    requires Inv(s)
    ensures StartSucceeds(s) ==> AllConstructed(s)
    ensures s.start ==> AllConstructed(s)
    ensures !s.start ==> s.counters.started == 0
  {
    if !s.start { NoneBegun(s.workers); }
  }

  ghost predicate ExecutionGuarded(s: System) {
    && (s.counters.started > 0 ==> s.start)
    && (s.start || StartSucceeds(s) ==> AllConstructed(s))
  }

  /** In every interleaving nothing executes unless a start succeeded, and then every constructor had. */
  lemma {:induction false} ExecutionNeedsStart(registered: nat, run: seq<Action>)
    requires IsRun(Initial(registered), run)
    ensures ExecutionGuarded(After(Initial(registered), run))
  {
    var s := Initial(registered);
    InitialInv(registered);
    RunKeepsInv(s, run);
    GuardedByInv(After(s, run));
  }

  lemma GuardedByInv(s: System)
    requires Inv(s)
    ensures ExecutionGuarded(s)
  {
    NothingBeginsUnstarted(s);
  }

  ghost predicate SameHostState(s: System, t: System) {
    t.stopping == s.stopping && t.lockHeld == s.lockHeld && t.start == s.start && t.deadlines == s.deadlines
  }

  ghost predicate ReportsKept(s: System, t: System) {
    |t.ready| == |s.ready| && forall i :: 0 <= i < |s.ready| && s.ready[i].SentErr? ==> t.ready[i].SentErr?
  }

  lemma WorkerFrame(s: System, i: nat, a: WorkerAction)
    requires Shape(s) && WorkerEnabled(s, i, a)
    ensures SameHostState(s, WorkerNext(s, i, a)) && ReportsKept(s, WorkerNext(s, i, a))
  {
  }

  lemma SupervisorFrame(s: System, a: SupervisorAction)
    requires SupervisorEnabled(s, a)
    ensures SameHostState(s, SupervisorNext(s, a)) && SupervisorNext(s, a).ready == s.ready
  {
    match a
    case Join(_, _) =>
    case _ =>
  }

  lemma HostFrame(s: System, a: HostAction)
    requires HostEnabled(s, a)
    ensures var t := HostNext(s, a);
            && t.ready == s.ready
            && (s.stopping || s.lockHeld ==> t.stopping || t.lockHeld)
            && ((s.stopping || s.lockHeld) && !s.start ==> !t.start)
            && (s.deadlines.Some? ==> t.deadlines == s.deadlines)
  {
    match a
    case EnsureOwner =>
    case Start =>
    case ShutdownLock(_) =>
    case ShutdownCancel =>
    case ForceSeal =>
    case ForceCancel =>
  }

  lemma ObserverFrame(s: System, a: ObserverAction)
    requires ObserverEnabled(s, a)
    ensures SameHostState(s, ObserverNext(s, a)) && ObserverNext(s, a).ready == s.ready
  {
  }

  lemma StepFrame(s: System, a: Action)
    requires Shape(s) && Enabled(s, a)
    ensures ReportsKept(s, Next(s, a)) && (SameHostState(s, Next(s, a)) || a.OfHost?)
  {
    match a
    case OfWorker(i, w) => WorkerFrame(s, i, w);
    case OfSupervisor(v) => SupervisorFrame(s, v);
    case OfHost(h) => HostFrame(s, h);
    case OfObserver(o) => ObserverFrame(s, o);
    case OfScope(_) =>
  }

  /** The deadlines given first are kept, and a shutdown begun before `start` prevents any execution. */
  lemma {:induction false} ShutdownIsFinal(s: System, run: seq<Action>)
    requires Inv(s) && IsRun(s, run)
    ensures s.deadlines.Some? ==> After(s, run).deadlines == s.deadlines
    ensures (s.stopping || s.lockHeld) && !s.start ==> !After(s, run).start && After(s, run).counters.started == 0
    decreases |run|
  {
    if run == [] {
      NothingBeginsUnstarted(s);
    } else {
      StepKeepsInv(s, run[0]);
      StepFrame(s, run[0]);
      if run[0].OfHost? { HostFrame(s, run[0].host); }
      ShutdownIsFinal(Next(s, run[0]), run[1..]);
    }
  }

  ghost predicate ConstructorFailed(s: System) {
    exists i :: 0 <= i < |s.ready| && s.ready[i].SentErr?
  }

  /** Once any constructor has failed, nothing ever executes. */
  lemma {:induction false} ConstructorFailureIsFinal(s: System, run: seq<Action>)
    requires Inv(s) && IsRun(s, run) && ConstructorFailed(s)
    ensures !After(s, run).start && After(s, run).counters.started == 0
    decreases |run|
  {
    if run == [] {
      var i :| 0 <= i < |s.ready| && s.ready[i].SentErr?;
      assert i !in s.constructed;
      NothingBeginsUnstarted(s);
    } else {
      StepKeepsInv(s, run[0]);
      StepFrame(s, run[0]);
      assert ConstructorFailed(Next(s, run[0])) by {
        var i :| 0 <= i < |s.ready| && s.ready[i].SentErr?;
        assert Next(s, run[0]).ready[i].SentErr?;
      }
      ConstructorFailureIsFinal(Next(s, run[0]), run[1..]);
    }
  }

  // ---------------------------------------------------------------- a terminal snapshot is final

  predicate Left(v: Supervisor) { v.Exited? || v.Crashed? }

  predicate NoneRunning(s: System) { Left(s.supervisor) && AllJoined(s) }

  predicate NoScopes(l: Scopes.Ledger) { l.sealed && l.scopes == map[] }

  /** What a reading promises about the system from then on. */
  ghost predicate FinalReading(s: System, b: Observer) {
    match b
    case OwnerRead(joined, _) => joined ==> Left(s.supervisor)
    case StateRead(joined, _, c) => joined ==> Left(s.supervisor) && (c.spawned == c.joined ==> NoneRunning(s))
    case Taken(t) => t.IsTerminal() ==> NoneRunning(s) && NoScopes(s.scopes)
  }

  ghost predicate Finality(s: System) {
    forall o :: 0 <= o < |s.observers| ==> FinalReading(s, s.observers[o])
  }

  /** Whatever has come to an end stays so. */
  ghost predicate Settles(s: System, t: System) {
    && (Left(s.supervisor) ==> Left(t.supervisor))
    && (NoneRunning(s) ==> NoneRunning(t))
    && (NoScopes(s.scopes) ==> NoScopes(t.scopes))
  }

  lemma ReadingsSettle(s: System, t: System)
    requires Finality(s) && Settles(s, t) && t.observers == s.observers
    ensures Finality(t)
  {
  }

  lemma WorkerSettles(s: System, i: nat, a: WorkerAction)
    requires WorkerEnabled(s, i, a)
    ensures Settles(s, WorkerNext(s, i, a)) && WorkerNext(s, i, a).observers == s.observers
  {
    assert !AllJoined(s);
  }

  lemma SupervisorSettles(s: System, a: SupervisorAction)
    requires SupervisorEnabled(s, a)
    ensures Settles(s, SupervisorNext(s, a)) && SupervisorNext(s, a).observers == s.observers
  {
    StillThere(s, a);
    SupervisorScopes(s, a);
  }

  lemma StillThere(s: System, a: SupervisorAction)
    requires SupervisorEnabled(s, a)
    ensures !Left(s.supervisor)
  {
  }

  lemma SupervisorScopes(s: System, a: SupervisorAction)
    requires SupervisorEnabled(s, a)
    ensures SupervisorNext(s, a).scopes == (if a.SealAll? then Sealed(s.scopes) else s.scopes)
    ensures SupervisorNext(s, a).observers == s.observers
  {
  }

  lemma HostSettles(s: System, a: HostAction)
    requires HostEnabled(s, a)
    ensures Settles(s, HostNext(s, a)) && HostNext(s, a).observers == s.observers
  {
  }

  lemma ScopesSettle(l: Scopes.Ledger, step: Scopes.Step)
    requires NoScopes(l)
    ensures NoScopes(Scopes.Next(l, step))
  {
  }

  lemma {:induction false} CountsCoincide(ws: seq<Worker>, p: Worker -> bool, q: Worker -> bool)
    requires (forall i :: 0 <= i < |ws| && p(ws[i]) ==> q(ws[i])) && Count(ws, p) >= Count(ws, q)
    ensures forall i :: 0 <= i < |ws| && q(ws[i]) ==> p(ws[i])
  {
    if ws != [] {
      var last := |ws| - 1;
      CountImplies(ws[..last], p, q);
      CountsCoincide(ws[..last], p, q);
      forall i | 0 <= i < |ws| && q(ws[i]) ensures p(ws[i]) {
        if i < last { assert ws[..last][i] == ws[i]; }
      }
    }
  }

  /** When as many tasks were joined as spawned, every task was joined. */
  lemma BalanceMeansJoined(s: System)
    requires Shape(s) && Counting(s) && s.counters.spawned == s.counters.joined
    ensures AllJoined(s)
  {
    SpawnedPrefix(s.workers, s.frontier);
    CountsCoincide(s.workers, IsJoined, IsSpawned);
    forall i | 0 <= i < |s.workers| ensures s.workers[i].Unspawned? || s.workers[i].Joined? {
      assert IsSpawned(s.workers[i]) ==> IsJoined(s.workers[i]);
    }
  }

  lemma NewFinalReading(s: System, t: System, o: nat, b: Observer)
    requires Finality(s) && Settles(s, t) && FinalReading(t, b) && o <= |s.observers|
    requires t.observers == if o < |s.observers| then s.observers[o := b] else s.observers + [b]
    ensures Finality(t)
  {
  }

  lemma ObserverKeepsFinality(s: System, a: ObserverAction)
    requires Shape(s) && Counting(s) && Finality(s) && ObserverEnabled(s, a)
    ensures Finality(ObserverNext(s, a))
  {
    var t := ObserverNext(s, a);
    match a
    case ReadOwner =>
      NewFinalReading(s, t, |s.observers|, t.observers[|s.observers|]);
    case ReadState(o) =>
      assert FinalReading(s, s.observers[o]);
      if s.counters.spawned == s.counters.joined { BalanceMeansJoined(s); }
      NewFinalReading(s, t, o, t.observers[o]);
    case ReadScopes(o, polled) =>
      assert FinalReading(s, s.observers[o]);
      if NoScopes(s.scopes) { ScopesSettle(s.scopes, Scopes.TakeSnapshot(polled)); }
      NewFinalReading(s, t, o, t.observers[o]);
  }

  lemma StepKeepsFinality(s: System, a: Action)
    requires Shape(s) && Counting(s) && Finality(s) && Enabled(s, a)
    ensures Finality(Next(s, a))
  {
    match a
    case OfWorker(i, w) => WorkerSettles(s, i, w); ReadingsSettle(s, Next(s, a));
    case OfSupervisor(v) => SupervisorSettles(s, v); ReadingsSettle(s, Next(s, a));
    case OfHost(h) => HostSettles(s, h); ReadingsSettle(s, Next(s, a));
    case OfObserver(o) => ObserverKeepsFinality(s, o);
    case OfScope(step) =>
      if NoScopes(s.scopes) { ScopesSettle(s.scopes, step); }
      ReadingsSettle(s, Next(s, a));
  }

  lemma {:induction false} RunKeepsFinality(s: System, run: seq<Action>)
    requires Inv(s) && Finality(s) && IsRun(s, run)
    ensures Finality(After(s, run))
    decreases |run|
  {
    if run != [] {
      StepKeepsInv(s, run[0]);
      StepKeepsFinality(s, run[0]);
      RunKeepsFinality(Next(s, run[0]), run[1..]);
    }
  }

  ghost predicate TerminalMeansOver(s: System) {
    forall o :: 0 <= o < |s.observers| && s.observers[o].Taken? && s.observers[o].snapshot.IsTerminal() ==>
      NoneRunning(s) && NoScopes(s.scopes)
  }

  lemma FinalSnapshots(s: System)
    requires Finality(s)
    ensures TerminalMeansOver(s)
  {
  }

  /**
    In every interleaving, once any snapshot was terminal the runtime is over for good: the
    supervisor has left, no worker task runs or ever will, and no scope is or ever will be live.
    */
  lemma {:induction false} TerminalIsFinal(registered: nat, start: System, run: seq<Action>)
    requires start == Initial(registered) && IsRun(start, run)
    ensures TerminalMeansOver(After(start, run))
  {
    InitialInv(registered);
    TerminalFrom(start, run);
  }

  lemma TerminalFrom(s: System, run: seq<Action>)
    requires Inv(s) && s.observers == [] && IsRun(s, run)
    ensures TerminalMeansOver(After(s, run))
  {
    RunKeepsFinality(s, run);
    FinalSnapshots(After(s, run));
  }
}
