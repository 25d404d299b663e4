/**
  Which endings the runtime can come to. For every ending that the rules allow, a run of all
  parties leads to it and to a terminal snapshot that counts it; and no run ends otherwise.
  */
module BackgroundEndings {
  import opened Wrappers
  import opened BackgroundRuntime
  import Scopes = ScopeLedger

  // ---------------------------------------------------------------- runs put together

  ghost predicate Reaches(o: System, s: System) {
    exists run :: IsRun(o, run) && After(o, run) == s
  }

  lemma {:induction false} RunThenStep(s: System, run: seq<Action>, a: Action)
    requires IsRun(s, run) && Enabled(After(s, run), a)
    ensures IsRun(s, run + [a]) && After(s, run + [a]) == Next(After(s, run), a)
    decreases |run|
  {
    if run == [] {
      assert run + [a] == [a] && [a][1..] == [];
    } else {
      RunThenStep(Next(s, run[0]), run[1..], a);
      assert (run + [a])[1..] == run[1..] + [a];
    }
  }

  lemma ReachesItself(o: System)
    ensures Reaches(o, o)
  {
    assert IsRun(o, []) && After(o, []) == o;
  }

  lemma Go(o: System, s: System, a: Action) returns (t: System)
    requires Reaches(o, s) && Enabled(s, a)
    ensures t == Next(s, a) && Reaches(o, t)
  {
    t := Next(s, a);
    var run :| IsRun(o, run) && After(o, run) == s;
    RunThenStep(o, run, a);
  }

  // ---------------------------------------------------------------- endings

  /** How a worker can end that was constructed while nobody failed. */
  predicate Possible(w: Worker) {
    && w.Joined?
    && (w.outcome.Completed? || w.outcome.Failed? ==> w.begun)
    && (w.outcome.NotStarted? ==> !w.begun)
  }

  /** The first `f` workers were spawned, nobody began, and only the last of them may have failed. */
  ghost predicate EndsEarly(ends: seq<Worker>, f: nat) {
    && f <= |ends|
    && (forall i :: 0 <= i < f ==> ends[i].Joined? && !ends[i].begun && !ends[i].outcome.Completed?)
    && (forall i :: 0 <= i < f && ends[i].outcome.Failed? ==> i == f - 1)
    && (forall i :: f <= i < |ends| ==> ends[i].Unspawned?)
  }

  ghost predicate AllPossible(ends: seq<Worker>) {
    forall i :: 0 <= i < |ends| ==> Possible(ends[i])
  }

  ghost predicate Legal(ends: seq<Worker>) {
    AllPossible(ends) || exists f: nat :: EndsEarly(ends, f)
  }

  predicate EndsWith(s: System, ends: seq<Worker>) { s.supervisor.Exited? && s.workers == ends }

  ghost predicate CanEnd(ends: seq<Worker>) {
    exists start, run :: start == Initial(|ends|) && IsRun(start, run) && EndsWith(After(start, run), ends)
  }

  // ---------------------------------------------------------------- no other endings

  predicate InLoop(v: Supervisor) { v.NotRunning? || v.LoopHead? || v.CountSpawn? || v.SpawnTask? }

  /** Who is being constructed, or has failed at it, was spawned last, and nobody is spawned after a failure. */
  ghost predicate LastSpawned(s: System) {
    && |s.ready| == |s.workers|
    && forall i :: 0 <= i < |s.workers| && (s.workers[i].Constructing? || s.ready[i].SentErr?) ==>
         i + 1 == s.frontier && !InLoop(s.supervisor)
  }

  /** Why a worker ended as it did; one that reported a fault ended with it, before it could begin. */
  predicate Explained(w: Worker, r: Ready) {
    && (w.Done? || w.Joined? ==>
          && (w.outcome.Completed? ==> w.begun)
          && (w.outcome.NotStarted? ==> !w.begun)
          && (w.outcome.Failed? && !w.begun ==> r.SentErr?))
    && (r.SentErr? ==>
          && (w.Done? || w.Joined?) && !w.begun
          && w.outcome == if r.fault.InitializationPanicked? then Panicked else Failed)
  }

  ghost predicate AllExplained(s: System) {
    |s.ready| == |s.workers| && forall i :: 0 <= i < |s.workers| ==> Explained(s.workers[i], s.ready[i])
  }

  lemma WorkerKeepsEndings(s: System, i: nat, a: WorkerAction)
    requires LastSpawned(s) && AllExplained(s) && WorkerEnabled(s, i, a)
    ensures LastSpawned(WorkerNext(s, i, a)) && AllExplained(WorkerNext(s, i, a))
  {
    match a
    case ConstructOk =>
    case ConstructErr(_) =>
    case _ =>
  }

  lemma SupervisorKeepsLast(s: System, a: SupervisorAction)
    requires Shape(s) && LastSpawned(s) && SupervisorEnabled(s, a)
    ensures LastSpawned(SupervisorNext(s, a))
  {
    SupervisorTouches(s, a);
    if InLoop(SupervisorNext(s, a).supervisor) { LoopLeft(s, a); }
    match a
    case Spawn =>
    case Join(_, _) =>
    case _ =>
  }

  /** The loop is entered again only when the worker spawned last has reported success. */
  lemma LoopLeft(s: System, a: SupervisorAction)
    requires SupervisorEnabled(s, a) && InLoop(SupervisorNext(s, a).supervisor)
    ensures InLoop(s.supervisor) || (a.ReceiveReady? && s.ready[s.supervisor.i].SentOk?)
  {
    match a
    case ReceiveReady =>
    case _ =>
  }

  lemma SupervisorKeepsExplained(s: System, a: SupervisorAction)
    requires Shape(s) && AllExplained(s) && SupervisorEnabled(s, a)
    ensures AllExplained(SupervisorNext(s, a))
  {
    SupervisorTouches(s, a);
    match a
    case Spawn =>
    case Join(_, _) =>
    case _ =>
  }

  lemma StepKeepsEndings(s: System, a: Action)
    requires Shape(s) && LastSpawned(s) && AllExplained(s) && Enabled(s, a)
    ensures LastSpawned(Next(s, a)) && AllExplained(Next(s, a))
  {
    match a
    case OfWorker(i, w) => WorkerKeepsEndings(s, i, w);
    case OfSupervisor(v) => SupervisorKeepsLast(s, v); SupervisorKeepsExplained(s, v);
    case OfHost(h) => HostKeepsWork(s, h);
    case OfObserver(o) => ObserverMovesNobody(s, o);
    case OfScope(_) =>
  }

  lemma ObserverMovesNobody(s: System, a: ObserverAction)
    requires ObserverEnabled(s, a)
    ensures var t := ObserverNext(s, a);
            t.workers == s.workers && t.ready == s.ready && t.frontier == s.frontier && t.supervisor == s.supervisor
  {
    match a
    case ReadOwner =>
    case _ =>
  }

  lemma {:induction false} RunKeepsEndings(s: System, run: seq<Action>)
    requires Inv(s) && LastSpawned(s) && AllExplained(s) && IsRun(s, run)
    ensures LastSpawned(After(s, run)) && AllExplained(After(s, run))
    decreases |run|
  {
    if run != [] {
      StepKeepsInv(s, run[0]);
      StepKeepsEndings(s, run[0]);
      RunKeepsEndings(Next(s, run[0]), run[1..]);
    }
  }

  lemma EndingIsLegal(s: System)
    requires Inv(s) && LastSpawned(s) && AllExplained(s) && s.supervisor.Exited?
    ensures Legal(s.workers)
  {
    assert AllJoined(s);
    if s.start {
      forall i | 0 <= i < |s.workers| ensures Possible(s.workers[i]) {
        assert i in s.constructed && s.ready[i].SentOk?;
        assert Explained(s.workers[i], s.ready[i]);
      }
    } else {
      forall i | 0 <= i < s.frontier
        ensures s.workers[i].Joined? && !s.workers[i].begun && !s.workers[i].outcome.Completed?
        ensures s.workers[i].outcome.Failed? ==> i == s.frontier - 1
      {
        assert Explained(s.workers[i], s.ready[i]) && !HasBegun(s.workers[i]);
      }
      assert EndsEarly(s.workers, s.frontier);
    }
  }

  /** In every run a worker whose constructor reported a fault has ended, failed or panicked as it reported. */
  lemma FaultsAreEndings(registered: nat, start: System, run: seq<Action>)
    requires start == Initial(registered) && IsRun(start, run)
    ensures AllExplained(After(start, run))
  {
    InitialInv(registered);
    FreshExplained(start, registered);
    RunKeepsEndings(start, run);
  }

  lemma EveryEndingIsLegal(registered: nat, start: System, run: seq<Action>)
    requires start == Initial(registered) && IsRun(start, run) && After(start, run).supervisor.Exited?
    ensures Legal(After(start, run).workers)
  {
    InitialInv(registered);
    FreshExplained(start, registered);
    EndedLegally(start, run);
  }

  lemma FreshExplained(s: System, registered: nat)
    requires s == Initial(registered)
    ensures LastSpawned(s) && AllExplained(s)
  {
  }

  lemma EndedLegally(s: System, run: seq<Action>)
    requires Inv(s) && LastSpawned(s) && AllExplained(s) && IsRun(s, run) && After(s, run).supervisor.Exited?
    ensures Legal(After(s, run).workers)
  {
    RunKeepsInv(s, run);
    RunKeepsEndings(s, run);
    EndingIsLegal(After(s, run));
  }

  // ---------------------------------------------------------------- spawning

  /** Nothing has been asked of the runtime from outside. */
  predicate Calm(s: System, n: nat) {
    && |s.workers| == n && |s.ready| == n
    && !s.lockHeld && !s.abortSent && !s.forcing && !s.force && s.scopes.scopes == map[] && s.observers == []
    && s.counters.abortRequested == 0 && !s.counters.executionDeadlineMissed
  }

  predicate Unstopped(s: System) { !s.stopping && s.deadlines.None? && !s.start && s.starts == [] }

  /** The first `k` workers wait for the start. */
  ghost predicate SpawnedTo(s: System, n: nat, k: nat) {
    && Calm(s, n) && Unstopped(s) && k <= n && s.error.None? && !s.initialized && s.supervisor == LoopHead(k)
    && (forall i :: 0 <= i < k ==> s.workers[i] == AwaitingStart)
    && (forall i :: k <= i < n ==> s.workers[i] == Unspawned && s.ready[i] == Open)
  }

  /** The next worker is being constructed. */
  lemma Spawning(o: System, s: System, n: nat, k: nat) returns (t: System)
    requires Reaches(o, s) && SpawnedTo(s, n, k) && k < n
    ensures Reaches(o, t) && Calm(t, n) && Unstopped(t) && t.error.None? && !t.initialized
    ensures t.supervisor == AwaitReady(k) && t.workers == s.workers[k := Constructing] && t.ready == s.ready
  {
    t := Go(o, s, OfSupervisor(CheckLoop));
    t := Go(o, t, OfSupervisor(CountOne));
    t := Go(o, t, OfSupervisor(Spawn));
  }

  lemma SpawnOne(o: System, s: System, n: nat, k: nat) returns (t: System)
    requires Reaches(o, s) && SpawnedTo(s, n, k) && k < n
    ensures Reaches(o, t) && SpawnedTo(t, n, k + 1)
  {
    t := Spawning(o, s, n, k);
    t := Go(o, t, OfWorker(k, ConstructOk));
    t := Go(o, t, OfSupervisor(ReceiveReady));
  }

  lemma {:induction false} SpawnAll(o: System, s: System, n: nat, j: nat, k: nat) returns (t: System)
    requires Reaches(o, s) && SpawnedTo(s, n, j) && j <= k <= n
    ensures Reaches(o, t) && SpawnedTo(t, n, k)
    decreases k - j
  {
    t := s;
    if j < k {
      t := SpawnOne(o, s, n, j);
      t := SpawnAll(o, t, n, j + 1, k);
    }
  }

  // ---------------------------------------------------------------- serving

  ghost predicate Served(s: System, ends: seq<Worker>, k: nat) {
    && Calm(s, |ends|) && s.supervisor.Serving? && !s.stopping && s.deadlines.None? && s.start && s.starts == [Started]
    && k <= |ends|
    && (forall i :: 0 <= i < k ==> Awaits(s.workers[i], ends[i]))
    && (forall i :: k <= i < |ends| ==> s.workers[i] == AwaitingStart)
  }

  /** Where a worker stands at the shutdown that is to end in the given way. */
  predicate Awaits(w: Worker, end: Worker) {
    || Settled(w, end)
    || (end.Joined? && !end.begun && (end.outcome.NotStarted? || end.outcome.Panicked?) && w == AwaitingStart)
    || (end == Joined(Failed, false) && w == Done(Failed, false))
  }

  /** Where a worker stands when only the aborts are left to do. */
  predicate Settled(w: Worker, end: Worker) {
    if JoinedWith(Aborted)(end) then w == if end.begun then Executing else AwaitingStart else w == end
  }

  lemma AllStarted(o: System, s: System, ends: seq<Worker>) returns (t: System)
    requires Reaches(o, s) && SpawnedTo(s, |ends|, |ends|)
    ensures Reaches(o, t) && Served(t, ends, 0)
  {
    t := Go(o, s, OfSupervisor(CheckLoop));
    t := Go(o, t, OfSupervisor(Initialize));
    t := Go(o, t, OfHost(Start));
  }

  lemma BeginOne(o: System, s: System, ends: seq<Worker>, k: nat) returns (t: System)
    requires Reaches(o, s) && Served(s, ends, k) && k < |ends|
    ensures Reaches(o, t) && Calm(t, |ends|) && t.workers == s.workers[k := Executing]
    ensures t == s.(workers := t.workers, counters := t.counters)
  {
    t := Go(o, s, OfWorker(k, SeeStart));
    t := Go(o, t, OfWorker(k, Begin));
  }

  lemma ServeOne(o: System, s: System, ends: seq<Worker>, k: nat) returns (t: System)
    requires Reaches(o, s) && Served(s, ends, k) && k < |ends| && Possible(ends[k])
    ensures Reaches(o, t) && Served(t, ends, k + 1)
  {
    t := s;
    if ends[k].begun {
      t := BeginOne(o, s, ends, k);
      if !ends[k].outcome.Aborted? {
        t := Go(o, t, OfWorker(k, Finish(ends[k].outcome)));
        t := Go(o, t, OfSupervisor(Join(k, false)));
      }
    }
  }

  lemma {:induction false} ServeAll(o: System, s: System, ends: seq<Worker>, k: nat) returns (t: System)
    requires Reaches(o, s) && Served(s, ends, k) && AllPossible(ends)
    ensures Reaches(o, t) && Served(t, ends, |ends|)
    decreases |ends| - k
  {
    t := s;
    if k < |ends| {
      t := ServeOne(o, s, ends, k);
      t := ServeAll(o, t, ends, k + 1);
    }
  }

  // ---------------------------------------------------------------- stopping

  /** Shutdown has begun; the first `k` workers are settled but for those to be aborted. */
  ghost predicate Stopped(s: System, ends: seq<Worker>, k: nat, d: Deadlines) {
    && Calm(s, |ends|) && s.supervisor.Cooperative? && s.stopping && s.deadlines == Some(d) && k <= |ends|
    && (forall i :: 0 <= i < k ==> Settled(s.workers[i], ends[i]))
    && (forall i :: k <= i < |ends| ==> Awaits(s.workers[i], ends[i]))
  }

  lemma Shutdown(o: System, s: System, d: Deadlines) returns (t: System)
    requires Reaches(o, s) && !s.lockHeld && s.deadlines.None?
    ensures Reaches(o, t) && t == s.(deadlines := Some(d), stopping := true)
  {
    t := Go(o, s, OfHost(ShutdownLock(d)));
    t := Go(o, t, OfHost(ShutdownCancel));
  }

  /** Initialization is over, and shutdown has begun. */
  ghost predicate Gathered(s: System, ends: seq<Worker>, d: Deadlines) {
    && Calm(s, |ends|) && s.supervisor.Serving? && s.stopping && s.deadlines == Some(d)
    && forall i :: 0 <= i < |ends| ==> Awaits(s.workers[i], ends[i])
  }

  lemma LeaveService(o: System, s: System, ends: seq<Worker>, d: Deadlines) returns (t: System)
    requires Reaches(o, s) && Gathered(s, ends, d)
    ensures Reaches(o, t) && Stopped(t, ends, 0, d)
  {
    t := Go(o, s, OfSupervisor(SeeStop));
    t := Go(o, t, OfSupervisor(FindDeadlines));
  }

  lemma StopOne(o: System, s: System, ends: seq<Worker>, k: nat, d: Deadlines) returns (t: System)
    requires Reaches(o, s) && Stopped(s, ends, k, d) && k < |ends|
    ensures Reaches(o, t) && Stopped(t, ends, k + 1, d)
  {
    t := s;
    if !Settled(s.workers[k], ends[k]) {
      t := FinishOne(o, s, ends, k, d);
      t := Go(o, t, OfSupervisor(Join(k, false)));
    }
  }

  /** The worker stops before it has begun, or panics, or had failed. */
  lemma FinishOne(o: System, s: System, ends: seq<Worker>, k: nat, d: Deadlines) returns (t: System)
    requires Reaches(o, s) && Stopped(s, ends, k, d) && k < |ends| && !Settled(s.workers[k], ends[k])
    ensures Reaches(o, t) && ends[k].Joined? && !ends[k].outcome.Aborted?
    ensures t == s.(workers := s.workers[k := Done(ends[k].outcome, ends[k].begun)], ready := t.ready)
    ensures |t.ready| == |s.ready|
  {
    t := s;
    if ends[k].outcome.NotStarted? {
      t := Go(o, s, OfWorker(k, SeeStopping));
    } else if ends[k].outcome.Panicked? {
      t := Go(o, s, OfWorker(k, TaskPanics));
    }
  }

  lemma {:induction false} StopAll(o: System, s: System, ends: seq<Worker>, k: nat, d: Deadlines) returns (t: System)
    requires Reaches(o, s) && Stopped(s, ends, k, d)
    ensures Reaches(o, t) && Stopped(t, ends, |ends|, d)
    decreases |ends| - k
  {
    t := s;
    if k < |ends| {
      t := StopOne(o, s, ends, k, d);
      t := StopAll(o, t, ends, k + 1, d);
    }
  }

  // ---------------------------------------------------------------- aborting

  ghost predicate AnyAborted(ends: seq<Worker>) {
    exists i :: 0 <= i < |ends| && JoinedWith(Aborted)(ends[i])
  }

  ghost predicate NoneMissing(ends: seq<Worker>) {
    forall i :: 0 <= i < |ends| ==> ends[i].Unspawned? || ends[i].Joined?
  }

  lemma {:induction false} CountAlike(ws: seq<Worker>, us: seq<Worker>, p: Worker -> bool, q: Worker -> bool)
    requires |ws| == |us| && forall i :: 0 <= i < |ws| ==> (p(ws[i]) <==> q(us[i]))
    ensures Count(ws, p) == Count(us, q)
  {
    if ws != [] { CountAlike(ws[..|ws| - 1], us[..|us| - 1], p, q); }
  }

  /** What does not change any more once the scopes are sealed. */
  predicate Closing(s: System, n: nat, d: Deadlines) {
    && |s.workers| == n && |s.ready| == n && !s.lockHeld && s.stopping && s.deadlines == Some(d)
    && s.scopes.sealed && s.scopes.scopes == map[] && s.observers == []
  }

  /** The aborts were sent, and the first `k` workers have ended. */
  ghost predicate AbortedTo(s: System, ends: seq<Worker>, k: nat, d: Deadlines, late: bool) {
    && Closing(s, |ends|, d) && s.supervisor.Aborting? && s.abortSent && k <= |ends|
    && s.counters.abortRequested == Count(ends, JoinedWith(Aborted)) && s.counters.executionDeadlineMissed == late
    && (forall i :: 0 <= i < k ==> s.workers[i] == ends[i])
    && (forall i :: k <= i < |ends| ==> Settled(s.workers[i], ends[i]))
  }

  /** The cooperative phase ends by force or by its deadline. */
  lemma EndPatience(o: System, s: System, ends: seq<Worker>, d: Deadlines, forced: bool) returns (t: System)
    requires Reaches(o, s) && Stopped(s, ends, |ends|, d) && !AllJoined(s)
    ensures Reaches(o, t) && t.supervisor.SealScopes? && t.workers == s.workers && t.counters == s.counters
    ensures t == s.(supervisor := t.supervisor, scopes := t.scopes, forcing := t.forcing, force := t.force)
    ensures t.scopes.scopes == map[]
  {
    if forced {
      t := Go(o, s, OfHost(ForceSeal));
      t := Go(o, t, OfHost(ForceCancel));
      t := Go(o, t, OfSupervisor(ForceArrives));
    } else {
      t := Go(o, s, OfSupervisor(CooperativeDeadline));
    }
  }

  lemma SendAll(o: System, s: System, ends: seq<Worker>, d: Deadlines, forced: bool, late: bool) returns (t: System)
    requires Reaches(o, s) && Stopped(s, ends, |ends|, d) && AnyAborted(ends) && NoneMissing(ends)
    ensures Reaches(o, t) && AbortedTo(t, ends, 0, d, late)
  {
    SomebodyLeft(s, ends);
    t := EndPatience(o, s, ends, d, forced);
    t := Go(o, t, OfSupervisor(SealAll));
    CountOutstanding(t.workers, ends);
    t := RequestAborts(o, t);
    if late { t := Go(o, t, OfSupervisor(ExecutionDeadline)); }
  }

  lemma SomebodyLeft(s: System, ends: seq<Worker>)
    requires |s.workers| == |ends| && AnyAborted(ends)
    requires forall i :: 0 <= i < |ends| ==> Settled(s.workers[i], ends[i])
    ensures forall t: System :: t.workers == s.workers ==> !AllJoined(t)
  {
    var i :| 0 <= i < |ends| && JoinedWith(Aborted)(ends[i]);
    assert Settled(s.workers[i], ends[i]);
    forall t: System | t.workers == s.workers ensures !AllJoined(t) { assert t.workers[i] == s.workers[i]; }
  }

  lemma RequestAborts(o: System, s: System) returns (t: System)
    requires Reaches(o, s) && s.supervisor.CountAborts? && !s.lockHeld && s.counters.abortRequested == 0
    ensures Reaches(o, t)
    ensures t == s.(supervisor := Aborting, abortSent := true,
                    counters := s.counters.(abortRequested := Count(s.workers, Outstanding)))
  {
    t := Go(o, s, OfSupervisor(CountAborted));
    t := Go(o, t, OfSupervisor(SendAborts));
  }

  lemma CountOutstanding(ws: seq<Worker>, ends: seq<Worker>)
    requires |ws| == |ends| && NoneMissing(ends) && forall i :: 0 <= i < |ends| ==> Settled(ws[i], ends[i])
    ensures Count(ws, Outstanding) == Count(ends, JoinedWith(Aborted))
  {
    forall i | 0 <= i < |ws| ensures Outstanding(ws[i]) <==> JoinedWith(Aborted)(ends[i]) {
      assert Settled(ws[i], ends[i]);
    }
    CountAlike(ws, ends, Outstanding, JoinedWith(Aborted));
  }

  lemma AbortOne(o: System, s: System, ends: seq<Worker>, k: nat, d: Deadlines, late: bool) returns (t: System)
    requires Reaches(o, s) && AbortedTo(s, ends, k, d, late) && k < |ends|
    ensures Reaches(o, t) && AbortedTo(t, ends, k + 1, d, late)
  {
    t := s;
    if JoinedWith(Aborted)(ends[k]) {
      t := Go(o, s, OfWorker(k, AbortTask));
      t := Go(o, t, OfSupervisor(Join(k, late)));
    }
  }

  lemma {:induction false} AbortRest(o: System, s: System, ends: seq<Worker>, k: nat, d: Deadlines, late: bool)
    returns (t: System)
    requires Reaches(o, s) && AbortedTo(s, ends, k, d, late)
    ensures Reaches(o, t) && AbortedTo(t, ends, |ends|, d, late)
    decreases |ends| - k
  {
    t := s;
    if k < |ends| {
      t := AbortOne(o, s, ends, k, d, late);
      t := AbortRest(o, t, ends, k + 1, d, late);
    }
  }

  // ---------------------------------------------------------------- the end

  ghost predicate Drained(s: System, ends: seq<Worker>, d: Deadlines, late: bool) {
    && Closing(s, |ends|, d) && s.workers == ends
    && s.counters.abortRequested == Count(ends, JoinedWith(Aborted))
    && s.counters.executionDeadlineMissed == (late && AnyAborted(ends))
  }

  lemma NoneToAbort(ends: seq<Worker>)
    requires !AnyAborted(ends)
    ensures Count(ends, JoinedWith(Aborted)) == 0
  {
    CountNone(ends, JoinedWith(Aborted));
  }

  lemma {:induction false} CountNone(ws: seq<Worker>, p: Worker -> bool)
    requires forall i :: 0 <= i < |ws| ==> !p(ws[i])
    ensures Count(ws, p) == 0
  {
    if ws != [] { CountNone(ws[..|ws| - 1], p); }
  }

  lemma {:induction false} CountEverybody(ws: seq<Worker>, p: Worker -> bool)
    requires forall i :: 0 <= i < |ws| ==> p(ws[i])
    ensures Count(ws, p) == |ws|
  {
    if ws != [] { CountEverybody(ws[..|ws| - 1], p); }
  }

  lemma DrainAll(o: System, s: System, ends: seq<Worker>, d: Deadlines, forced: bool, late: bool) returns (t: System)
    requires Reaches(o, s) && Stopped(s, ends, |ends|, d) && NoneMissing(ends)
    ensures Reaches(o, t) && Drained(t, ends, d, late) && t.supervisor.Exited?
  {
    if AnyAborted(ends) {
      t := SendAll(o, s, ends, d, forced, late);
      t := AbortRest(o, t, ends, 0, d, late);
      assert t.workers == ends && AllJoined(t);
      t := Go(o, t, OfSupervisor(AllAborted));
    } else {
      NoneToAbort(ends);
      assert s.workers == ends && AllJoined(s);
      t := Go(o, s, OfSupervisor(AllReturned));
      t := Go(o, t, OfSupervisor(SealAll));
    }
    t := Go(o, t, OfSupervisor(SupervisorAction.Drained));
  }

  /** The runtime is over, and the one snapshot taken shows the final counters. */
  ghost predicate IsDone(s: System, ends: seq<Worker>, d: Deadlines, late: bool) {
    && EndsWith(s, ends) && s.deadlines == Some(d) && NoScopes(s.scopes) && ShowsEnd(s)
    && s.counters.abortRequested == Count(ends, JoinedWith(Aborted))
    && s.counters.executionDeadlineMissed == (late && AnyAborted(ends))
  }

  predicate ShowsEnd(s: System) {
    && |s.observers| == 1 && s.observers[0].Taken?
    && s.observers[0].snapshot.counters == s.counters && s.observers[0].snapshot.scopes == Scopes.SnapshotOf(s.scopes)
    && s.observers[0].snapshot.supervisorJoined && !s.observers[0].snapshot.supervisorFailed
  }

  /** Moreover, the snapshot is terminal. */
  ghost predicate IsOver(s: System, ends: seq<Worker>, d: Deadlines, late: bool) {
    IsDone(s, ends, d, late) && s.observers[0].snapshot.IsTerminal()
  }

  lemma TakeLook(o: System, s: System, ends: seq<Worker>, d: Deadlines, late: bool) returns (t: System)
    requires Reaches(o, s) && Drained(s, ends, d, late) && s.supervisor.Exited?
    ensures Reaches(o, t) && IsDone(t, ends, d, late)
  {
    t := Look(o, s);
  }

  /** The three reads of a snapshot of a runtime that is over. */
  lemma Look(o: System, s: System) returns (t: System)
    requires Reaches(o, s) && s.supervisor.Exited? && !s.lockHeld && s.observers == [] && NoScopes(s.scopes)
    ensures Reaches(o, t) && t == s.(observers := t.observers, scopes := t.scopes) && NoScopes(t.scopes) && ShowsEnd(t)
  {
    t := Go(o, s, OfObserver(ReadOwner));
    t := Go(o, t, OfObserver(ReadState(0)));
    t := LookAtScopes(o, t);
  }

  lemma LookAtScopes(o: System, s: System) returns (t: System)
    requires Reaches(o, s) && |s.observers| == 1 && s.observers[0].StateRead? && NoScopes(s.scopes)
    ensures Reaches(o, t) && t == s.(observers := t.observers, scopes := t.scopes) && NoScopes(t.scopes)
    ensures |t.observers| == 1 && t.observers[0].Taken?
    ensures var b, c := s.observers[0], t.observers[0].snapshot;
            && c.counters == b.counters && c.supervisorJoined == b.joined && c.supervisorFailed == b.failed
            && c.scopes == Scopes.SnapshotOf(t.scopes)
  {
    var nothing: Scopes.Polled := map[];
    ScopesSettle(s.scopes, Scopes.TakeSnapshot(nothing));
    t := Go(o, s, OfObserver(ReadScopes(0, nothing)));
  }

  lemma LookIsTerminal(s: System)
    requires SnapshotsSound(s) && ShowsEnd(s) && NoScopes(s.scopes)
    ensures s.observers[0].snapshot.IsTerminal()
  {
    assert SoundSnapshot(|s.workers|, s.observers[0].snapshot);
  }

  lemma Conclude(o: System, s: System, ends: seq<Worker>, d: Deadlines, forced: bool, late: bool) returns (t: System)
    requires Reaches(o, s) && Gathered(s, ends, d) && NoneMissing(ends)
    ensures Reaches(o, t) && IsDone(t, ends, d, late)
  {
    t := LeaveService(o, s, ends, d);
    t := StopAll(o, t, ends, 0, d);
    t := DrainAll(o, t, ends, d, forced, late);
    t := TakeLook(o, t, ends, d, late);
  }

  // ---------------------------------------------------------------- every legal ending

  /** The runtime before anybody calls it. */
  ghost predicate Begins(o: System, n: nat) {
    && Calm(o, n) && Unstopped(o) && o.error.None? && !o.initialized && o.supervisor.NotRunning?
    && forall i :: 0 <= i < n ==> o.workers[i] == Unspawned && o.ready[i] == Open
  }

  lemma InitiallyBegins(o: System, n: nat)
    requires o == Initial(n)
    ensures Begins(o, n)
  {
  }

  lemma Own(o: System, n: nat) returns (t: System)
    requires Begins(o, n)
    ensures Reaches(o, t) && SpawnedTo(t, n, 0)
  {
    ReachesItself(o);
    t := Go(o, o, OfHost(EnsureOwner));
  }

  /** Everybody is constructed and started, and then comes to the end given. */
  lemma RunToEnd(o: System, ends: seq<Worker>, d: Deadlines, forced: bool, late: bool) returns (t: System)
    requires Begins(o, |ends|) && AllPossible(ends)
    ensures Reaches(o, t) && IsDone(t, ends, d, late)
  {
    t := Own(o, |ends|);
    t := SpawnAll(o, t, |ends|, 0, |ends|);
    t := AllStarted(o, t, ends);
    t := ServeAll(o, t, ends, 0);
    t := Shutdown(o, t, d);
    t := Conclude(o, t, ends, d, forced, late);
  }

  /** A shutdown before anybody is spawned. */
  lemma StopAtOnce(o: System, ends: seq<Worker>, d: Deadlines) returns (t: System)
    requires Begins(o, |ends|) && EndsEarly(ends, 0)
    ensures Reaches(o, t) && Gathered(t, ends, d)
  {
    ReachesItself(o);
    t := Shutdown(o, o, d);
    t := Go(o, t, OfHost(EnsureOwner));
    t := Go(o, t, OfSupervisor(CheckLoop));
    t := Go(o, t, OfSupervisor(Initialize));
  }

  /** The constructor of the last worker spawned fails. */
  lemma FailLast(o: System, s: System, ends: seq<Worker>, f: nat, d: Deadlines) returns (t: System)
    requires Reaches(o, s) && f > 0 && EndsEarly(ends, f) && ends[f - 1].outcome.Failed? && SpawnedTo(s, |ends|, f - 1)
    ensures Reaches(o, t) && Gathered(t, ends, d)
  {
    t := Spawning(o, s, |ends|, f - 1);
    t := Go(o, t, OfWorker(f - 1, ConstructErr(InitializationFailed)));
    t := Go(o, t, OfSupervisor(ReceiveReady));
    t := Go(o, t, OfSupervisor(RecordError));
    t := Go(o, t, OfSupervisor(Initialize));
    t := Shutdown(o, t, d);
  }

  /** Shutdown begins while the last worker spawned is being constructed. */
  lemma StopAtLast(o: System, s: System, ends: seq<Worker>, f: nat, d: Deadlines) returns (t: System)
    requires Reaches(o, s) && f > 0 && EndsEarly(ends, f) && !ends[f - 1].outcome.Failed? && SpawnedTo(s, |ends|, f - 1)
    ensures Reaches(o, t) && Gathered(t, ends, d)
  {
    t := Spawning(o, s, |ends|, f - 1);
    t := Shutdown(o, t, d);
    t := Go(o, t, OfSupervisor(StopWhileWaiting));
    t := Go(o, t, OfWorker(f - 1, ConstructOk));
    t := Go(o, t, OfSupervisor(Initialize));
  }

  lemma Gather(o: System, ends: seq<Worker>, f: nat, d: Deadlines) returns (t: System)
    requires Begins(o, |ends|) && EndsEarly(ends, f)
    ensures Reaches(o, t) && Gathered(t, ends, d)
  {
    if f == 0 {
      t := StopAtOnce(o, ends, d);
    } else {
      t := Own(o, |ends|);
      t := SpawnAll(o, t, |ends|, 0, f - 1);
      if ends[f - 1].outcome.Failed? {
        t := FailLast(o, t, ends, f, d);
      } else {
        t := StopAtLast(o, t, ends, f, d);
      }
    }
  }

  lemma RunToEarlyEnd(o: System, ends: seq<Worker>, f: nat, d: Deadlines, forced: bool, late: bool) returns (t: System)
    requires Begins(o, |ends|) && EndsEarly(ends, f)
    ensures Reaches(o, t) && IsDone(t, ends, d, late)
  {
    t := Gather(o, ends, f, d);
    t := Conclude(o, t, ends, d, forced, late);
  }

  /**
    For every legal ending, whatever the deadlines, forced or not, with or without missing the
    deadline for aborts: some run ends in it and in one terminal snapshot that shows it, with as
    many aborts requested as workers were aborted.
    */
  lemma LegalEndingIsReached(start: System, ends: seq<Worker>, d: Deadlines, forced: bool, late: bool)
    returns (run: seq<Action>)
    requires start == Initial(|ends|) && Legal(ends)
    ensures IsRun(start, run) && IsOver(After(start, run), ends, d, late)
  {
    InitiallyBegins(start, |ends|);
    run := ReachLegal(start, ends, d, forced, late);
    SoundFrom(start, |ends|, run);
    LookIsTerminal(After(start, run));
  }

  lemma SoundFrom(start: System, registered: nat, run: seq<Action>)
    requires start == Initial(registered) && IsRun(start, run)
    ensures SnapshotsSound(After(start, run))
  {
    EverySnapshotIsSound(registered, run);
  }

  lemma ReachLegal(o: System, ends: seq<Worker>, d: Deadlines, forced: bool, late: bool) returns (run: seq<Action>)
    requires Begins(o, |ends|) && Legal(ends)
    ensures IsRun(o, run) && IsDone(After(o, run), ends, d, late)
  {
    var t;
    if AllPossible(ends) {
      t := RunToEnd(o, ends, d, forced, late);
    } else {
      var f: nat :| EndsEarly(ends, f);
      t := RunToEarlyEnd(o, ends, f, d, forced, late);
    }
    run :| IsRun(o, run) && After(o, run) == t;
  }

  /**
    The endings the runtime can come to are exactly the legal ones: everybody was constructed and
    ended as a constructed worker can, or only the first few were spawned, nobody began, and at
    most the last of them failed.
    */
  lemma EndingsExactly(ends: seq<Worker>)
    ensures CanEnd(ends) <==> Legal(ends)
  {
    if CanEnd(ends) {
      var start, run :| start == Initial(|ends|) && IsRun(start, run) && EndsWith(After(start, run), ends);
      EveryEndingIsLegal(|ends|, start, run);
    }
    if Legal(ends) {
      var start := Initial(|ends|);
      var run := LegalEndingIsReached(start, ends, Deadlines(0, 0, 0, 0), false, false);
      assert EndsWith(After(start, run), ends);
    }
  }

  lemma CountersAtEnd(start: System, run: seq<Action>, registered: nat)
    requires start == Initial(registered) && IsRun(start, run)
    ensures CountsMatch(After(start, run).workers, After(start, run).counters)
  {
    InitialInv(registered);
    RunKeepsInv(start, run);
  }

  /** Among them: all workers begin and complete. */
  lemma AllCanComplete(start: System, n: nat) returns (run: seq<Action>)
    requires start == Initial(n)
    ensures IsRun(start, run)
    ensures var t := After(start, run);
            && t.counters.started == t.counters.completed == t.counters.joined == n
            && |t.observers| == 1 && t.observers[0].Taken? && t.observers[0].snapshot.IsTerminal()
            && t.observers[0].snapshot.counters == t.counters
  {
    var ends := seq(n, _ => Joined(Completed, true));
    run := LegalEndingIsReached(start, ends, Deadlines(0, 0, 0, 0), false, false);
    CountersAtEnd(start, run, n);
    CountEverybody(ends, HasBegun);
    CountEverybody(ends, JoinedWith(Completed));
    CountEverybody(ends, IsJoined);
  }

  /** And: all workers begin and are aborted, after a forced stop that missed the deadline. */
  lemma AllCanBeAborted(start: System, n: nat) returns (run: seq<Action>)
    requires start == Initial(n)
    ensures IsRun(start, run)
    ensures var t := After(start, run);
            && t.counters.started == t.counters.aborted == t.counters.abortRequested == t.counters.joined == n
            && t.counters.executionDeadlineMissed == (n > 0)
            && |t.observers| == 1 && t.observers[0].Taken? && t.observers[0].snapshot.IsTerminal()
            && t.observers[0].snapshot.counters == t.counters
  {
    var ends := seq(n, _ => Joined(Aborted, true));
    run := LegalEndingIsReached(start, ends, Deadlines(0, 0, 0, 0), true, true);
    CountersAtEnd(start, run, n);
    CountEverybody(ends, HasBegun);
    CountEverybody(ends, JoinedWith(Aborted));
    CountEverybody(ends, IsJoined);
    if n > 0 { assert JoinedWith(Aborted)(ends[0]); }
  }

  // ---------------------------------------------------------------- every answer of `start`

  predicate Answers(s: System, answer: StartAnswer) { s.starts == [answer] }

  /** The worker whose construction fails with the fault given. */
  lemma FailWith(o: System, s: System, n: nat, k: nat, fault: Fault) returns (t: System)
    requires Reaches(o, s) && SpawnedTo(s, n, k) && k < n
    ensures Reaches(o, t) && Answers(t, StartFailed(fault))
  {
    t := Spawning(o, s, n, k);
    if fault.SupervisorFailed? {
      t := Go(o, t, OfWorker(k, TaskPanics));
    } else {
      t := Go(o, t, OfWorker(k, ConstructErr(fault)));
    }
    t := Go(o, t, OfSupervisor(ReceiveReady));
    t := Go(o, t, OfSupervisor(RecordError));
    t := Go(o, t, OfHost(Start));
  }

  lemma AnswerReached(o: System, n: nat, k: nat, answer: StartAnswer) returns (t: System)
    requires Begins(o, n) && (answer.StartFailed? ==> k < n)
    ensures Reaches(o, t) && Answers(t, answer)
  {
    ReachesItself(o);
    match answer
    case NotInitialized =>
      t := Go(o, o, OfHost(Start));
    case StartedTooLate =>
      t := Shutdown(o, o, Deadlines(0, 0, 0, 0));
      t := Go(o, t, OfHost(Start));
    case StartFailed(fault) =>
      t := Own(o, n);
      t := SpawnAll(o, t, n, 0, k);
      t := FailWith(o, t, n, k, fault);
    case Started =>
      t := Own(o, n);
      t := SpawnAll(o, t, n, 0, n);
      t := AllStarted(o, t, t.workers);
  }

  ghost predicate CanAnswer(start: System, answer: StartAnswer) {
    exists run :: IsRun(start, run) && Answers(After(start, run), answer)
  }

  /** Every answer is given in some run, a fault for any worker that fails with it. */
  lemma EveryAnswerIsGiven(start: System, n: nat, k: nat, answer: StartAnswer)
    requires start == Initial(n) && (answer.StartFailed? ==> k < n)
    ensures CanAnswer(start, answer)
  {
    InitiallyBegins(start, n);
    CanAnswerFrom(start, n, k, answer);
  }

  lemma CanAnswerFrom(o: System, n: nat, k: nat, answer: StartAnswer)
    requires Begins(o, n) && (answer.StartFailed? ==> k < n)
    ensures CanAnswer(o, answer)
  {
    var t := AnswerReached(o, n, k, answer);
    var run :| IsRun(o, run) && After(o, run) == t;
  }
}
