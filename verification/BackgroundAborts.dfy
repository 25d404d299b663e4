/** Every worker counted as aborted was counted before as one whose abort was requested. */
module BackgroundAborts {
  import opened BackgroundRuntime

  predicate WasAborted(w: Worker) { (w.Done? || w.Joined?) && w.outcome == Aborted }

  predicate MayHaveAborted(v: Supervisor) { v.Aborting? || v.Draining? || v.Exited? || v.Crashed? }

  /** Aborts happen only once requested, and the request covered everybody still outstanding. */
  ghost predicate AbortsCovered(s: System) {
    && (s.abortSent ==> MayHaveAborted(s.supervisor))
    && (s.supervisor.Aborting? ==> s.abortSent)
    && (!s.abortSent ==> s.counters.aborted == 0)
    && (!s.abortSent && !s.supervisor.Crashed? ==> forall i :: 0 <= i < |s.workers| ==> !WasAborted(s.workers[i]))
    && (s.abortSent || s.supervisor.AbortAll? ==>
          s.counters.aborted + Count(s.workers, Outstanding) <= s.counters.abortRequested)
  }

  predicate AbortsAdmitted(c: Counters) { c.aborted <= c.abortRequested }

  ghost predicate AdmittedReading(b: Observer) {
    match b
    case OwnerRead(_, _) => true
    case StateRead(_, _, c) => AbortsAdmitted(c)
    case Taken(t) => AbortsAdmitted(t.counters)
  }

  ghost predicate AdmittedReadings(s: System) {
    forall o :: 0 <= o < |s.observers| ==> AdmittedReading(s.observers[o])
  }

  lemma WorkerKeepsCovered(s: System, i: nat, a: WorkerAction)
    requires AbortsCovered(s) && WorkerEnabled(s, i, a)
    ensures AbortsCovered(WorkerNext(s, i, a)) && WorkerNext(s, i, a).observers == s.observers
  {
    var t := WorkerNext(s, i, a);
    assert t.workers == s.workers[i := t.workers[i]];
    assert Outstanding(s.workers[i]) && Outstanding(t.workers[i]);
    CountUpdate(s.workers, i, t.workers[i], Outstanding);
  }

  lemma JoinKeepsCovered(s: System, a: SupervisorAction)
    requires AbortsCovered(s) && SupervisorEnabled(s, a) && a.Join?
    ensures AbortsCovered(SupervisorNext(s, a))
  {
    var t := SupervisorNext(s, a);
    assert t.workers == s.workers[a.i := t.workers[a.i]];
    CountUpdate(s.workers, a.i, t.workers[a.i], Outstanding);
  }

  /** What the other supervisor actions do to the counts of aborts. */
  lemma SupervisorCounts(s: System, a: SupervisorAction)
    requires SupervisorEnabled(s, a) && !a.Join?
    ensures var t := SupervisorNext(s, a);
            && t.counters.aborted == s.counters.aborted
            && (!a.CountAborted? ==> t.counters.abortRequested == s.counters.abortRequested)
            && (a.CountAborted? ==>
                  t.counters.abortRequested == s.counters.abortRequested + Count(s.workers, Outstanding))
            && t.abortSent == (s.abortSent || a.SendAborts?)
  {
    match a
    case CountAborted =>
    case SendAborts =>
    case _ =>
  }

  lemma SupervisorKeepsCovered(s: System, a: SupervisorAction)
    requires AbortsCovered(s) && SupervisorEnabled(s, a)
    ensures AbortsCovered(SupervisorNext(s, a))
  {
    if a.Join? {
      JoinKeepsCovered(s, a);
    } else {
      SupervisorCounts(s, a);
      SupervisorTouches(s, a);
    }
  }

  lemma HostKeepsCovered(s: System, a: HostAction)
    requires AbortsCovered(s) && HostEnabled(s, a)
    ensures AbortsCovered(HostNext(s, a)) && HostNext(s, a).observers == s.observers
  {
    HostKeepsWork(s, a);
    assert HostNext(s, a).abortSent == s.abortSent;
  }

  lemma ObserverKeepsCovered(s: System, a: ObserverAction)
    requires AbortsCovered(s) && AdmittedReadings(s) && ObserverEnabled(s, a)
    ensures AbortsCovered(ObserverNext(s, a)) && AdmittedReadings(ObserverNext(s, a))
  {
    var t := ObserverNext(s, a);
    assert t == s.(observers := t.observers, scopes := t.scopes);
    forall o | 0 <= o < |t.observers| ensures AdmittedReading(t.observers[o]) {
      if o < |s.observers| { assert AdmittedReading(s.observers[o]); }
    }
  }

  lemma StepKeepsCovered(s: System, a: Action)
    requires AbortsCovered(s) && AdmittedReadings(s) && Enabled(s, a)
    ensures AbortsCovered(Next(s, a)) && AdmittedReadings(Next(s, a))
  {
    match a
    case OfWorker(i, w) => WorkerKeepsCovered(s, i, w);
    case OfSupervisor(v) => SupervisorKeepsCovered(s, v); SupervisorScopes(s, v);
    case OfHost(h) => HostKeepsCovered(s, h);
    case OfObserver(o) => ObserverKeepsCovered(s, o);
    case OfScope(_) =>
  }

  lemma {:induction false} RunKeepsCovered(s: System, run: seq<Action>)
    requires AbortsCovered(s) && AdmittedReadings(s) && IsRun(s, run)
    ensures AbortsCovered(After(s, run)) && AdmittedReadings(After(s, run))
    decreases |run|
  {
    if run != [] {
      StepKeepsCovered(s, run[0]);
      RunKeepsCovered(Next(s, run[0]), run[1..]);
    }
  }

  lemma InitiallyCovered(registered: nat)
    ensures AbortsCovered(Initial(registered)) && AdmittedReadings(Initial(registered))
  {
  }

  /** In every interleaving, and in every snapshot, no more workers were aborted than aborts requested. */
  lemma {:induction false} AbortsAreRequested(registered: nat, start: System, run: seq<Action>)
    requires start == Initial(registered) && IsRun(start, run)
    ensures AbortsAdmitted(After(start, run).counters) && AdmittedReadings(After(start, run))
  {
    InitiallyCovered(registered);
    RunKeepsCovered(start, run);
  }

  // ---------------------------------------------------------------- requests and deadlines

  predicate BeforeAborts(v: Supervisor) {
    !v.AbortAll? && !v.Aborting? && !v.Draining? && !v.Exited? && !v.Crashed?
  }

  /**
    Aborts are requested once, of spawned workers only; a deadline can be missed only once there is
    one; and whoever forces the stop has sealed the scopes first.
    */
  ghost predicate Restrained(s: System) {
    && (BeforeAborts(s.supervisor) ==> s.counters.abortRequested == 0)
    && s.counters.abortRequested <= s.counters.spawned
    && (s.counters.executionDeadlineMissed ==> s.deadlines.Some?)
    && (s.force ==> s.forcing) && (s.forcing ==> s.scopes.sealed)
  }

  lemma OutstandingAreSpawned(s: System)
    requires Shape(s) && SpawnCount(s)
    ensures Count(s.workers, Outstanding) <= s.counters.spawned
  {
    SpawnedPrefix(s.workers, s.frontier);
    CountImplies(s.workers, Outstanding, IsSpawned);
  }

  lemma SupervisorKeepsRestrained(s: System, a: SupervisorAction)
    requires Shape(s) && SpawnCount(s) && Stopping(s) && Restrained(s) && SupervisorEnabled(s, a)
    ensures Restrained(SupervisorNext(s, a))
  {
    OutstandingAreSpawned(s);
    match a
    case CountAborted =>
    case Join(_, _) =>
    case _ =>
  }

  lemma WorkerKeepsRestrained(s: System, i: nat, a: WorkerAction)
    requires Restrained(s) && WorkerEnabled(s, i, a)
    ensures Restrained(WorkerNext(s, i, a))
  {
    match a
    case Begin =>
    case _ =>
  }

  lemma HostKeepsRestrained(s: System, a: HostAction)
    requires Restrained(s) && HostEnabled(s, a)
    ensures Restrained(HostNext(s, a))
  {
    HostKeepsWork(s, a);
    HostFrame(s, a);
    match a
    case ForceSeal =>
    case ForceCancel =>
    case _ =>
  }

  lemma ObserverKeepsRestrained(s: System, a: ObserverAction)
    requires Restrained(s) && ObserverEnabled(s, a)
    ensures Restrained(ObserverNext(s, a))
  {
    match a
    case ReadOwner =>
    case _ =>
  }

  lemma StepKeepsRestrained(s: System, a: Action)
    requires Inv(s) && Restrained(s) && Enabled(s, a)
    ensures Restrained(Next(s, a))
  {
    match a
    case OfWorker(i, w) => WorkerKeepsRestrained(s, i, w);
    case OfSupervisor(v) => SupervisorKeepsRestrained(s, v);
    case OfHost(h) => HostKeepsRestrained(s, h);
    case OfObserver(o) => ObserverKeepsRestrained(s, o);
    case OfScope(_) =>
  }

  /**
    In every run no more aborts are requested than workers were spawned, no deadline is missed
    before there is one, and a forced stop finds the scopes sealed.
    */
  lemma {:induction false} RunKeepsRestrained(s: System, run: seq<Action>)
    requires Inv(s) && Restrained(s) && IsRun(s, run)
    ensures Restrained(After(s, run))
    decreases |run|
  {
    if run != [] {
      StepKeepsInv(s, run[0]);
      StepKeepsRestrained(s, run[0]);
      RunKeepsRestrained(Next(s, run[0]), run[1..]);
    }
  }

  /** The deadline passes while tasks are awaited, or a task is joined after it. */
  predicate IsMiss(s: System, a: Action) {
    && a.OfSupervisor?
    && (a.supervisor.ExecutionDeadline? || (a.supervisor.Join? && a.supervisor.late && s.deadlines.Some?))
  }

  ghost predicate SomeMiss(s: System, run: seq<Action>)
    requires IsRun(s, run)
    decreases |run|
  {
    run != [] && (IsMiss(s, run[0]) || SomeMiss(Next(s, run[0]), run[1..]))
  }

  lemma SupervisorMisses(s: System, a: SupervisorAction)
    requires SupervisorEnabled(s, a)
    ensures SupervisorNext(s, a).counters.executionDeadlineMissed <==>
            s.counters.executionDeadlineMissed || IsMiss(s, OfSupervisor(a))
  {
    match a
    case Join(_, _) =>
    case ExecutionDeadline =>
    case _ =>
  }

  lemma WorkerMisses(s: System, i: nat, a: WorkerAction)
    requires WorkerEnabled(s, i, a)
    ensures WorkerNext(s, i, a).counters.executionDeadlineMissed == s.counters.executionDeadlineMissed
  {
    match a
    case Begin =>
    case _ =>
  }

  lemma StepMisses(s: System, a: Action)
    requires Enabled(s, a)
    ensures Next(s, a).counters.executionDeadlineMissed <==> s.counters.executionDeadlineMissed || IsMiss(s, a)
  {
    match a
    case OfWorker(i, w) => WorkerMisses(s, i, w);
    case OfSupervisor(v) => SupervisorMisses(s, v);
    case OfHost(h) => HostKeepsWork(s, h);
    case OfObserver(o) => assert ObserverNext(s, o).counters == s.counters;
    case OfScope(_) =>
  }

  /**
    In every run the deadline is on record as missed exactly if it passed while tasks were awaited
    or some task was joined late, and nothing takes that back.
    */
  lemma {:induction false} MissedExactly(s: System, run: seq<Action>)
    requires IsRun(s, run)
    ensures After(s, run).counters.executionDeadlineMissed <==>
            s.counters.executionDeadlineMissed || SomeMiss(s, run)
    decreases |run|
  {
    if run != [] {
      StepMisses(s, run[0]);
      MissedExactly(Next(s, run[0]), run[1..]);
    }
  }
}
