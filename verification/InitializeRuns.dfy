/** Every answer of `initialize` is given in some run, to a caller that had to wait for it. */
module InitializeRuns {
  import opened BackgroundRuntime
  import opened InitializeCall
  import Endings = BackgroundEndings

  ghost predicate Leads(o: World, w: World) {
    exists steps :: IsWorldRun(o, steps) && WorldAfter(o, steps) == w
  }

  lemma {:induction false} RunThenStep(w: World, steps: seq<Step>, step: Step)
    requires IsWorldRun(w, steps) && WorldEnabled(WorldAfter(w, steps), step)
    ensures IsWorldRun(w, steps + [step]) && WorldAfter(w, steps + [step]) == WorldNext(WorldAfter(w, steps), step)
    decreases |steps|
  {
    if steps == [] {
      assert steps + [step] == [step] && [step][1..] == [];
    } else {
      RunThenStep(WorldNext(w, steps[0]), steps[1..], step);
      assert (steps + [step])[1..] == steps[1..] + [step];
    }
  }

  lemma Go(o: World, w: World, step: Step) returns (t: World)
    requires Leads(o, w) && WorldEnabled(w, step)
    ensures t == WorldNext(w, step) && Leads(o, t)
  {
    t := WorldNext(w, step);
    var steps :| IsWorldRun(o, steps) && WorldAfter(o, steps) == w;
    RunThenStep(o, steps, step);
  }

  lemma Act(o: World, w: World, a: Action) returns (t: World)
    requires Leads(o, w) && Enabled(w.system, a) && !w.notifyDue && a != OfSupervisor(SupervisorAction.Initialize)
    ensures t == w.(system := Next(w.system, a)) && Leads(o, t)
  {
    t := Go(o, w, Base(a));
  }

  /** One caller sleeps, and nothing was notified yet. */
  predicate Waits(w: World) { !w.notifyDue && w.broadcasts == 0 && w.callers == [Sleeping(0)] }

  /** The call that creates the supervisor finds nothing to answer and falls asleep. */
  lemma CallAndWait(o: World, n: nat) returns (w: World)
    requires NobodyCalled(o) && Endings.Begins(o.system, n)
    ensures Leads(o, w) && Waits(w) && Endings.SpawnedTo(w.system, n, 0)
  {
    assert IsWorldRun(o, []) && WorldAfter(o, []) == o;
    w := Go(o, o, Call);
    w := Go(o, w, OfCaller(0, Register));
    w := Go(o, w, OfCaller(0, Check));
  }

  lemma Spawning(o: World, w: World, n: nat, k: nat) returns (t: World)
    requires Leads(o, w) && Waits(w) && Endings.SpawnedTo(w.system, n, k) && k < n
    ensures Leads(o, t) && Waits(t) && Endings.Calm(t.system, n) && Endings.Unstopped(t.system)
    ensures t.system.error.None? && !t.system.initialized && t.system.supervisor == AwaitReady(k)
    ensures t.system.workers == w.system.workers[k := Constructing] && t.system.ready == w.system.ready
  {
    t := Act(o, w, OfSupervisor(CheckLoop));
    t := Act(o, t, OfSupervisor(CountOne));
    t := Act(o, t, OfSupervisor(Spawn));
  }

  lemma {:induction false} SpawnAll(o: World, w: World, n: nat, k: nat) returns (t: World)
    requires Leads(o, w) && Waits(w) && Endings.SpawnedTo(w.system, n, k)
    ensures Leads(o, t) && Waits(t) && Endings.SpawnedTo(t.system, n, n)
    decreases n - k
  {
    t := w;
    if k < n {
      t := Spawning(o, w, n, k);
      t := Act(o, t, OfWorker(k, ConstructOk));
      t := Act(o, t, OfSupervisor(ReceiveReady));
      t := SpawnAll(o, t, n, k + 1);
    }
  }

  predicate Answered(w: World, answer: Answer) { w.callers == [Returned(answer)] }

  /** The outcome is published and notified, and the caller looks again. */
  lemma Publish(o: World, w: World, answer: Answer) returns (t: World)
    requires Leads(o, w) && Waits(w) && w.system.supervisor.MarkInitialized? && !w.system.lockHeld && !w.system.stopping
    requires answer == if w.system.error.Some? then Answer.Fault(w.system.error.value) else Success
    ensures Leads(o, t) && Answered(t, answer)
  {
    t := Go(o, w, Base(OfSupervisor(SupervisorAction.Initialize)));
    t := Go(o, t, Notify);
    t := Go(o, t, OfCaller(0, WakeNotified));
    t := Go(o, t, OfCaller(0, Register));
    t := Go(o, t, OfCaller(0, Check));
  }

  lemma Fail(o: World, w: World, n: nat, fault: BackgroundRuntime.Fault) returns (t: World)
    requires Leads(o, w) && Waits(w) && Endings.SpawnedTo(w.system, n, 0) && n > 0
    ensures Leads(o, t) && Answered(t, Answer.Fault(fault))
  {
    t := Spawning(o, w, n, 0);
    t := Act(o, t, OfWorker(0, if fault.SupervisorFailed? then TaskPanics else ConstructErr(fault)));
    t := Act(o, t, OfSupervisor(ReceiveReady));
    t := Act(o, t, OfSupervisor(RecordError));
    t := Publish(o, t, Answer.Fault(fault));
  }

  lemma AnswerReached(o: World, n: nat, answer: Answer) returns (w: World)
    requires NobodyCalled(o) && Endings.Begins(o.system, n) && (answer.Fault? ==> n > 0)
    ensures Leads(o, w) && Answered(w, answer)
  {
    w := CallAndWait(o, n);
    match answer
    case Success =>
      w := SpawnAll(o, w, n, 0);
      w := Act(o, w, OfSupervisor(CheckLoop));
      w := Publish(o, w, Success);
    case Fault(fault) =>
      w := Fail(o, w, n, fault);
    case StoppingFirst =>
      w := Act(o, w, OfHost(ShutdownLock(Deadlines(0, 0, 0, 0))));
      w := Act(o, w, OfHost(ShutdownCancel));
      w := Go(o, w, OfCaller(0, WakeStopping));
    case SupervisorGone =>
      w := Act(o, w, OfSupervisor(Crash));
      w := Go(o, w, OfCaller(0, WakeOwner));
  }

  ghost predicate CanAnswer(o: World, answer: Answer) {
    exists steps :: IsWorldRun(o, steps) && Answered(WorldAfter(o, steps), answer)
  }

  lemma CanAnswerFrom(o: World, n: nat, answer: Answer)
    requires NobodyCalled(o) && Endings.Begins(o.system, n) && (answer.Fault? ==> n > 0)
    ensures CanAnswer(o, answer)
  {
    var w := AnswerReached(o, n, answer);
    var steps :| IsWorldRun(o, steps) && WorldAfter(o, steps) == w;
  }

  /** For any number of registrations every answer is given in some run, to a caller that was asleep. */
  lemma EveryAnswerIsGiven(o: World, n: nat, answer: Answer)
    requires o.system == Initial(n) && NobodyCalled(o) && (answer.Fault? ==> n > 0)
    ensures CanAnswer(o, answer)
  {
    Endings.InitiallyBegins(o.system, n);
    CanAnswerFrom(o, n, answer);
  }
}
