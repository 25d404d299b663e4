/** The calls of `start`: what they answer, and that a successful one lets every prepared worker begin. */
module BackgroundStart {
  import opened Wrappers
  import opened BackgroundRuntime
  import Published = InitializeCall

  // ---------------------------------------------------------------- answers

  /**
    What `start` answers and does: stopping is reported first, then a failed initialization, then a
    missing one; otherwise the start token is set, and nothing else changes.
    */
  lemma StartAnswersExactly(s: System)
    requires HostEnabled(s, Start)
    ensures var t := HostNext(s, Start);
            && t == s.(start := t.start, starts := t.starts) && |t.starts| == |s.starts| + 1 && s.starts <= t.starts
            && var answer := t.starts[|s.starts|];
               && (answer == Started <==> !s.stopping && s.error == None && s.initialized)
               && (answer == StartedTooLate <==> s.stopping)
               && (forall f :: answer == StartFailed(f) <==> !s.stopping && s.error == Some(f))
               && (answer == NotInitialized <==> !s.stopping && s.error == None && !s.initialized)
               && (t.start <==> s.start || answer == Started)
  {
  }

  /** How far things have come when this is answered. */
  function Stage(a: StartAnswer): nat {
    match a
    case NotInitialized => 0
    case Started => 1
    case StartFailed(_) => 1
    case StartedTooLate => 2
  }

  /** The second answer may be given after the first. */
  predicate MayFollow(a: StartAnswer, b: StartAnswer) { a == b || Stage(a) < Stage(b) }

  ghost predicate InOrder(answers: seq<StartAnswer>) {
    forall i, j :: 0 <= i < j < |answers| ==> MayFollow(answers[i], answers[j])
  }

  /** Answers so far agree with each other, with the token, and with what would be answered now. */
  ghost predicate AnswersAgree(s: System) {
    && (s.start <==> Started in s.starts)
    && InOrder(s.starts)
    && forall i :: 0 <= i < |s.starts| ==> MayFollow(s.starts[i], AnswerToStart(s))
  }

  lemma ErrorStaysOut(s: System, a: SupervisorAction)
    requires SupervisorEnabled(s, a) && Published.ErrorOnce(s) && s.initialized
    ensures SupervisorNext(s, a).error == s.error
  {
    match a
    case RecordError =>
    case _ =>
  }

  lemma ErrorSettled(s: System, a: Action)
    requires Enabled(s, a) && Published.ErrorOnce(s) && s.initialized
    ensures Next(s, a).error == s.error
  {
    match a
    case OfWorker(i, w) => WorkerStarts(s, i, w);
    case OfSupervisor(v) => ErrorStaysOut(s, v);
    case OfHost(h) => HostKeepsWork(s, h);
    case OfObserver(o) => ObserverStarts(s, o);
    case OfScope(_) =>
  }

  lemma AnswerLater(s: System, t: System)
    requires Published.Lasts(s, t) && (s.initialized ==> t.error == s.error)
    ensures MayFollow(AnswerToStart(s), AnswerToStart(t))
  {
  }

  /** What would be answered moves on, and never back. */
  lemma AnswerMovesOn(s: System, a: Action)
    requires Enabled(s, a) && Published.ErrorOnce(s)
    ensures MayFollow(AnswerToStart(s), AnswerToStart(Next(s, a)))
  {
    Published.ActionLasts(s, a);
    if s.initialized { ErrorSettled(s, a); }
    AnswerLater(s, Next(s, a));
  }

  lemma StartsKept(s: System, a: Action)
    requires Enabled(s, a) && a != OfHost(Start)
    ensures Next(s, a).starts == s.starts && Next(s, a).start == s.start
  {
    match a
    case OfWorker(i, w) => WorkerStarts(s, i, w);
    case OfSupervisor(v) => SupervisorStarts(s, v);
    case OfHost(h) => HostStarts(s, h);
    case OfObserver(o) => ObserverStarts(s, o);
    case OfScope(_) =>
  }

  lemma WorkerStarts(s: System, i: nat, a: WorkerAction)
    requires WorkerEnabled(s, i, a)
    ensures WorkerNext(s, i, a).starts == s.starts && WorkerNext(s, i, a).start == s.start
    ensures WorkerNext(s, i, a).error == s.error
  {
    match a
    case ConstructOk =>
    case _ =>
  }

  lemma SupervisorStarts(s: System, a: SupervisorAction)
    requires SupervisorEnabled(s, a)
    ensures SupervisorNext(s, a).starts == s.starts && SupervisorNext(s, a).start == s.start
  {
    match a
    case Join(_, _) =>
    case _ =>
  }

  lemma HostStarts(s: System, a: HostAction)
    requires HostEnabled(s, a) && !a.Start?
    ensures HostNext(s, a).starts == s.starts && HostNext(s, a).start == s.start
  {
    match a
    case EnsureOwner =>
    case _ =>
  }

  lemma ObserverStarts(s: System, a: ObserverAction)
    requires ObserverEnabled(s, a)
    ensures ObserverNext(s, a).starts == s.starts && ObserverNext(s, a).start == s.start
    ensures ObserverNext(s, a).workers == s.workers && ObserverNext(s, a).error == s.error
  {
    match a
    case ReadOwner =>
    case _ =>
  }

  lemma StepKeepsAgreement(s: System, a: Action)
    requires Enabled(s, a) && Published.ErrorOnce(s) && AnswersAgree(s)
    ensures AnswersAgree(Next(s, a)) && Published.ErrorOnce(Next(s, a))
  {
    var t := Next(s, a);
    Published.ActionLasts(s, a);
    AnswerMovesOn(s, a);
    if a == OfHost(Start) {
      assert t.starts == s.starts + [AnswerToStart(s)];
    } else {
      StartsKept(s, a);
    }
    forall i | 0 <= i < |t.starts| ensures MayFollow(t.starts[i], AnswerToStart(t)) {
      if i < |s.starts| { assert t.starts[i] == s.starts[i]; }
    }
  }

  lemma {:induction false} RunKeepsAgreement(s: System, run: seq<Action>)
    requires IsRun(s, run) && Published.ErrorOnce(s) && AnswersAgree(s)
    ensures AnswersAgree(After(s, run))
    decreases |run|
  {
    if run != [] {
      StepKeepsAgreement(s, run[0]);
      RunKeepsAgreement(Next(s, run[0]), run[1..]);
    }
  }

  /**
    In every run the start token is set exactly if some call was answered with success, and the
    answers come in order: not initialized, then either success or one and the same fault, then
    stopping.
    */
  lemma {:induction false} StartsAnswerInOrder(registered: nat, start: System, run: seq<Action>)
    requires start == Initial(registered) && IsRun(start, run)
    ensures var t := After(start, run); (t.start <==> Started in t.starts) && InOrder(t.starts)
  {
    RunKeepsAgreement(start, run);
  }

  // ---------------------------------------------------------------- what a start releases

  ghost predicate NoStepOf(i: nat, run: seq<Action>) {
    forall k :: 0 <= k < |run| && run[k].OfWorker? ==> run[k].i != i
  }

  /** Only its own steps move a worker that waits for the start. */
  lemma WaitingUndisturbed(s: System, i: nat, a: Action)
    requires Shape(s) && Enabled(s, a) && i < |s.workers| && s.workers[i].AwaitingStart?
    requires a.OfWorker? ==> a.i != i
    ensures i < |Next(s, a).workers| && Next(s, a).workers[i].AwaitingStart? && (s.start ==> Next(s, a).start)
  {
    match a
    case OfWorker(j, w) => WorkerStarts(s, j, w); OthersUnmoved(s, i, j, w);
    case OfSupervisor(v) => SupervisorStarts(s, v); SupervisorLeavesWaiting(s, i, v);
    case OfHost(h) => HostKeepsWork(s, h); HostKeepsFlags(s, h);
    case OfObserver(o) => ObserverStarts(s, o);
    case OfScope(_) =>
  }

  lemma OthersUnmoved(s: System, i: nat, j: nat, a: WorkerAction)
    requires WorkerEnabled(s, j, a) && i < |s.workers| && i != j
    ensures i < |WorkerNext(s, j, a).workers| && WorkerNext(s, j, a).workers[i] == s.workers[i]
  {
    match a
    case ConstructOk =>
    case _ =>
  }

  lemma SupervisorLeavesWaiting(s: System, i: nat, a: SupervisorAction)
    requires Shape(s) && SupervisorEnabled(s, a) && i < |s.workers| && s.workers[i].AwaitingStart?
    ensures i < |SupervisorNext(s, a).workers| && SupervisorNext(s, a).workers[i].AwaitingStart?
  {
    SupervisorTouches(s, a);
    match a
    case Spawn =>
    case Join(_, _) =>
    case _ =>
  }

  lemma {:induction false} StaysReleased(s: System, i: nat, run: seq<Action>)
    requires Inv(s) && i < |s.workers| && s.workers[i].AwaitingStart? && s.start && IsRun(s, run) && NoStepOf(i, run)
    ensures WorkerEnabled(After(s, run), i, SeeStart)
    decreases |run|
  {
    if run != [] {
      StepKeepsInv(s, run[0]);
      WaitingUndisturbed(s, i, run[0]);
      assert forall k :: 0 <= k < |run[1..]| ==> run[1..][k] == run[k + 1];
      StaysReleased(Next(s, run[0]), i, run[1..]);
    }
  }

  /**
    After a successful `start` every worker that waits for it may begin, at once and after any run
    in which it takes no step itself; a call that fails changes nothing for anybody.
    */
  lemma {:induction false} StartReleases(s: System, t: System, i: nat, run: seq<Action>)
    requires Inv(s) && HostEnabled(s, Start) && t == HostNext(s, Start)
    requires i < |s.workers| && s.workers[i].AwaitingStart? && IsRun(t, run) && NoStepOf(i, run)
    ensures t.starts[|s.starts|] == Started ==>
              WorkerEnabled(t, i, SeeStart) && WorkerEnabled(After(t, run), i, SeeStart)
    ensures t.starts[|s.starts|] != Started ==> t == s.(starts := t.starts)
  {
    StartAnswersExactly(s);
    HostKeepsInv(s, Start);
    if t.starts[|s.starts|] == Started { StaysReleased(t, i, run); }
  }

  // ---------------------------------------------------------------- how long a worker can take

  function WorkerStage(w: Worker): nat {
    match w
    case Unspawned => 1
    case Constructing => 1
    case AwaitingStart => 2
    case Released => 3
    case Executing => 4
    case Done(_, _) => 5
    case Joined(_, _) => 5
  }

  function CountOwn(i: nat, run: seq<Action>): nat {
    if run == [] then 0 else (if run[0].OfWorker? && run[0].i == i then 1 else 0) + CountOwn(i, run[1..])
  }

  lemma StepAdvances(s: System, i: nat, a: Action)
    requires Shape(s) && Enabled(s, a) && i < |s.workers|
    ensures i < |Next(s, a).workers|
    ensures WorkerStage(s.workers[i]) + (if a.OfWorker? && a.i == i then 1 else 0) <= WorkerStage(Next(s, a).workers[i])
  {
    match a
    case OfWorker(j, w) => if i == j { WorkerAdvances(s, i, w); } else { OthersUnmoved(s, i, j, w); }
    case OfSupervisor(v) => SupervisorAdvances(s, i, v);
    case OfHost(h) => HostKeepsWork(s, h);
    case OfObserver(o) => ObserverStarts(s, o);
    case OfScope(_) =>
  }

  lemma WorkerAdvances(s: System, i: nat, a: WorkerAction)
    requires WorkerEnabled(s, i, a)
    ensures i < |WorkerNext(s, i, a).workers|
    ensures WorkerStage(s.workers[i]) + 1 <= WorkerStage(WorkerNext(s, i, a).workers[i])
  {
  }

  lemma SupervisorAdvances(s: System, i: nat, a: SupervisorAction)
    requires Shape(s) && SupervisorEnabled(s, a) && i < |s.workers|
    ensures i < |SupervisorNext(s, a).workers|
    ensures WorkerStage(s.workers[i]) <= WorkerStage(SupervisorNext(s, a).workers[i])
  {
    SupervisorTouches(s, a);
  }

  /** Whatever the others do, a worker takes at most four steps of its own; then it is over. */
  lemma {:induction false} FourStepsSuffice(s: System, i: nat, run: seq<Action>)
    requires Inv(s) && IsRun(s, run) && i < |s.workers|
    ensures i < |After(s, run).workers|
    ensures WorkerStage(s.workers[i]) + CountOwn(i, run) <= WorkerStage(After(s, run).workers[i])
    ensures CountOwn(i, run) <= 4 && (CountOwn(i, run) == 4 ==> !Running(After(s, run).workers[i]))
    decreases |run|
  {
    if run != [] {
      StepKeepsInv(s, run[0]);
      StepAdvances(s, i, run[0]);
      FourStepsSuffice(Next(s, run[0]), i, run[1..]);
    }
  }

  ghost predicate CanAdvance(s: System, i: nat) {
    exists a: WorkerAction :: !a.TaskPanics? && !a.AbortTask? && WorkerEnabled(s, i, a)
  }

  /** A running worker has a step of its own, unless it waits for the start or for the lock. */
  lemma WorkerIsNotBlocked(s: System, i: nat)
    requires i < |s.workers| && i < |s.ready| && Running(s.workers[i])
    ensures CanAdvance(s, i) <==>
            !(s.workers[i].AwaitingStart? && !s.start && !s.stopping) && !(s.workers[i].Released? && s.lockHeld)
  {
    match s.workers[i]
    case Constructing => assert WorkerEnabled(s, i, ConstructOk);
    case AwaitingStart =>
      assert s.start ==> WorkerEnabled(s, i, SeeStart);
      assert s.stopping ==> WorkerEnabled(s, i, SeeStopping);
    case Released => assert !s.lockHeld ==> WorkerEnabled(s, i, Begin);
    case Executing => assert WorkerEnabled(s, i, Finish(Completed));
  }
}
