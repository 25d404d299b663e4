/**
  The calls of `initialize`: each registers for the notification, re-checks the state under the
  lock, and waits for the notification, for stopping or for the supervisor's end. The supervisor
  notifies after it has published the outcome.
  */
module InitializeCall {
  import opened Wrappers
  import opened BackgroundRuntime

  datatype Answer = Success | Fault(fault: BackgroundRuntime.Fault) | StoppingFirst | SupervisorGone

  /** `seen` is the number of notifications made when the caller registered. */
  datatype Caller = Looping | Registered(seen: nat) | Sleeping(seen: nat) | Returned(answer: Answer) | Dropped

  /** `notifyDue` holds between publishing the outcome and notifying. */
  datatype World = World(system: System, notifyDue: bool, broadcasts: nat, callers: seq<Caller>)

  datatype CallerStep = Register | Check | WakeStopping | WakeNotified | WakeOwner | Drop

  datatype Step = Base(action: Action) | Notify | Call | OfCaller(k: nat, step: CallerStep)

  predicate CallerEnabled(w: World, caller: Caller, step: CallerStep) {
    match step
    case Register => caller.Looping?
    case Check => caller.Registered? && !w.system.lockHeld
    case WakeStopping => caller.Sleeping? && w.system.stopping
    case WakeNotified => caller.Sleeping? && caller.seen < w.broadcasts
    case WakeOwner => caller.Sleeping? && Left(w.system.supervisor)
    case Drop => !caller.Returned? && !caller.Dropped?
  }

  /** What the caller does when it looks at the state under the lock. */
  function Checked(s: System, seen: nat): Caller {
    if s.error.Some? then Returned(Fault(s.error.value))
    else if s.stopping then Returned(StoppingFirst)
    else if s.initialized then Returned(Success)
    else Sleeping(seen)
  }

  function CallerNext(w: World, caller: Caller, step: CallerStep): Caller
    requires CallerEnabled(w, caller, step)
  {
    match step
    case Register => Registered(w.broadcasts)
    case Check => Checked(w.system, caller.seen)
    case WakeStopping => Returned(StoppingFirst)
    case WakeNotified => Looping
    case WakeOwner => Returned(SupervisorGone)
    case Drop => Dropped
  }

  predicate WorldEnabled(w: World, step: Step) {
    match step
    case Base(a) => Enabled(w.system, a) && (w.notifyDue && a.OfSupervisor? ==> a.supervisor.Crash?)
    case Notify => w.notifyDue && !w.system.supervisor.Crashed?
    case Call => HostEnabled(w.system, EnsureOwner)
    case OfCaller(k, c) => k < |w.callers| && CallerEnabled(w, w.callers[k], c)
  }

  function WorldNext(w: World, step: Step): World
    requires WorldEnabled(w, step)
  {
    match step
    case Base(a) =>
      w.(system := Next(w.system, a),
         notifyDue := w.notifyDue || a == OfSupervisor(SupervisorAction.Initialize))
    case Notify => w.(notifyDue := false, broadcasts := w.broadcasts + 1)
    case Call => w.(system := HostNext(w.system, EnsureOwner), callers := w.callers + [Looping])
    case OfCaller(k, c) => w.(callers := w.callers[k := CallerNext(w, w.callers[k], c)])
  }

  ghost predicate IsWorldRun(w: World, steps: seq<Step>)
    decreases |steps|
  {
    steps == [] || (WorldEnabled(w, steps[0]) && IsWorldRun(WorldNext(w, steps[0]), steps[1..]))
  }

  ghost function WorldAfter(w: World, steps: seq<Step>): World
    requires IsWorldRun(w, steps)
    decreases |steps|
  {
    if steps == [] then w else WorldAfter(WorldNext(w, steps[0]), steps[1..])
  }

  predicate NobodyCalled(w: World) { !w.notifyDue && w.broadcasts == 0 && w.callers == [] }

  // ---------------------------------------------------------------- what the system never takes back

  predicate BeforeOutcome(v: Supervisor) {
    v.NotRunning? || v.LoopHead? || v.CountSpawn? || v.SpawnTask? || v.AwaitReady? || v.StoreError?
  }

  /** The supervisor stores at most one error, and only before it publishes the outcome. */
  ghost predicate ErrorOnce(s: System) {
    && (s.error.Some? || s.initialized ==> !BeforeOutcome(s.supervisor))
    && (s.initialized ==> !s.supervisor.MarkInitialized?)
  }

  /** What is published stays published. */
  ghost predicate Lasts(s: System, t: System) {
    && (s.initialized ==> t.initialized) && (s.stopping ==> t.stopping) && (Left(s.supervisor) ==> Left(t.supervisor))
    && (s.error.Some? ==> t.error == s.error)
    && s.constructed <= t.constructed && |t.workers| == |s.workers|
  }

  lemma SupervisorLasts(s: System, a: SupervisorAction)
    requires SupervisorEnabled(s, a) && ErrorOnce(s)
    ensures Lasts(s, SupervisorNext(s, a)) && ErrorOnce(SupervisorNext(s, a))
    ensures SupervisorNext(s, a).initialized ==> s.initialized || a.Initialize?
  {
    SupervisorTouches(s, a);
    match a
    case RecordError =>
    case Initialize =>
    case Crash =>
    case _ =>
  }

  lemma WorkerLasts(s: System, i: nat, a: WorkerAction)
    requires WorkerEnabled(s, i, a) && ErrorOnce(s)
    ensures Lasts(s, WorkerNext(s, i, a)) && ErrorOnce(WorkerNext(s, i, a))
    ensures WorkerNext(s, i, a).initialized == s.initialized
  {
  }

  lemma HostLasts(s: System, a: HostAction)
    requires HostEnabled(s, a) && ErrorOnce(s)
    ensures Lasts(s, HostNext(s, a)) && ErrorOnce(HostNext(s, a))
    ensures HostNext(s, a).initialized == s.initialized
  {
    HostKeepsWork(s, a);
    HostKeepsFlags(s, a);
  }

  lemma ObserverLasts(s: System, a: ObserverAction)
    requires ObserverEnabled(s, a) && ErrorOnce(s)
    ensures Lasts(s, ObserverNext(s, a)) && ErrorOnce(ObserverNext(s, a))
    ensures ObserverNext(s, a).initialized == s.initialized
  {
    assert ObserverNext(s, a) == s.(observers := ObserverNext(s, a).observers, scopes := ObserverNext(s, a).scopes);
  }

  lemma ActionLasts(s: System, a: Action)
    requires Enabled(s, a) && ErrorOnce(s)
    ensures Lasts(s, Next(s, a)) && ErrorOnce(Next(s, a))
    ensures Next(s, a).initialized ==> s.initialized || a == OfSupervisor(SupervisorAction.Initialize)
  {
    match a
    case OfWorker(i, worker) => WorkerLasts(s, i, worker);
    case OfSupervisor(v) => SupervisorLasts(s, v);
    case OfHost(h) => HostLasts(s, h);
    case OfObserver(o) => ObserverLasts(s, o);
    case OfScope(_) => assert Next(s, a) == s.(scopes := Next(s, a).scopes);
  }

  // ---------------------------------------------------------------- the invariant

  /** Every answer is true of the system, and nobody sleeps who registered after the notification. */
  ghost predicate SoundCaller(s: System, broadcasts: nat, caller: Caller) {
    match caller
    case Looping => true
    case Registered(seen) => seen <= broadcasts
    case Sleeping(seen) => seen == 0
    case Returned(Success) => s.initialized && AllConstructed(s)
    case Returned(Fault(f)) => s.error == Some(f)
    case Returned(StoppingFirst) => s.stopping
    case Returned(SupervisorGone) => Left(s.supervisor)
    case Dropped => true
  }

  ghost predicate SoundCallers(s: System, broadcasts: nat, callers: seq<Caller>) {
    forall k :: 0 <= k < |callers| ==> SoundCaller(s, broadcasts, callers[k])
  }

  /** The notification follows the outcome and is not forgotten. */
  ghost predicate Publishing(w: World) {
    && (w.notifyDue || w.broadcasts > 0 ==> w.system.initialized)
    && (w.system.initialized ==> w.notifyDue || w.broadcasts > 0)
  }

  ghost predicate WorldInv(w: World) {
    Inv(w.system) && ErrorOnce(w.system) && Publishing(w) && SoundCallers(w.system, w.broadcasts, w.callers)
  }

  lemma CallersLast(s: System, t: System, broadcasts: nat, more: nat, callers: seq<Caller>)
    requires Lasts(s, t) && broadcasts <= more && SoundCallers(s, broadcasts, callers)
    ensures SoundCallers(t, more, callers)
  {
    forall k | 0 <= k < |callers| ensures SoundCaller(t, more, callers[k]) {
      assert SoundCaller(s, broadcasts, callers[k]);
    }
  }

  lemma BaseKeepsInv(w: World, a: Action)
    requires WorldInv(w) && WorldEnabled(w, Base(a))
    ensures WorldInv(WorldNext(w, Base(a)))
  {
    StepKeepsInv(w.system, a);
    ActionLasts(w.system, a);
    CallersLast(w.system, Next(w.system, a), w.broadcasts, w.broadcasts, w.callers);
    if a == OfSupervisor(SupervisorAction.Initialize) { PublishesOutcome(w.system); }
  }

  lemma PublishesOutcome(s: System)
    requires SupervisorEnabled(s, SupervisorAction.Initialize)
    ensures Next(s, OfSupervisor(SupervisorAction.Initialize)).initialized
  {
  }

  /** A caller that looks after a clean initialization finds every constructor done. */
  lemma CheckIsSound(w: World, seen: nat)
    requires WorldInv(w) && seen <= w.broadcasts
    ensures SoundCaller(w.system, w.broadcasts, Checked(w.system, seen))
  {
    if w.system.initialized && w.system.error.None? && !w.system.stopping {
      NothingBeginsUnstarted(w.system);
    }
  }

  lemma CallerKeepsInv(w: World, k: nat, step: CallerStep)
    requires WorldInv(w) && WorldEnabled(w, OfCaller(k, step))
    ensures WorldInv(WorldNext(w, OfCaller(k, step)))
  {
    assert SoundCaller(w.system, w.broadcasts, w.callers[k]);
    if step.Check? { CheckIsSound(w, w.callers[k].seen); }
  }

  lemma CallKeepsInv(w: World)
    requires WorldInv(w) && WorldEnabled(w, Call)
    ensures WorldInv(WorldNext(w, Call))
  {
    var t := HostNext(w.system, EnsureOwner);
    HostKeepsInv(w.system, EnsureOwner);
    HostLasts(w.system, EnsureOwner);
    CallersLast(w.system, t, w.broadcasts, w.broadcasts, w.callers);
  }

  lemma WorldStepKeepsInv(w: World, step: Step)
    requires WorldInv(w) && WorldEnabled(w, step)
    ensures WorldInv(WorldNext(w, step))
  {
    match step
    case Base(a) => BaseKeepsInv(w, a);
    case Notify => CallersLast(w.system, w.system, w.broadcasts, w.broadcasts + 1, w.callers);
    case Call => CallKeepsInv(w);
    case OfCaller(k, c) => CallerKeepsInv(w, k, c);
  }

  lemma {:induction false} WorldRunKeepsInv(w: World, steps: seq<Step>)
    requires WorldInv(w) && IsWorldRun(w, steps)
    ensures WorldInv(WorldAfter(w, steps))
    decreases |steps|
  {
    if steps != [] {
      WorldStepKeepsInv(w, steps[0]);
      WorldRunKeepsInv(WorldNext(w, steps[0]), steps[1..]);
    }
  }

  // ---------------------------------------------------------------- what callers may rely on

  /** The outcome was notified, or will not come any more. */
  predicate Settled(w: World) {
    (w.system.initialized && !w.notifyDue) || w.system.stopping || Left(w.system.supervisor)
  }

  ghost predicate CanWake(w: World, k: nat) {
    k < |w.callers| && (CallerEnabled(w, w.callers[k], WakeStopping) || CallerEnabled(w, w.callers[k], WakeNotified)
                        || CallerEnabled(w, w.callers[k], WakeOwner))
  }

  /** Every answer is true, and once the outcome was notified or cannot come, no sleeper is left asleep. */
  ghost predicate CallsAreServed(w: World) {
    && SoundCallers(w.system, w.broadcasts, w.callers)
    && (Settled(w) ==> forall k: nat :: k < |w.callers| && w.callers[k].Sleeping? ==> CanWake(w, k))
  }

  lemma ServedByInv(w: World)
    requires WorldInv(w)
    ensures CallsAreServed(w)
  {
    forall k: nat | Settled(w) && k < |w.callers| && w.callers[k].Sleeping? ensures CanWake(w, k) {
      assert SoundCaller(w.system, w.broadcasts, w.callers[k]);
    }
  }

  /**
    In every interleaving of all parties with any number of callers: `initialize` answers with
    success only when every constructor has succeeded, its other answers are true as well, and no
    wake-up is lost.
    */
  lemma {:induction false} InitializeIsSound(registered: nat, w: World, steps: seq<Step>)
    requires w.system == Initial(registered) && NobodyCalled(w) && IsWorldRun(w, steps)
    ensures CallsAreServed(WorldAfter(w, steps))
  {
    FreshSystem(w.system, registered);
    BeginInv(w);
    ServedFrom(w, steps);
  }

  lemma FreshSystem(s: System, registered: nat)
    requires s == Initial(registered)
    ensures Inv(s) && !s.initialized && s.error.None?
  {
    InitialInv(registered);
  }

  lemma BeginInv(w: World)
    requires Inv(w.system) && !w.system.initialized && w.system.error.None? && NobodyCalled(w)
    ensures WorldInv(w)
  {
  }

  lemma ServedFrom(w: World, steps: seq<Step>)
    requires WorldInv(w) && IsWorldRun(w, steps)
    ensures CallsAreServed(WorldAfter(w, steps))
  {
    WorldRunKeepsInv(w, steps);
    ServedByInv(WorldAfter(w, steps));
  }

  predicate Waiting(caller: Caller) { caller.Looping? || caller.Registered? || caller.Sleeping? }

  ghost predicate CanAdvance(w: World, caller: Caller) {
    exists step: CallerStep :: !step.Drop? && CallerEnabled(w, caller, step)
  }

  /** A caller of a settled call always has a step of its own, unless it waits for the lock. */
  lemma CallerIsNotBlocked(w: World, k: nat)
    requires WorldInv(w) && Settled(w) && k < |w.callers| && Waiting(w.callers[k])
    ensures (w.callers[k].Registered? && w.system.lockHeld) || CanAdvance(w, w.callers[k])
  {
    var caller := w.callers[k];
    assert SoundCaller(w.system, w.broadcasts, caller);
    match caller
    case Looping => assert CallerEnabled(w, caller, Register);
    case Registered(_) => assert w.system.lockHeld || CallerEnabled(w, caller, Check);
    case Sleeping(_) =>
      ServedByInv(w);
      assert CanWake(w, k);
  }

  lemma SettledStays(w: World, step: Step)
    requires WorldInv(w) && WorldEnabled(w, step) && Settled(w)
    ensures Settled(WorldNext(w, step))
  {
    match step
    case Base(a) =>
      ActionLasts(w.system, a);
      if a == OfSupervisor(SupervisorAction.Initialize) { assert w.system.supervisor.MarkInitialized?; }
    case Notify =>
    case Call => HostLasts(w.system, EnsureOwner);
    case OfCaller(_, _) =>
  }

  /** A settled call stays settled. */
  lemma {:induction false} SettledLasts(w: World, steps: seq<Step>)
    requires WorldInv(w) && Settled(w) && IsWorldRun(w, steps)
    ensures Settled(WorldAfter(w, steps))
    decreases |steps|
  {
    if steps != [] {
      WorldStepKeepsInv(w, steps[0]);
      SettledStays(w, steps[0]);
      SettledLasts(WorldNext(w, steps[0]), steps[1..]);
    }
  }

  // ---------------------------------------------------------------- the order of the checks

  /** What a caller is answered when it looks: a fault first, then stopping, then success; otherwise it sleeps. */
  lemma CheckAnswersExactly(w: World, k: nat)
    requires WorldEnabled(w, OfCaller(k, Check))
    ensures var s, caller := w.system, WorldNext(w, OfCaller(k, Check)).callers[k];
            && (forall f :: caller == Returned(Answer.Fault(f)) <==> s.error == Some(f))
            && (caller == Returned(StoppingFirst) <==> s.error == None && s.stopping)
            && (caller == Returned(Success) <==> s.error == None && !s.stopping && s.initialized)
            && (caller.Sleeping? <==> s.error == None && !s.stopping && !s.initialized)
  {
  }

  /** The caller has yet to look, or was told of this fault. */
  predicate HearsFault(caller: Caller, f: BackgroundRuntime.Fault) {
    caller.Looping? || caller.Registered? || caller == Returned(Answer.Fault(f)) || caller.Dropped?
  }

  /** Whoever looks after a fault was recorded is told of it and of nothing else, stopping or not. */
  lemma {:induction false} FaultComesFirst(w: World, k: nat, f: BackgroundRuntime.Fault, steps: seq<Step>)
    requires WorldInv(w) && IsWorldRun(w, steps) && w.system.error == Some(f)
    requires k < |w.callers| && HearsFault(w.callers[k], f)
    ensures k < |WorldAfter(w, steps).callers| && HearsFault(WorldAfter(w, steps).callers[k], f)
    decreases |steps|
  {
    if steps != [] {
      WorldStepKeepsInv(w, steps[0]);
      FaultStays(w, steps[0]);
      FaultComesFirst(WorldNext(w, steps[0]), k, f, steps[1..]);
    }
  }

  lemma FaultStays(w: World, step: Step)
    requires WorldInv(w) && WorldEnabled(w, step) && w.system.error.Some?
    ensures WorldNext(w, step).system.error == w.system.error
  {
    match step
    case Base(a) => ActionLasts(w.system, a);
    case Notify =>
    case Call => HostLasts(w.system, EnsureOwner);
    case OfCaller(_, _) =>
  }

  // ---------------------------------------------------------------- how long a call can take

  /** How many steps of its own a caller can still take, whatever the others do. */
  function StepsLeft(broadcasts: nat, caller: Caller): nat {
    match caller
    case Looping => if broadcasts == 0 then 5 else 2
    case Registered(_) => if broadcasts == 0 then 4 else 1
    case Sleeping(_) => 3
    case _ => 0
  }

  function CountOwn(k: nat, steps: seq<Step>): nat {
    if steps == [] then 0 else (if steps[0].OfCaller? && steps[0].k == k then 1 else 0) + CountOwn(k, steps[1..])
  }

  lemma OwnStepCounts(w: World, k: nat, step: CallerStep)
    requires WorldInv(w) && k < |w.callers| && CallerEnabled(w, w.callers[k], step)
    ensures StepsLeft(w.broadcasts, CallerNext(w, w.callers[k], step)) < StepsLeft(w.broadcasts, w.callers[k])
  {
    assert SoundCaller(w.system, w.broadcasts, w.callers[k]);
  }

  lemma StepCounts(w: World, k: nat, step: Step)
    requires WorldInv(w) && WorldEnabled(w, step) && k < |w.callers|
    ensures k < |WorldNext(w, step).callers|
    ensures var t := WorldNext(w, step);
            (if step.OfCaller? && step.k == k then 1 else 0) + StepsLeft(t.broadcasts, t.callers[k])
            <= StepsLeft(w.broadcasts, w.callers[k])
  {
    if step.OfCaller? && step.k == k { OwnStepCounts(w, k, step.step); }
  }

  /**
    Whatever the others do in between, a call of `initialize` takes at most five steps of its own:
    once it has taken them it is over.
    */
  lemma {:induction false} FiveStepsSuffice(w: World, k: nat, steps: seq<Step>)
    requires WorldInv(w) && IsWorldRun(w, steps) && k < |w.callers|
    ensures k < |WorldAfter(w, steps).callers|
    ensures var t := WorldAfter(w, steps);
            CountOwn(k, steps) + StepsLeft(t.broadcasts, t.callers[k]) <= StepsLeft(w.broadcasts, w.callers[k]) <= 5
    ensures CountOwn(k, steps) >= 5 ==> !Waiting(WorldAfter(w, steps).callers[k])
    decreases |steps|
  {
    if steps != [] {
      WorldStepKeepsInv(w, steps[0]);
      StepCounts(w, k, steps[0]);
      FiveStepsSuffice(WorldNext(w, steps[0]), k, steps[1..]);
    }
  }
}
