/**
  The calls of `wait_for_failure`: each registers for the notification of a joined worker, takes a
  snapshot, and unless that shows a failure waits for the notification or for the supervisor's end.
  A join and its notification are one lock section, so the join counter numbers the notifications;
  a watcher that registers inside the section counts as registered after it, which only takes a
  wake-up from it.
  */
module FailureWait {
  import opened BackgroundRuntime
  import Scopes = ScopeLedger

  /** `seen` is the number of joins when the watcher registered. */
  datatype Watcher =
    | Looping
    | Registered(seen: nat)
    | OwnerSeen(seen: nat, gone: bool)       // first read of the snapshot: a failed supervisor or not
    | StateSeen(seen: nat, failure: bool)    // second read
    | Undecided(seen: nat)                   // the snapshot showed no failure
    | Sleeping(seen: nat, owned: bool)       // `owned` if there was a supervisor to wait for
    | Woken                                  // the supervisor has ended: one more snapshot
    | WokenOwner(gone: bool)
    | WokenState(failure: bool)
    | Parked                                 // ended without a failure: waits for ever
    | Returned
    | Dropped

  datatype World = World(system: System, watchers: seq<Watcher>)

  datatype WatcherStep =
    | Register
    | SnapOwner
    | SnapState
    | SnapScopes(polled: Scopes.Polled)
    | TakeOwner
    | WakeNotified
    | WakeOwner
    | Drop

  datatype Step = Base(action: Action) | Watch | OfWatcher(k: nat, step: WatcherStep)

  predicate Over(watcher: Watcher) { watcher.Returned? || watcher.Dropped? }

  predicate HasFailed(c: Counters) { c.failed > 0 || c.panicked > 0 }

  /** A worker failed or panicked, or the supervisor did. */
  predicate Recorded(s: System) { HasFailed(s.counters) || s.supervisor.Crashed? }

  predicate WatcherEnabled(s: System, watcher: Watcher, step: WatcherStep) {
    match step
    case Register => watcher.Looping?
    case SnapOwner => watcher.Registered? || watcher.Woken?
    case SnapState => (watcher.OwnerSeen? || watcher.WokenOwner?) && !s.lockHeld
    case SnapScopes(_) => watcher.StateSeen? || watcher.WokenState?
    case TakeOwner => watcher.Undecided?
    case WakeNotified => watcher.Sleeping? && watcher.seen < s.counters.joined
    case WakeOwner => watcher.Sleeping? && watcher.owned && Left(s.supervisor)
    case Drop => !Over(watcher)
  }

  function WatcherNext(s: System, watcher: Watcher, step: WatcherStep): Watcher
    requires WatcherEnabled(s, watcher, step)
  {
    match step
    case Register => Registered(s.counters.joined)
    case SnapOwner =>
      if watcher.Woken? then WokenOwner(s.supervisor.Crashed?) else OwnerSeen(watcher.seen, s.supervisor.Crashed?)
    case SnapState =>
      var failure := watcher.gone || HasFailed(s.counters);
      if watcher.WokenOwner? then WokenState(failure) else StateSeen(watcher.seen, failure)
    case SnapScopes(_) =>
      if watcher.WokenState? then (if watcher.failure then Looping else Parked)
      else if watcher.failure then Returned else Undecided(watcher.seen)
    case TakeOwner => Sleeping(watcher.seen, !s.supervisor.NotRunning?)
    case WakeNotified => Looping
    case WakeOwner => Woken
    case Drop => Dropped
  }

  predicate WorldEnabled(w: World, step: Step) {
    match step
    case Base(a) => Enabled(w.system, a)
    case Watch => true
    case OfWatcher(k, c) => k < |w.watchers| && WatcherEnabled(w.system, w.watchers[k], c)
  }

  /** The third read of a snapshot also retires the scopes whose cleanup has ended. */
  function SystemAfter(s: System, step: WatcherStep): System {
    if step.SnapScopes? then s.(scopes := Scopes.Next(s.scopes, Scopes.TakeSnapshot(step.polled))) else s
  }

  function WorldNext(w: World, step: Step): World
    requires WorldEnabled(w, step)
  {
    match step
    case Base(a) => w.(system := Next(w.system, a))
    case Watch => w.(watchers := w.watchers + [Looping])
    case OfWatcher(k, c) =>
      World(SystemAfter(w.system, c), w.watchers[k := WatcherNext(w.system, w.watchers[k], c)])
  }

  ghost predicate IsWorldRun(w: World, steps: seq<Step>)
    decreases |steps|
  {
    steps == [] || (WorldEnabled(w, steps[0]) && IsWorldRun(WorldNext(w, steps[0]), steps[1..]))
  }

  ghost function WorldAfter(w: World, steps: seq<Step>): World
    requires IsWorldRun(w, steps)
    decreases |steps|
  {
    if steps == [] then w else WorldAfter(WorldNext(w, steps[0]), steps[1..])
  }

  // ---------------------------------------------------------------- what the system never takes back

  /** Failures are counted by joins only, and nothing is counted once the supervisor has left. */
  ghost predicate Lasts(s: System, t: System) {
    && s.counters.joined <= t.counters.joined && s.counters.failed <= t.counters.failed
    && s.counters.panicked <= t.counters.panicked
    && (s.counters.joined == t.counters.joined ==>
          s.counters.failed == t.counters.failed && s.counters.panicked == t.counters.panicked)
    && (Left(s.supervisor) ==> t.supervisor == s.supervisor && t.counters.joined == s.counters.joined)
    && (!s.supervisor.NotRunning? ==> !t.supervisor.NotRunning?)
  }

  lemma SupervisorLasts(s: System, a: SupervisorAction)
    requires SupervisorEnabled(s, a)
    ensures Lasts(s, SupervisorNext(s, a))
  {
    StillThere(s, a);
    match a
    case Join(_, _) =>
    case _ => assert SupervisorNext(s, a).counters.joined == s.counters.joined;
  }

  lemma WorkerLasts(s: System, i: nat, a: WorkerAction)
    requires WorkerEnabled(s, i, a)
    ensures Lasts(s, WorkerNext(s, i, a))
  {
  }

  lemma HostLasts(s: System, a: HostAction)
    requires HostEnabled(s, a)
    ensures Lasts(s, HostNext(s, a))
  {
    HostKeepsWork(s, a);
  }

  lemma ObserverLasts(s: System, a: ObserverAction)
    requires ObserverEnabled(s, a)
    ensures Lasts(s, ObserverNext(s, a))
  {
    assert ObserverNext(s, a) == s.(observers := ObserverNext(s, a).observers, scopes := ObserverNext(s, a).scopes);
  }

  lemma ActionLasts(s: System, a: Action)
    requires Enabled(s, a)
    ensures Lasts(s, Next(s, a))
  {
    match a
    case OfWorker(i, worker) => WorkerLasts(s, i, worker);
    case OfSupervisor(v) => SupervisorLasts(s, v);
    case OfHost(h) => HostLasts(s, h);
    case OfObserver(o) => ObserverLasts(s, o);
    case OfScope(_) => assert Next(s, a) == s.(scopes := Next(s, a).scopes);
  }

  lemma WorldLasts(w: World, step: Step)
    requires WorldEnabled(w, step)
    ensures Lasts(w.system, WorldNext(w, step).system) && |w.watchers| <= |WorldNext(w, step).watchers|
  {
    if step.Base? { ActionLasts(w.system, step.action); }
  }

  // ---------------------------------------------------------------- the invariant

  /** If nobody was joined since the watcher registered, there is no failed worker. */
  predicate Calm(s: System, seen: nat) {
    seen <= s.counters.joined && (seen == s.counters.joined ==> !HasFailed(s.counters))
  }

  predicate SoundWatcher(s: System, watcher: Watcher) {
    match watcher
    case Looping => true
    case Registered(seen) => seen <= s.counters.joined
    case OwnerSeen(seen, gone) => seen <= s.counters.joined && (gone ==> s.supervisor.Crashed?)
    case StateSeen(seen, failure) => if failure then Recorded(s) else Calm(s, seen)
    case Undecided(seen) => Calm(s, seen)
    case Sleeping(seen, owned) => Calm(s, seen) && (owned ==> !s.supervisor.NotRunning?)
    case Woken => Left(s.supervisor)
    case WokenOwner(gone) => Left(s.supervisor) && gone == s.supervisor.Crashed?
    case WokenState(failure) => Left(s.supervisor) && failure == Recorded(s)
    case Parked => s.supervisor.Exited? && !HasFailed(s.counters)
    case Returned => Recorded(s)
    case Dropped => true
  }

  ghost predicate SoundWatchers(w: World) {
    forall k :: 0 <= k < |w.watchers| ==> SoundWatcher(w.system, w.watchers[k])
  }

  lemma WatcherLasts(s: System, t: System, watcher: Watcher)
    requires Lasts(s, t) && SoundWatcher(s, watcher)
    ensures SoundWatcher(t, watcher)
  {
  }

  lemma WatcherStepIsSound(s: System, watcher: Watcher, step: WatcherStep)
    requires SoundWatcher(s, watcher) && WatcherEnabled(s, watcher, step)
    ensures SoundWatcher(s, WatcherNext(s, watcher, step))
  {
  }

  lemma StepKeepsSound(w: World, step: Step)
    requires SoundWatchers(w) && WorldEnabled(w, step)
    ensures SoundWatchers(WorldNext(w, step))
  {
    var t := WorldNext(w, step);
    WorldLasts(w, step);
    forall k | 0 <= k < |t.watchers| ensures SoundWatcher(t.system, t.watchers[k]) {
      if k < |w.watchers| {
        if step.OfWatcher? && step.k == k {
          WatcherStepIsSound(w.system, w.watchers[k], step.step);
        }
        WatcherLasts(w.system, t.system, t.watchers[k]);
      }
    }
  }

  lemma {:induction false} RunKeepsSound(w: World, steps: seq<Step>)
    requires SoundWatchers(w) && IsWorldRun(w, steps)
    ensures SoundWatchers(WorldAfter(w, steps))
    decreases |steps|
  {
    if steps != [] {
      StepKeepsSound(w, steps[0]);
      RunKeepsSound(WorldNext(w, steps[0]), steps[1..]);
    }
  }

  // ---------------------------------------------------------------- what watchers may rely on

  predicate CanWake(s: System, watcher: Watcher) {
    WatcherEnabled(s, watcher, WakeNotified) || WatcherEnabled(s, watcher, WakeOwner)
  }

  /** The watcher found no supervisor to wait for, and nobody was joined since it registered. */
  predicate Unattended(s: System, watcher: Watcher) {
    watcher.Sleeping? && !watcher.owned && watcher.seen == s.counters.joined
  }

  /**
    Nobody returns without a failure or is parked with one. Once a failure is there, a sleeper can
    wake exactly when it is attended, and a failed worker always wakes it.
    */
  ghost predicate FailuresAreReported(w: World) {
    var failed := w.system.counters.failed > 0 || w.system.counters.panicked > 0;
    var recorded := failed || w.system.supervisor.Crashed?;
    forall k :: 0 <= k < |w.watchers| ==>
      && (w.watchers[k].Returned? ==> recorded)
      && (w.watchers[k].Parked? ==> !recorded)
      && (w.watchers[k].Sleeping? && failed ==> CanWake(w.system, w.watchers[k]))
      && (w.watchers[k].Sleeping? && recorded ==>
            (CanWake(w.system, w.watchers[k]) <==> !Unattended(w.system, w.watchers[k])))
  }

  lemma ReportedBySound(w: World)
    requires SoundWatchers(w)
    ensures FailuresAreReported(w)
  {
    forall k | 0 <= k < |w.watchers|
      ensures w.watchers[k].Returned? ==> Recorded(w.system)
      ensures w.watchers[k].Parked? ==> !Recorded(w.system)
      ensures w.watchers[k].Sleeping? && HasFailed(w.system.counters) ==> CanWake(w.system, w.watchers[k])
      ensures w.watchers[k].Sleeping? && Recorded(w.system) ==>
                (CanWake(w.system, w.watchers[k]) <==> !Unattended(w.system, w.watchers[k]))
    {
      assert SoundWatcher(w.system, w.watchers[k]);
    }
  }

  /** In every interleaving of all parties with any number of watchers. */
  lemma {:induction false} WaitForFailureIsSound(w: World, steps: seq<Step>)
    requires w.watchers == [] && IsWorldRun(w, steps)
    ensures FailuresAreReported(WorldAfter(w, steps))
  {
    RunKeepsSound(w, steps);
    ReportedBySound(WorldAfter(w, steps));
  }

  /** A watcher whose call began when there was a supervisor is always attended. */
  lemma {:induction false} LateCallersAreAttended(w: World, k: nat, steps: seq<Step>)
    requires IsWorldRun(w, steps) && k < |w.watchers| && !w.system.supervisor.NotRunning?
    requires w.watchers[k].Sleeping? ==> w.watchers[k].owned
    ensures k < |WorldAfter(w, steps).watchers|
    ensures !Unattended(WorldAfter(w, steps).system, WorldAfter(w, steps).watchers[k])
    decreases |steps|
  {
    if steps != [] {
      WorldLasts(w, steps[0]);
      LateCallersAreAttended(WorldNext(w, steps[0]), k, steps[1..]);
    }
  }

  /** An unattended watcher of a crashed supervisor sleeps for ever, unless it is dropped. */
  lemma {:induction false} UnattendedForGood(w: World, k: nat, steps: seq<Step>)
    requires IsWorldRun(w, steps) && k < |w.watchers| && w.system.supervisor.Crashed?
    requires Unattended(w.system, w.watchers[k])
    ensures k < |WorldAfter(w, steps).watchers|
    ensures WorldAfter(w, steps).watchers[k] == w.watchers[k] || WorldAfter(w, steps).watchers[k].Dropped?
    decreases |steps|
  {
    if steps != [] {
      var t := WorldNext(w, steps[0]);
      WorldLasts(w, steps[0]);
      if t.watchers[k].Dropped? {
        DroppedStays(t, k, steps[1..]);
      } else {
        UnattendedForGood(t, k, steps[1..]);
      }
    }
  }

  lemma {:induction false} DroppedStays(w: World, k: nat, steps: seq<Step>)
    requires IsWorldRun(w, steps) && k < |w.watchers| && w.watchers[k].Dropped?
    ensures k < |WorldAfter(w, steps).watchers| && WorldAfter(w, steps).watchers[k].Dropped?
    decreases |steps|
  {
    if steps != [] { DroppedStays(WorldNext(w, steps[0]), k, steps[1..]); }
  }

  // ---------------------------------------------------------------- how long a report can take

  /** How many steps of its own a watcher can still take once a failure is there. */
  function StepsLeft(s: System, watcher: Watcher): nat {
    match watcher
    case Looping => 4
    case Registered(_) => 3
    case OwnerSeen(_, gone) => if gone || HasFailed(s.counters) then 2 else 11
    case StateSeen(_, failure) => if failure then 1 else 10
    case Undecided(_) => 9
    case Sleeping(_, _) => 8
    case Woken => 7
    case WokenOwner(_) => 6
    case WokenState(_) => 5
    case _ => 0
  }

  function CountOwn(k: nat, steps: seq<Step>): nat {
    if steps == [] then 0 else (if steps[0].OfWatcher? && steps[0].k == k then 1 else 0) + CountOwn(k, steps[1..])
  }

  lemma OwnStepCounts(s: System, watcher: Watcher, step: WatcherStep)
    requires SoundWatcher(s, watcher) && Recorded(s) && WatcherEnabled(s, watcher, step)
    ensures StepsLeft(s, WatcherNext(s, watcher, step)) < StepsLeft(s, watcher)
  {
  }

  lemma StepCounts(w: World, k: nat, step: Step)
    requires SoundWatchers(w) && Recorded(w.system) && WorldEnabled(w, step) && k < |w.watchers|
    ensures var t := WorldNext(w, step);
            && Recorded(t.system) && k < |t.watchers|
            && (if step.OfWatcher? && step.k == k then 1 else 0) + StepsLeft(t.system, t.watchers[k])
               <= StepsLeft(w.system, w.watchers[k])
  {
    WorldLasts(w, step);
    if step.OfWatcher? && step.k == k {
      assert SoundWatcher(w.system, w.watchers[k]);
      OwnStepCounts(w.system, w.watchers[k], step.step);
    }
  }

  /**
    Whatever the others do in between, a watcher that has taken eleven steps of its own since a
    failure was recorded has reported it.
    */
  lemma {:induction false} ElevenStepsSuffice(w: World, k: nat, steps: seq<Step>)
    requires SoundWatchers(w) && Recorded(w.system) && IsWorldRun(w, steps) && k < |w.watchers|
    ensures k < |WorldAfter(w, steps).watchers| && Recorded(WorldAfter(w, steps).system)
    ensures var t := WorldAfter(w, steps);
            CountOwn(k, steps) + StepsLeft(t.system, t.watchers[k]) <= StepsLeft(w.system, w.watchers[k]) <= 11
    ensures CountOwn(k, steps) >= 11 ==> Over(WorldAfter(w, steps).watchers[k])
    decreases |steps|
  {
    if steps != [] {
      StepKeepsSound(w, steps[0]);
      StepCounts(w, k, steps[0]);
      ElevenStepsSuffice(WorldNext(w, steps[0]), k, steps[1..]);
    }
    RunKeepsSound(w, steps);
    NothingLeft(WorldAfter(w, steps), k);
  }

  lemma NothingLeft(w: World, k: nat)
    requires SoundWatchers(w) && Recorded(w.system) && k < |w.watchers|
    ensures StepsLeft(w.system, w.watchers[k]) == 0 ==> Over(w.watchers[k])
  {
    assert SoundWatcher(w.system, w.watchers[k]);
  }

  /** With a failure there, an attended watcher always has a step of its own, unless it waits for the lock. */
  lemma WatcherIsNotBlocked(w: World, k: nat)
    requires SoundWatchers(w) && Recorded(w.system) && k < |w.watchers|
    requires !Over(w.watchers[k]) && !Unattended(w.system, w.watchers[k])
    ensures w.system.lockHeld || CanAdvance(w.system, w.watchers[k])
  {
    var s, watcher := w.system, w.watchers[k];
    assert SoundWatcher(s, watcher);
    assert
      || s.lockHeld || CanWake(s, watcher)
      || WatcherEnabled(s, watcher, Register) || WatcherEnabled(s, watcher, SnapOwner)
      || WatcherEnabled(s, watcher, SnapState) || WatcherEnabled(s, watcher, SnapScopes(map[]))
      || WatcherEnabled(s, watcher, TakeOwner);
  }

  ghost predicate CanAdvance(s: System, watcher: Watcher) {
    exists step: WatcherStep :: !step.Drop? && WatcherEnabled(s, watcher, step)
  }

  // ---------------------------------------------------------------- nothing to report

  /** The supervisor has ended and there is no failure, nor will there be. */
  predicate Quiet(s: System) { s.supervisor.Exited? && !HasFailed(s.counters) }

  /** How many steps of its own a watcher can still take then; one that registered before a join takes a round more. */
  function QuietSteps(s: System, watcher: Watcher): nat {
    match watcher
    case Looping => 10
    case Registered(seen) => if seen < s.counters.joined then 15 else 9
    case OwnerSeen(seen, _) => if seen < s.counters.joined then 14 else 8
    case StateSeen(seen, _) => if seen < s.counters.joined then 13 else 7
    case Undecided(seen) => if seen < s.counters.joined then 12 else 6
    case Sleeping(seen, _) => if seen < s.counters.joined then 11 else 5
    case Woken => 4
    case WokenOwner(_) => 3
    case WokenState(_) => 2
    case Parked => 1
    case _ => 0
  }

  lemma QuietStepCounts(s: System, watcher: Watcher, step: WatcherStep)
    requires SoundWatcher(s, watcher) && Quiet(s) && WatcherEnabled(s, watcher, step)
    ensures QuietSteps(s, WatcherNext(s, watcher, step)) < QuietSteps(s, watcher)
  {
  }

  lemma QuietStays(w: World, k: nat, step: Step)
    requires SoundWatchers(w) && Quiet(w.system) && WorldEnabled(w, step) && k < |w.watchers|
    ensures var t := WorldNext(w, step);
            && Quiet(t.system) && k < |t.watchers|
            && (if step.OfWatcher? && step.k == k then 1 else 0) + QuietSteps(t.system, t.watchers[k])
               <= QuietSteps(w.system, w.watchers[k])
  {
    WorldLasts(w, step);
    if step.OfWatcher? && step.k == k {
      assert SoundWatcher(w.system, w.watchers[k]);
      QuietStepCounts(w.system, w.watchers[k], step.step);
    }
  }

  /**
    A watcher does not poll a supervisor that ended without a failure over and over: after at most
    fourteen steps of its own it is parked, and then it can only be dropped.
    */
  lemma {:induction false} QuietWatchersPark(w: World, k: nat, steps: seq<Step>)
    requires SoundWatchers(w) && Quiet(w.system) && IsWorldRun(w, steps) && k < |w.watchers|
    ensures k < |WorldAfter(w, steps).watchers|
    ensures SoundWatcher(WorldAfter(w, steps).system, WorldAfter(w, steps).watchers[k])
    ensures var t := WorldAfter(w, steps);
            CountOwn(k, steps) + QuietSteps(t.system, t.watchers[k]) <= QuietSteps(w.system, w.watchers[k]) <= 15
    ensures CountOwn(k, steps) >= 14 ==>
              WorldAfter(w, steps).watchers[k].Parked? || WorldAfter(w, steps).watchers[k].Dropped?
    decreases |steps|
  {
    if steps == [] {
      assert SoundWatcher(w.system, w.watchers[k]);
    } else {
      StepKeepsSound(w, steps[0]);
      QuietStays(w, k, steps[0]);
      QuietWatchersPark(WorldNext(w, steps[0]), k, steps[1..]);
      QuietEnd(w, steps, k);
    }
  }

  lemma {:induction false} QuietEnd(w: World, steps: seq<Step>, k: nat)
    requires SoundWatchers(w) && Quiet(w.system) && IsWorldRun(w, steps) && k < |w.watchers|
    ensures Quiet(WorldAfter(w, steps).system)
    decreases |steps|
  {
    if steps != [] {
      StepKeepsSound(w, steps[0]);
      QuietStays(w, k, steps[0]);
      QuietEnd(WorldNext(w, steps[0]), steps[1..], k);
    }
  }

  // ---------------------------------------------------------------- a supervisor nobody waits for

  lemma RunStep(w: World, step: Step, steps: seq<Step>)
    requires WorldEnabled(w, step) && IsWorldRun(WorldNext(w, step), steps)
    ensures IsWorldRun(w, [step] + steps) && WorldAfter(w, [step] + steps) == WorldAfter(WorldNext(w, step), steps)
  {
    assert ([step] + steps)[1..] == steps;
  }

  /** A system that nobody has started. */
  predicate Untouched(s: System) { s.supervisor.NotRunning? && !HasFailed(s.counters) && !s.lockHeld }

  lemma {:induction false} RunConcat(w: World, a: seq<Step>, b: seq<Step>)
    requires IsWorldRun(w, a) && IsWorldRun(WorldAfter(w, a), b)
    ensures IsWorldRun(w, a + b) && WorldAfter(w, a + b) == WorldAfter(WorldAfter(w, a), b)
    decreases |a|
  {
    if a == [] {
      assert a + b == b;
    } else {
      RunConcat(WorldNext(w, a[0]), a[1..], b);
      assert (a + b)[1..] == a[1..] + b;
    }
  }

  /** The supervisor is started and crashes. */
  lemma StartAndCrash(w: World) returns (steps: seq<Step>)
    requires Untouched(w.system)
    ensures IsWorldRun(w, steps)
    ensures var t := WorldAfter(w, steps);
            t.watchers == w.watchers && t.system.supervisor.Crashed? && t.system.counters == w.system.counters
  {
    var start, crash := Base(OfHost(EnsureOwner)), Base(OfSupervisor(Crash));
    var t := WorldNext(w, start);
    assert t.system.supervisor == LoopHead(0) && t.system.counters == w.system.counters;
    RunStep(t, crash, []);
    RunStep(w, start, [crash] + []);
    steps := [start] + ([crash] + []);
  }

  /** A watcher that calls before that finds nothing and falls asleep. */
  lemma FallAsleep(w: World) returns (steps: seq<Step>)
    requires Untouched(w.system) && w.watchers == []
    ensures IsWorldRun(w, steps)
    ensures var t := WorldAfter(w, steps);
            && t.system == w.system.(scopes := t.system.scopes)
            && t.watchers == [Sleeping(w.system.counters.joined, false)]
  {
    var joined := w.system.counters.joined;
    var r, a, b := OfWatcher(0, Register), OfWatcher(0, SnapOwner), OfWatcher(0, SnapState);
    var c, d := OfWatcher(0, SnapScopes(map[])), OfWatcher(0, TakeOwner);
    var w0 := WorldNext(w, Watch);
    assert w0.watchers == [Looping];
    var w1 := WorldNext(w0, r);
    assert w1.watchers == [Registered(joined)];
    var w2 := WorldNext(w1, a);
    assert w2.watchers == [OwnerSeen(joined, false)];
    var w3 := WorldNext(w2, b);
    assert w3.watchers == [StateSeen(joined, false)];
    var w4 := WorldNext(w3, c);
    assert w4.watchers == [Undecided(joined)];
    assert WorldNext(w4, d).watchers == [Sleeping(joined, false)];
    RunStep(w4, d, []);
    RunStep(w3, c, [d] + []);
    RunStep(w2, b, [c] + ([d] + []));
    RunStep(w1, a, [b] + ([c] + ([d] + [])));
    RunStep(w0, r, [a] + ([b] + ([c] + ([d] + []))));
    RunStep(w, Watch, [r] + ([a] + ([b] + ([c] + ([d] + [])))));
    steps := [Watch] + ([r] + ([a] + ([b] + ([c] + ([d] + [])))));
  }

  /**
    For one: a call made before there is a supervisor, which then is started and crashes. The
    watcher is unattended.
    */
  lemma CrashGoesUnnoticed(registered: nat, w: World) returns (steps: seq<Step>)
    requires w.system == Initial(registered) && w.watchers == []
    ensures IsWorldRun(w, steps)
    ensures var t := WorldAfter(w, steps);
            t.system.supervisor.Crashed? && |t.watchers| == 1 && Unattended(t.system, t.watchers[0])
  {
    var sleep := FallAsleep(w);
    var t := WorldAfter(w, sleep);
    var crash := StartAndCrash(t);
    RunConcat(w, sleep, crash);
    steps := sleep + crash;
  }
}
