/**
  The cancellation-safe build of an application container: a caller-polled transaction that
  starts the eager singletons one by one and ends in a commit or in one rollback.
  What the environment answers (factories, descriptors, the rollback task) is an argument of each poll.
  */
module ContainerBuild {
  import opened Wrappers

  type TypeId = nat

  datatype BuildError =
    | TimeoutSettingInvalid
    | RuntimeUnavailable
    | PreparationFailed
    | MissingDescriptor(typeId: TypeId)
    | InitializerPanicked(typeId: TypeId)
    | InitializerFailed(typeId: TypeId)
    | StartupRollbackFailed(startup: BuildError, rollbackErrors: seq<string>)

  datatype Outcome =
    | Built
    | Failed(error: BuildError)
    | Cancelled(rollbackErrors: seq<string>)

  datatype Terminal = StartupFailure(error: BuildError) | CancelRequested

  /** Whether the provider admits new work. */
  datatype Admission = NoProvider | Building | Running | MarkedFailed

  datatype BuildState =
    | Unprepared
    | Initializing(order: seq<TypeId>, next: nat, current: Option<TypeId>)
    | RollingBack(terminal: Terminal)
    | Ready(outcome: Option<Outcome>)
    | Finished

  datatype InitializerPoll = Panics | Pending | Succeeds | Fails

  datatype PollResult = StillPending | Delivers(outcome: Outcome) | PanicsAfterCompletion

  /**
    What the environment answers during one poll. Descriptors and initializers are asked by their
    position in the startup plan; a rollback that is still running has no report.
    */
  datatype Environment = Environment(
    runtimeAvailable: bool, prepared: Option<seq<TypeId>>,
    hasDescriptor: nat -> bool, initializer: nat -> InitializerPoll, rollbackReport: Option<seq<string>>)

  /** What the build has done so far; `cleanRollbacks` counts rollbacks started as they should be. */
  datatype History = History(prepared: bool, rollbacks: nat, cleanRollbacks: nat, commits: nat, delivered: seq<Outcome>)

  // ---------------------------------------------------------------- what one poll amounts to

  /** The initializer at position `j` can be polled: it is live, or there is a descriptor to start it from. */
  predicate Starts(env: Environment, live: bool, from: nat, j: nat) { (live && j == from) || env.hasDescriptor(j) }

  predicate ComesUp(env: Environment, live: bool, from: nat, j: nat) {
    Starts(env, live, from, j) && env.initializer(j).Succeeds?
  }

  /** Everything from position `from` up to position `i` comes up; the first may be live already. */
  ghost predicate ComeUpTo(env: Environment, live: bool, from: nat, i: nat) {
    from <= i && forall j :: from <= j < i ==> ComesUp(env, live, from, j)
  }

  /** The ways in which starting one singleton can fail. */
  predicate IsStartupFault(e: BuildError, t: TypeId) {
    e in {MissingDescriptor(t), InitializerPanicked(t), InitializerFailed(t)}
  }

  /** The fault met at a position of the plan. */
  ghost predicate FaultAt(env: Environment, live: bool, from: nat, t: TypeId, j: nat, e: BuildError) {
    && IsStartupFault(e, t)
    && (e.MissingDescriptor? <==> !Starts(env, live, from, j))
    && (e.InitializerPanicked? ==> env.initializer(j).Panics?)
    && (e.InitializerFailed? ==> env.initializer(j).Fails?)
  }

  /** What polling a rollback comes to: its report decides how the outcome reads. */
  ghost predicate RollbackPolled(env: Environment, terminal: Terminal, state': BuildState, r: PollResult) {
    match env.rollbackReport
    case None => r == StillPending && state' == RollingBack(terminal)
    case Some(report) =>
      && state' == Finished
      && match terminal
         case CancelRequested => r == Delivers(Cancelled(report))
         case StartupFailure(e) =>
           && (report == [] ==> r == Delivers(Failed(e)))
           && (report != [] ==> r == Delivers(Failed(StartupRollbackFailed(e, report))))
  }

  /** How a poll ends at the first position of the plan that does not come up. */
  ghost predicate StopsAt(env: Environment, order: seq<TypeId>, from: nat, live: bool, i: nat,
                          state': BuildState, r: PollResult)
    requires i < |order|
  {
    if Starts(env, live, from, i) && env.initializer(i).Pending?
    then r == StillPending && state' == Initializing(order, i, Some(order[i]))
    else exists e :: FaultAt(env, live, from, order[i], i, e) && RollbackPolled(env, StartupFailure(e), state', r)
  }

  /** How a poll ends when `i` is the first position from `from` on that does not come up. */
  ghost predicate EndsAt(env: Environment, order: seq<TypeId>, from: nat, live: bool, i: nat,
                         state': BuildState, r: PollResult)
  {
    && ComeUpTo(env, live, from, i) && i <= |order|
    && if i == |order| then r == Delivers(Built) && state' == Finished
       else !ComesUp(env, live, from, i) && StopsAt(env, order, from, live, i, state', r)
  }

  /** What polling comes to from a position of the plan. */
  ghost predicate PlanPolled(env: Environment, order: seq<TypeId>, from: nat, live: bool,
                             state': BuildState, r: PollResult)
  {
    exists i: nat :: EndsAt(env, order, from, live, i, state', r)
  }

  /** The rollback errors that an outcome shows. */
  function ReportIn(o: Outcome): seq<string> {
    match o
    case Cancelled(errors) => errors
    case Failed(StartupRollbackFailed(_, errors)) => errors
    case _ => []
  }

  // ---------------------------------------------------------------- invariants

  /** How a history may look in each state. */
  ghost predicate Accounts(state: BuildState, h: History) {
    && h.cleanRollbacks == h.rollbacks
    && match state
       case Unprepared => h == History(false, 0, 0, 0, [])
       case Initializing(_, _, _) => h == History(true, 0, 0, 0, [])
       case RollingBack(_) => h == History(true, 1, 1, 0, [])
       case Ready(outcome) => h == History(false, 0, 0, 0, []) && outcome.Some? && !outcome.value.Built?
       case Finished => |h.delivered| == 1 && Settled(h)
  }

  predicate WasBuilt(h: History) { |h.delivered| == 1 && h.delivered[0].Built? }

  /** Built means committed and never rolled back; otherwise whatever was prepared was rolled back once. */
  ghost predicate Settled(h: History) {
    && |h.delivered| <= 1
    && h.cleanRollbacks == h.rollbacks
    && if WasBuilt(h) then h.prepared && h.commits == 1 && h.rollbacks == 0
       else h.commits == 0 && h.rollbacks == if h.prepared then 1 else 0
  }

  /** The transaction's cursor: the live initializer is the one the startup plan asks for next. */
  ghost predicate OnPlan(state: BuildState, live: bool) {
    if state.Initializing?
    then && state.next <= |state.order| && live == state.current.Some?
         && (live ==> state.next < |state.order| && state.current.value == state.order[state.next])
    else !live
  }

  /** Singletons come up in plan order, and a built container has them all. */
  ghost predicate UpSoFar(state: BuildState, plan: seq<TypeId>, up: seq<TypeId>, h: History) {
    && up <= plan
    && (state.Initializing? ==> plan == state.order && |up| == state.next)
    && (WasBuilt(h) ==> up == plan)
  }

  ghost predicate Admits(state: BuildState, admission: Admission, h: History) {
    match state
    case Unprepared => admission.NoProvider?
    case Initializing(_, _, _) => admission.Building?
    case RollingBack(_) => admission.MarkedFailed?
    case Ready(_) => admission.NoProvider?
    case Finished =>
      if WasBuilt(h) then admission.Running?
      else if h.prepared then admission.MarkedFailed? else admission.NoProvider?
  }

  /** An outcome other than success names the step that failed, alone or with the errors of its rollback. */
  ghost predicate Truthful(state: BuildState, plan: seq<TypeId>, up: seq<TypeId>, h: History) {
    && (state.RollingBack? && state.terminal.StartupFailure? ==>
          |up| < |plan| && IsStartupFault(state.terminal.error, plan[|up|]))
    && (|h.delivered| == 1 && h.prepared && h.delivered[0].Failed? ==>
          |up| < |plan| && NamesFault(h.delivered[0].error, plan[|up|]))
  }

  /** The error of starting `t`, alone or with the errors of its rollback. */
  predicate NamesFault(e: BuildError, t: TypeId) {
    IsStartupFault(e, t) || (e.StartupRollbackFailed? && e.rollbackErrors != [] && IsStartupFault(e.startup, t))
  }

  function Phase(state: BuildState): nat {
    match state
    case Unprepared => 3
    case Initializing(_, _, _) => 2
    case _ => 0
  }

  function Remaining(state: BuildState): nat {
    if state.Initializing? && state.next <= |state.order| then |state.order| - state.next else 0
  }

  datatype Operation = PollOnce(environment: Environment) | CancelBuild

  /** Some operation was a cancellation. */
  ghost predicate CancelledIn(operations: seq<Operation>) {
    exists k :: 0 <= k < |operations| && operations[k].CancelBuild?
  }

  /** Some poll found this rollback report. */
  ghost predicate ReportedIn(operations: seq<Operation>, errors: seq<string>) {
    exists k :: 0 <= k < |operations| && Reports(operations[k], errors)
  }

  predicate Reports(operation: Operation, errors: seq<string>) {
    operation.PollOnce? && operation.environment.rollbackReport == Some(errors)
  }

  predicate IsCancelled(state: BuildState, h: History) {
    || state == RollingBack(CancelRequested)
    || (state.Ready? && state.outcome.Some? && state.outcome.value.Cancelled?)
    || (|h.delivered| == 1 && h.delivered[0].Cancelled?)
  }

  /** Where the operations so far show in the build. */
  ghost predicate Traced(operations: seq<Operation>, state: BuildState, h: History) {
    && (IsCancelled(state, h) ==> CancelledIn(operations))
    && (|h.delivered| == 1 && h.prepared && !h.delivered[0].Built? ==> ReportedIn(operations, ReportIn(h.delivered[0])))
  }

  lemma TracedStill(operations: seq<Operation>, more: Operation, state: BuildState, h: History)
    requires Traced(operations, state, h)
    ensures Traced(operations + [more], state, h)
  {
    if CancelledIn(operations) {
      var k :| 0 <= k < |operations| && operations[k].CancelBuild?;
      assert (operations + [more])[k].CancelBuild?;
    }
    forall errors | ReportedIn(operations, errors) ensures ReportedIn(operations + [more], errors) {
      var k :| 0 <= k < |operations| && Reports(operations[k], errors);
      assert (operations + [more])[k] == operations[k];
    }
  }

  class Build {
    var state: BuildState
    var admission: Admission
    var runtimeKept: bool
    var rollbackJoined: bool
    ghost var live: bool
    ghost var history: History
    ghost var plan: seq<TypeId>
    ghost var up: seq<TypeId>

    ghost predicate Valid()
      reads this
    {
      && Accounts(state, history) && OnPlan(state, live) && Admits(state, admission, history)
      && UpSoFar(state, plan, up, history) && Truthful(state, plan, up, history)
      && (state.Initializing? ==> runtimeKept)
      && (rollbackJoined ==> state.Finished? && history.rollbacks == 1)
    }

    /** A build with an invalid timeout setting is born with its failure. */
    constructor (timeoutSettingValid: bool)
      ensures Valid() && history == History(false, 0, 0, 0, [])
      ensures timeoutSettingValid ==> state == Unprepared
      ensures !timeoutSettingValid ==> state == Ready(Some(Failed(TimeoutSettingInvalid)))
    {
      state := if timeoutSettingValid then Unprepared else Ready(Some(Failed(TimeoutSettingInvalid)));
      admission := NoProvider;
      runtimeKept, rollbackJoined := false, false;
      live := false;
      history := History(false, 0, 0, 0, []);
      plan, up := [], [];
    }

    /** Hands the provider over to the rollback task: admission is closed and no initializer lives. */
    method StartRollback(terminal: Terminal)
      requires state.Finished? && runtimeKept && !rollbackJoined
      requires admission.MarkedFailed? && !live
      requires history == History(true, 0, 0, 0, []) && up <= plan
      requires terminal.StartupFailure? ==> |up| < |plan| && IsStartupFault(terminal.error, plan[|up|])
      modifies this`history, this`state
      ensures Valid() && state == RollingBack(terminal)
      ensures history == old(history).(rollbacks := 1, cleanRollbacks := 1)
    {
      var clean := admission.MarkedFailed?;
      history := history.(rollbacks := history.rollbacks + 1,
                          cleanRollbacks := history.cleanRollbacks + if clean && !live then 1 else 0);
      state := RollingBack(terminal);
    }

    /** Closes admission, drops the live initializer, and only then starts the rollback. */
    method FailStartup(terminal: Terminal)
      requires state.Finished? && runtimeKept && !rollbackJoined
      requires history == History(true, 0, 0, 0, []) && up <= plan
      requires terminal.StartupFailure? ==> |up| < |plan| && IsStartupFault(terminal.error, plan[|up|])
      modifies this`history, this`state, this`admission, this`live
      ensures Valid() && state == RollingBack(terminal)
      ensures history == old(history).(rollbacks := 1, cleanRollbacks := 1)
    {
      admission := MarkedFailed;
      live := false;
      StartRollback(terminal);
    }

    method Deliver(outcome: Outcome) returns (r: PollResult)
      modifies this`history
      ensures r == Delivers(outcome)
      ensures history == old(history).(delivered := old(history).delivered + [outcome])
    {
      history := history.(delivered := history.delivered + [outcome]);
      r := Delivers(outcome);
    }

    /** Cancels synchronously: nothing to undo before preparation, one rollback after it, no effect at the end. */
    method Cancel()
      requires Valid()
      modifies this
      ensures Valid()
      ensures old(state).Unprepared? ==> state == Ready(Some(Cancelled([]))) && history == old(history)
      ensures old(state).Initializing? ==> state == RollingBack(CancelRequested) && history.rollbacks == 1
      ensures !old(state).Unprepared? && !old(state).Initializing? ==> state == old(state) && history == old(history)
    {
      var taken := state;
      state := Finished;
      match taken
      case Unprepared => state := Ready(Some(Cancelled([])));
      case Initializing(_, _, _) => FailStartup(CancelRequested);
      case _ => state := taken;
    }

    /** The first poll: keeps the runtime and prepares the transaction. */
    method Prepare(env: Environment) returns (r: Option<PollResult>)
      requires Valid() && state.Unprepared?
      modifies this
      ensures Valid()
      ensures r.None? <==> env.runtimeAvailable && env.prepared.Some?
      ensures r.None? ==> state == Initializing(env.prepared.value, 0, None)
      ensures r.Some? ==> state.Finished? && !history.prepared
      ensures r.Some? ==> r.value.Delivers? && history.delivered == [r.value.outcome]
      ensures !env.runtimeAvailable ==> r == Some(Delivers(Failed(RuntimeUnavailable)))
      ensures env.runtimeAvailable && env.prepared.None? ==> r == Some(Delivers(Failed(PreparationFailed)))
    {
      state := Finished;
      if !env.runtimeAvailable {
        var failed := Deliver(Failed(RuntimeUnavailable));
        return Some(failed);
      }
      runtimeKept := true;
      match env.prepared
      case None =>
        var failed := Deliver(Failed(PreparationFailed));
        return Some(failed);
      case Some(order) =>
        admission := Building;
        plan, up := order, [];
        history := history.(prepared := true);
        state := Initializing(order, 0, None);
        return None;
    }

    /** Starts the next initializer if none is live, polls it once, and acts on the answer. */
    method Initialize(env: Environment) returns (r: Option<PollResult>)
      requires Valid() && state.Initializing?
      modifies this
      ensures Valid()
      ensures plan == old(plan) && old(up) <= up
      ensures r.Some? ==> r.value in {StillPending, Delivers(Built)}
      ensures r == Some(StillPending) ==> history == old(history)
      ensures r == Some(Delivers(Built)) ==> history.delivered == [Built]
      ensures r.None? ==> history.delivered == []
      ensures var order, next, live := old(state).order, old(state).next, old(state).current.Some?;
              if next == |order| then r == Some(Delivers(Built)) && state == Finished
              else if ComesUp(env, live, next, next) then r == None && state == Initializing(order, next + 1, None)
              else if Starts(env, live, next, next) && env.initializer(next).Pending?
              then r == Some(StillPending) && state == Initializing(order, next, Some(order[next]))
              else r == None && state.RollingBack? && state.terminal.StartupFailure?
                   && FaultAt(env, live, next, order[next], next, state.terminal.error)
    {
      var order, next, current := state.order, state.next, state.current;
      state := Finished;
      if current.None? {
        if next >= |order| {
          assert next == |order|;
          admission := Running;
          history := history.(commits := history.commits + 1);
          var built := Deliver(Built);
          return Some(built);
        }
        if !env.hasDescriptor(next) {
          FailStartup(StartupFailure(MissingDescriptor(order[next])));
          return None;
        }
        current := Some(order[next]);
        live := true;
      }
      var resolution := current.value;
      match env.initializer(next)
      case Panics =>
        FailStartup(StartupFailure(InitializerPanicked(resolution)));
        return None;
      case Pending =>
        state := Initializing(order, next, current);
        return Some(StillPending);
      case Succeeds =>
        // Recording the completion: the plan expects exactly this singleton, so it cannot be refused.
        if next >= |order| || order[next] != resolution {
          assert false;
        }
        live := false;
        up := up + [resolution];
        state := Initializing(order, next + 1, None);
        return None;
      case Fails =>
        FailStartup(StartupFailure(InitializerFailed(resolution)));
        return None;
    }

    /** Polls the rollback task; an empty report leaves the startup error alone. */
    method JoinRollback(env: Environment) returns (r: PollResult)
      requires Valid() && state.RollingBack?
      modifies this
      ensures Valid()
      ensures RollbackPolled(env, old(state).terminal, state, r)
      ensures r.StillPending? ==> history == old(history)
      ensures !r.StillPending? ==> rollbackJoined && r.Delivers? && history.delivered == [r.outcome] && history.prepared
    {
      var terminal := state.terminal;
      match env.rollbackReport
      case None =>
        r := StillPending;
      case Some(errors) =>
        state := Finished;
        rollbackJoined := true;
        match terminal {
          case StartupFailure(startup) =>
            if errors == [] {
              r := Deliver(Failed(startup));
            } else {
              r := Deliver(Failed(StartupRollbackFailed(startup, errors)));
            }
          case CancelRequested =>
            r := Deliver(Cancelled(errors));
        }
    }

    /**
      Drives the build until it has an outcome or must wait: which one, follows from the first
      position of the plan that does not come up and from the rollback's report. An outcome is
      delivered at most once in the life of a build; polling again afterwards is a panic.
      */
    method Poll(env: Environment) returns (r: PollResult)
      requires Valid()
      modifies this
      ensures Valid()
      ensures r.Delivers? ==> old(history).delivered == [] && history.delivered == [r.outcome] && state.Finished?
      ensures r.StillPending? ==> history.delivered == [] && (state.Initializing? || state.RollingBack?)
      ensures r.PanicsAfterCompletion? <==> old(state).Finished?
      ensures old(state).Finished? ==> history == old(history) && state == old(state)
      ensures old(state).Ready? ==> old(state).outcome.Some? && r == Delivers(old(state).outcome.value)
      ensures old(state).Unprepared? && !env.runtimeAvailable ==> r == Delivers(Failed(RuntimeUnavailable))
      ensures old(state).Unprepared? && env.runtimeAvailable && env.prepared.None? ==>
                r == Delivers(Failed(PreparationFailed))
      ensures old(state).Unprepared? && env.runtimeAvailable && env.prepared.Some? ==>
                PlanPolled(env, env.prepared.value, 0, false, state, r)
      ensures old(state).Initializing? ==>
                PlanPolled(env, old(state).order, old(state).next, old(state).current.Some?, state, r)
      ensures old(state).RollingBack? ==> RollbackPolled(env, old(state).terminal, state, r)
      ensures r.Delivers? && history.prepared && !r.outcome.Built? ==> env.rollbackReport == Some(ReportIn(r.outcome))
      ensures IsCancelled(state, history) ==> IsCancelled(old(state), old(history))
    {
      if state.Finished? {
        return PanicsAfterCompletion;
      }
      if state.Ready? {
        if state.outcome.None? {
          assert false;
        }
        var outcome := state.outcome.value;
        state := Finished;
        r := Deliver(outcome);
        return;
      }
      if state.RollingBack? {
        r := JoinRollback(env);
        return;
      }
      if state.Unprepared? {
        var prepared := Prepare(env);
        if prepared.Some? {
          return prepared.value;
        }
      }
      r := Drive(env);
    }

    /** The loop over the initializers of the plan. */
    method Drive(env: Environment) returns (r: PollResult)
      requires Valid() && state.Initializing?
      modifies this
      ensures Valid()
      ensures PlanPolled(env, old(state).order, old(state).next, old(state).current.Some?, state, r)
      ensures !r.PanicsAfterCompletion? && (r.StillPending? ==> history.delivered == [])
      ensures r.Delivers? ==> history.delivered == [r.outcome]
      ensures r.Delivers? && !r.outcome.Built? ==> env.rollbackReport == Some(ReportIn(r.outcome))
      ensures !IsCancelled(state, history)
    {
      ghost var order, from, was := state.order, state.next, state.current.Some?;
      ghost var i := from;
      while state.Initializing?
        invariant Valid() && (state.Initializing? || state.RollingBack?) && history.delivered == []
        invariant 0 <= i <= |order| && ComeUpTo(env, was, from, i)
        invariant state.Initializing? ==> state.order == order && state.next == i
        invariant state.Initializing? ==> state.current.Some? == (was && i == from)
        invariant state.RollingBack? ==> i < |order| && !ComesUp(env, was, from, i)
        invariant state.RollingBack? ==> !Starts(env, was, from, i) || !env.initializer(i).Pending?
        invariant state.RollingBack? ==>
          state.terminal.StartupFailure? && FaultAt(env, was, from, order[i], i, state.terminal.error)
        decreases Phase(state), Remaining(state)
      {
        var step := Initialize(env);
        if step.Some? {
          r := step.value;
          assert EndsAt(env, order, from, was, i, state, r);
          return;
        }
        i := if state.Initializing? then state.next else i;
      }
      ghost var e := state.terminal.error;
      r := JoinRollback(env);
      assert FaultAt(env, was, from, order[i], i, e) && RollbackPolled(env, StartupFailure(e), state, r);
      assert EndsAt(env, order, from, was, i, state, r);
    }

    /**
      Any sequence of polls and cancellations followed by a drop: at most one outcome was
      delivered and at most one rollback was started, cleanly; a prepared build that was not
      built was rolled back exactly once, and a built container never. The singletons came up in
      plan order, all of them if the container was built. A failure names the step after the last
      singleton that came up, and shows the rollback's errors exactly if it reported any; a build
      is cancelled only on request.
      */
    method UseThenDrop(operations: seq<Operation>)
      requires Valid() && history == History(false, 0, 0, 0, []) && !IsCancelled(state, history)
      modifies this
      ensures Settled(history)
      ensures WasBuilt(history) <==> admission.Running?
      ensures up <= plan && (WasBuilt(history) ==> up == plan)
      ensures history.prepared && admission != Running ==> admission.MarkedFailed? && !live
      ensures history.prepared && history.delivered != [] && history.delivered[0].Failed? ==>
                |up| < |plan| && NamesFault(history.delivered[0].error, plan[|up|])
      ensures history.prepared && history.delivered != [] && !history.delivered[0].Built? ==>
                ReportedIn(operations, ReportIn(history.delivered[0]))
      ensures history.delivered != [] && history.delivered[0].Cancelled? ==> CancelledIn(operations)
    {
      for i := 0 to |operations|
        invariant Valid() && Traced(operations[..i], state, history)
      {
        TracedStill(operations[..i], operations[i], state, history);
        assert operations[..i + 1] == operations[..i] + [operations[i]];
        match operations[i] {
          case PollOnce(environment) =>
            var result := Poll(environment);
            assert operations[..i + 1][i] == operations[i];
          case CancelBuild =>
            Cancel();
            assert operations[..i + 1][i].CancelBuild?;
        }
      }
      assert operations[..|operations|] == operations;
      Cancel();
    }
  }
}
