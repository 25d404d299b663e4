/**
  The execution cancellation signal: an atomic flag beside a notifier, any number of waiters
  running the register, re-check, sleep loop, and any number of callers of `cancel`.
  Each step below is one atomic action; a run interleaves them freely.
  */
module CancellationSignal {

  /** `seen` is the number of broadcasts made when the waiter registered with the notifier. */
  datatype Waiter =
    | Looping
    | Registered(seen: nat)
    | Sleeping(seen: nat)
    | Returned
    | Dropped

  datatype Canceller = Called | Stored | Finished

  datatype Signal = Signal(cancelled: bool, broadcasts: nat, waiters: seq<Waiter>, cancellers: seq<Canceller>)

  datatype Step =
    | Wait                // a new waiter enters `cancelled`
    | Register(w: nat)    // creates and enables its notification future
    | Check(w: nat)       // reads the flag: returns, or goes on to await the notification
    | Wake(w: nat)        // the awaited notification is ready: back to the loop head
    | DropWaiter(w: nat)  // the caller abandons the wait
    | Call                // someone calls `cancel`
    | Store(c: nat)       // first action of `cancel`
    | Broadcast(c: nat)   // second action of `cancel`

  const INITIAL := Signal(false, 0, [], [])

  predicate Live(w: Waiter) { !w.Returned? && !w.Dropped? }

  predicate Enabled(s: Signal, step: Step) {
    match step
    case Wait => true
    case Register(w) => w < |s.waiters| && s.waiters[w].Looping?
    case Check(w) => w < |s.waiters| && s.waiters[w].Registered?
    case Wake(w) => w < |s.waiters| && s.waiters[w].Sleeping? && s.waiters[w].seen < s.broadcasts
    case DropWaiter(w) => w < |s.waiters| && Live(s.waiters[w])
    case Call => true
    case Store(c) => c < |s.cancellers| && s.cancellers[c].Called?
    case Broadcast(c) => c < |s.cancellers| && s.cancellers[c].Stored?
  }

  function Next(s: Signal, step: Step): Signal
    requires Enabled(s, step)
  {
    match step
    case Wait => s.(waiters := s.waiters + [Looping])
    case Register(w) => s.(waiters := s.waiters[w := Registered(s.broadcasts)])
    case Check(w) => s.(waiters := s.waiters[w := if s.cancelled then Returned else Sleeping(s.waiters[w].seen)])
    case Wake(w) => s.(waiters := s.waiters[w := Looping])
    case DropWaiter(w) => s.(waiters := s.waiters[w := Dropped])
    case Call => s.(cancellers := s.cancellers + [Called])
    case Store(c) => s.(cancelled := true, cancellers := s.cancellers[c := Stored])
    case Broadcast(c) => s.(broadcasts := s.broadcasts + 1, cancellers := s.cancellers[c := Finished])
  }

  ghost predicate IsRun(s: Signal, steps: seq<Step>)
    decreases |steps|
  {
    steps == [] || (Enabled(s, steps[0]) && IsRun(Next(s, steps[0]), steps[1..]))
  }

  ghost function After(s: Signal, steps: seq<Step>): Signal
    requires IsRun(s, steps)
    decreases |steps|
  {
    if steps == [] then s else After(Next(s, steps[0]), steps[1..])
  }

  ghost predicate SomeCancelFinished(s: Signal) {
    exists c :: 0 <= c < |s.cancellers| && s.cancellers[c].Finished?
  }

  /** A waiter that sleeps while no broadcast has happened since it registered. */
  predicate AsleepUnnotified(s: Signal, w: nat) {
    w < |s.waiters| && s.waiters[w].Sleeping? && s.waiters[w].seen == s.broadcasts
  }

  ghost predicate Inv(s: Signal) {
    && (forall w :: 0 <= w < |s.waiters| && s.waiters[w].Returned? ==> s.cancelled)
    && (forall w :: 0 <= w < |s.waiters| && (s.waiters[w].Registered? || s.waiters[w].Sleeping?) ==>
      s.waiters[w].seen <= s.broadcasts)
    && (forall c :: 0 <= c < |s.cancellers| && !s.cancellers[c].Called? ==> s.cancelled)
    && (SomeCancelFinished(s) ==> forall w: nat :: !AsleepUnnotified(s, w))
  }

  lemma StepKeepsInv(s: Signal, step: Step)
    requires Inv(s) && Enabled(s, step)
    ensures Inv(Next(s, step))
  {
    var t := Next(s, step);
    match step
    case Broadcast(c) =>
      forall w: nat ensures !AsleepUnnotified(t, w) { }
    case _ =>
      if SomeCancelFinished(t) {
        var c :| 0 <= c < |t.cancellers| && t.cancellers[c].Finished?;
        assert s.cancellers[c].Finished?;
        forall w: nat ensures !AsleepUnnotified(t, w) {
          assert !AsleepUnnotified(s, w);
        }
      }
  }

  lemma {:induction false} RunKeepsInv(s: Signal, steps: seq<Step>)
    requires Inv(s) && IsRun(s, steps)
    ensures Inv(After(s, steps))
    decreases |steps|
  {
    if steps != [] {
      StepKeepsInv(s, steps[0]);
      RunKeepsInv(Next(s, steps[0]), steps[1..]);
    }
  }

  /**
    In every interleaving: once any `cancel` has finished no waiter sleeps un-notified, and no
    waiter has returned unless the flag is set.
    */
  lemma NoLostWakeUp(steps: seq<Step>)
    requires IsRun(INITIAL, steps)
    ensures var s := After(INITIAL, steps);
            && (SomeCancelFinished(s) ==> forall w: nat :: !AsleepUnnotified(s, w))
            && (forall w :: 0 <= w < |s.waiters| && s.waiters[w].Returned? ==> s.cancelled)
  {
    RunKeepsInv(INITIAL, steps);
  }

  /** Cancellation is never withdrawn, and a finished `cancel` stays finished. */
  lemma {:induction false} CancellationIsMonotone(s: Signal, steps: seq<Step>)
    requires IsRun(s, steps)
    ensures s.cancelled ==> After(s, steps).cancelled
    ensures SomeCancelFinished(s) ==> SomeCancelFinished(After(s, steps))
    decreases |steps|
  {
    if steps != [] {
      var t := Next(s, steps[0]);
      if SomeCancelFinished(s) {
        var c :| 0 <= c < |s.cancellers| && s.cancellers[c].Finished?;
        assert t.cancellers[c].Finished?;
      }
      CancellationIsMonotone(t, steps[1..]);
    }
  }

  // ---------------------------------------------------------------- waiters get through

  function OwnSteps(w: nat): seq<Step> { [Register(w), Check(w), Wake(w)] }

  /** How many of its own steps separate a waiter from returning, once the flag is set. */
  function Distance(w: Waiter): nat {
    match w
    case Sleeping(_) => 3
    case Looping => 2
    case Registered(_) => 1
    case _ => 0
  }

  /** After a finished `cancel` a live waiter is never blocked, and each of its steps brings it closer. */
  lemma WaiterAdvances(s: Signal, w: nat)
    requires Inv(s) && SomeCancelFinished(s) && w < |s.waiters| && Live(s.waiters[w])
    ensures exists i :: 0 <= i < 3 && Enabled(s, OwnSteps(w)[i])
    ensures forall i :: 0 <= i < 3 && Enabled(s, OwnSteps(w)[i]) ==>
              Distance(Next(s, OwnSteps(w)[i]).waiters[w]) == Distance(s.waiters[w]) - 1
    ensures forall i :: 0 <= i < 3 && Enabled(s, OwnSteps(w)[i]) && Distance(s.waiters[w]) == 1 ==>
              Next(s, OwnSteps(w)[i]).waiters[w].Returned?
  {
    assert !AsleepUnnotified(s, w);
    assert s.cancelled by {
      var c :| 0 <= c < |s.cancellers| && s.cancellers[c].Finished?;
    }
    var i := if s.waiters[w].Looping? then 0 else if s.waiters[w].Registered? then 1 else 2;
    assert Enabled(s, OwnSteps(w)[i]);
  }

  ghost predicate Mine(w: nat, step: Step) {
    step in OwnSteps(w) || step == DropWaiter(w)
  }

  lemma OthersDoNotMoveWaiter(s: Signal, w: nat, step: Step)
    requires w < |s.waiters| && Enabled(s, step) && !Mine(w, step)
    ensures w < |Next(s, step).waiters| && Next(s, step).waiters[w] == s.waiters[w]
  {
  }

  ghost function CountMine(w: nat, steps: seq<Step>): nat {
    if steps == [] then 0 else (if Mine(w, steps[0]) then 1 else 0) + CountMine(w, steps[1..])
  }

  /**
    Whatever the others do in between, a waiter that has taken three own steps since a `cancel`
    finished is no longer waiting.
    */
  lemma {:induction false} ThreeStepsSuffice(s: Signal, w: nat, steps: seq<Step>)
    requires Inv(s) && SomeCancelFinished(s) && w < |s.waiters| && IsRun(s, steps)
    ensures w < |After(s, steps).waiters|
    ensures Live(After(s, steps).waiters[w]) ==>
              CountMine(w, steps) + Distance(After(s, steps).waiters[w]) == Distance(s.waiters[w])
    ensures CountMine(w, steps) >= 3 ==> !Live(After(s, steps).waiters[w])
    decreases |steps|
  {
    if steps != [] {
      var step, t := steps[0], Next(s, steps[0]);
      StepKeepsInv(s, step);
      assert SomeCancelFinished(t) by {
        var c :| 0 <= c < |s.cancellers| && s.cancellers[c].Finished?;
        assert t.cancellers[c].Finished?;
      }
      if Mine(w, step) {
        if step != DropWaiter(w) {
          var i :| 0 <= i < 3 && step == OwnSteps(w)[i];
          WaiterAdvances(s, w);
        }
      } else {
        OthersDoNotMoveWaiter(s, w, step);
      }
      ThreeStepsSuffice(t, w, steps[1..]);
      if !Live(t.waiters[w]) { DoneStaysDone(t, w, steps[1..]); }
    }
  }

  lemma {:induction false} DoneStaysDone(s: Signal, w: nat, steps: seq<Step>)
    requires w < |s.waiters| && !Live(s.waiters[w]) && IsRun(s, steps)
    ensures w < |After(s, steps).waiters| && After(s, steps).waiters[w] == s.waiters[w]
    decreases |steps|
  {
    if steps != [] {
      DoneStaysDone(Next(s, steps[0]), w, steps[1..]);
    }
  }

  // ---------------------------------------------------------------- callers of `cancel`

  function CancelDistance(c: Canceller): nat {
    match c
    case Called => 2
    case Stored => 1
    case Finished => 0
  }

  ghost predicate CancelStep(c: nat, step: Step) { step == Store(c) || step == Broadcast(c) }

  ghost function CountCancel(c: nat, steps: seq<Step>): nat {
    if steps == [] then 0 else (if CancelStep(c, steps[0]) then 1 else 0) + CountCancel(c, steps[1..])
  }

  /** A call of `cancel` is never blocked. */
  lemma CancelIsNotBlocked(s: Signal, c: nat)
    requires c < |s.cancellers| && !s.cancellers[c].Finished?
    ensures Enabled(s, Store(c)) || Enabled(s, Broadcast(c))
  {
  }

  /** Whatever the others do in between, two steps of its own finish a call of `cancel`, and the flag is set. */
  lemma {:induction false} TwoStepsCancel(s: Signal, c: nat, steps: seq<Step>)
    requires Inv(s) && c < |s.cancellers| && IsRun(s, steps)
    ensures c < |After(s, steps).cancellers|
    ensures CountCancel(c, steps) + CancelDistance(After(s, steps).cancellers[c]) == CancelDistance(s.cancellers[c])
    ensures CountCancel(c, steps) == 2 ==> After(s, steps).cancellers[c].Finished? && After(s, steps).cancelled
    decreases |steps|
  {
    if steps != [] {
      StepKeepsInv(s, steps[0]);
      TwoStepsCancel(Next(s, steps[0]), c, steps[1..]);
      RunKeepsInv(s, steps);
    }
  }

  // ---------------------------------------------------------------- waiters do sleep and do return

  ghost predicate Reaches(o: Signal, s: Signal) {
    exists steps :: IsRun(o, steps) && After(o, steps) == s
  }

  lemma {:induction false} RunThenStep(s: Signal, steps: seq<Step>, step: Step)
    requires IsRun(s, steps) && Enabled(After(s, steps), step)
    ensures IsRun(s, steps + [step]) && After(s, steps + [step]) == Next(After(s, steps), step)
    decreases |steps|
  {
    if steps == [] {
      assert steps + [step] == [step] && [step][1..] == [];
    } else {
      RunThenStep(Next(s, steps[0]), steps[1..], step);
      assert (steps + [step])[1..] == steps[1..] + [step];
    }
  }

  lemma Go(o: Signal, s: Signal, step: Step) returns (t: Signal)
    requires Reaches(o, s) && Enabled(s, step)
    ensures t == Next(s, step) && Reaches(o, t)
  {
    t := Next(s, step);
    var steps :| IsRun(o, steps) && After(o, steps) == s;
    RunThenStep(o, steps, step);
  }

  /** So many waiters sleep, and nobody has called `cancel`. */
  ghost predicate Asleep(s: Signal, n: nat) {
    && !s.cancelled && s.broadcasts == 0 && s.cancellers == []
    && |s.waiters| == n && forall w :: 0 <= w < n ==> s.waiters[w] == Sleeping(0)
  }

  lemma {:induction false} FallAsleep(o: Signal, s: Signal, k: nat, n: nat) returns (t: Signal)
    requires Reaches(o, s) && Asleep(s, k) && k <= n
    ensures Reaches(o, t) && Asleep(t, n)
    decreases n - k
  {
    t := s;
    if k < n {
      t := Go(o, t, Wait);
      t := Go(o, t, Register(k));
      t := Go(o, t, Check(k));
      t := FallAsleep(o, t, k + 1, n);
    }
  }

  /** A `cancel` has finished; the first `k` of the waiters have returned and the others still sleep. */
  ghost predicate ReturnedTo(s: Signal, n: nat, k: nat) {
    && s.cancelled && s.broadcasts == 1 && s.cancellers == [Finished] && |s.waiters| == n && k <= n
    && forall w :: 0 <= w < n ==> s.waiters[w] == if w < k then Returned else Sleeping(0)
  }

  lemma {:induction false} AwakeAll(o: Signal, s: Signal, n: nat, k: nat) returns (t: Signal)
    requires Reaches(o, s) && ReturnedTo(s, n, k)
    ensures Reaches(o, t) && ReturnedTo(t, n, n)
    decreases n - k
  {
    t := s;
    if k < n {
      t := Go(o, t, Wake(k));
      t := Go(o, t, Register(k));
      t := Go(o, t, Check(k));
      t := AwakeAll(o, t, n, k + 1);
    }
  }

  /** For any number of waiters some run has them all asleep, and a `cancel` lets them all return. */
  lemma SleepersReturn(start: Signal, n: nat) returns (steps: seq<Step>)
    requires start == INITIAL
    ensures IsRun(start, steps) && ReturnedTo(After(start, steps), n, n)
  {
    assert IsRun(start, []) && After(start, []) == start;
    var t := FallAsleep(start, start, 0, n);
    t := Go(start, t, Call);
    t := Go(start, t, Store(0));
    t := Go(start, t, Broadcast(0));
    t := AwakeAll(start, t, n, 0);
    steps :| IsRun(start, steps) && After(start, steps) == t;
  }
}
