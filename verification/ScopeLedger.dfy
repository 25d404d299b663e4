/**
  The scope ledger of an application scope factory: creating scopes, beginning their cleanup,
  retiring those whose cleanup has ended, sealing and draining.
  */
module ScopeLedger {
  import opened Wrappers
  import opened Sequences

  datatype CleanupResult = CleanupOk | CleanupFailed

  /** What polling the cleanups yields: only the ones that have ended are present. */
  type Polled = map<nat, CleanupResult>

  /** Evidence given to the host. */
  datatype Snapshot = Snapshot(registered: nat, completed: nat, failed: nat, outstanding: nat, sealed: bool) {
    predicate Reconciles() {
      registered == completed + failed + outstanding
    }

    predicate IsTerminal() {
      sealed && outstanding == 0 && Reconciles()
    }
  }

  /**
    The registry together with its history. `scopes` maps each live key to whether its cleanup
    has begun; `retired` are the keys ever retired, `tickets` the keys whose cleanup was really
    started and `started` how often a cleanup was started.
    */
  datatype Ledger = Ledger(
    sealed: bool, next: nat, completed: nat, failed: nat, scopes: map<nat, bool>,
    retired: set<nat>, tickets: set<nat>, started: nat)

  const EMPTY := Ledger(false, 0, 0, 0, map[], {}, {}, 0)

  // ---------------------------------------------------------------- transitions

  /** The cleanup of this live key has begun and its result is there. */
  predicate Ends(l: Ledger, polled: Polled, k: nat) {
    k in l.scopes && l.scopes[k] && k in polled
  }

  function Ended(l: Ledger, polled: Polled): set<nat> {
    set k | k in l.scopes && Ends(l, polled, k)
  }

  /** How many keys below `n` ended with result `r`. */
  function CountEnded(l: Ledger, polled: Polled, r: CleanupResult, n: nat): nat {
    if n == 0 then 0 else
      CountEnded(l, polled, r, n - 1) + if Ends(l, polled, n - 1) && polled[n - 1] == r then 1 else 0
  }

  function Reaped(l: Ledger, polled: Polled): Ledger {
    l.(completed := l.completed + CountEnded(l, polled, CleanupOk, l.next),
       failed := l.failed + CountEnded(l, polled, CleanupFailed, l.next),
       scopes := l.scopes - Ended(l, polled),
       retired := l.retired + Ended(l, polled))
  }

  function Created(l: Ledger): Ledger {
    l.(next := l.next + 1, scopes := l.scopes[l.next := false])
  }

  function CleanupBegun(l: Ledger, key: nat): Ledger {
    if key in l.scopes && !l.scopes[key]
    then l.(scopes := l.scopes[key := true], tickets := l.tickets + {key}, started := l.started + 1)
    else l
  }

  datatype Step =
    | CreateScope(polled: Polled, containerAccepts: bool, scopeBuilt: bool)
    | BeginCleanup(key: nat)
    | TakeSnapshot(polled: Polled)
    | Seal

  /** Each method body runs under the registry lock, so it is one step. */
  function Next(l: Ledger, step: Step): Ledger {
    match step
    case CreateScope(polled, accepts, built) =>
      var l' := Reaped(l, polled);
      if l'.sealed || !accepts || !built then l' else Created(l')
    case BeginCleanup(key) => CleanupBegun(l, key)
    case TakeSnapshot(polled) => Reaped(l, polled)
    case Seal => l.(sealed := true)
  }

  function After(l: Ledger, steps: seq<Step>): Ledger
    decreases |steps|
  {
    if steps == [] then l else After(Next(l, steps[0]), steps[1..])
  }

  function SnapshotOf(l: Ledger): Snapshot {
    Snapshot(l.next, l.completed, l.failed, |l.scopes|, l.sealed)
  }

  // ---------------------------------------------------------------- conservation

  /**
    Every key handed out is either live or retired, never both. The counters equal the number
    of distinct keys, so no key was retired twice and no cleanup was started twice.
    */
  ghost predicate Conserved(l: Ledger) {
    && (forall k: nat :: k in l.scopes || k in l.retired <==> k < l.next)
    && (forall k: nat :: k in l.scopes ==> k !in l.retired)
    && (forall k: nat :: k in l.retired ==> k in l.tickets)
    && (forall k: nat :: k in l.tickets ==> k < l.next)
    && (forall k :: k in l.scopes ==> (l.scopes[k] <==> k in l.tickets))
    && l.completed + l.failed == |l.retired|
    && l.started == |l.tickets|
  }

  lemma {:induction false} EndedCounted(l: Ledger, polled: Polled, n: nat, below: set<nat>)
    requires forall k: nat :: k in below <==> k < n && Ends(l, polled, k)
    ensures |below| == CountEnded(l, polled, CleanupOk, n) + CountEnded(l, polled, CleanupFailed, n)
  {
    if n == 0 {
      assert below == {};
    } else {
      EndedCounted(l, polled, n - 1, below - {n - 1});
    }
  }

  lemma ReapingKeepsConserved(l: Ledger, polled: Polled)
    requires Conserved(l)
    ensures Conserved(Reaped(l, polled))
  {
    EndedCounted(l, polled, l.next, Ended(l, polled));
    assert l.retired !! Ended(l, polled);
  }

  lemma CreatingKeepsConserved(l: Ledger)
    requires Conserved(l)
    ensures Conserved(Created(l))
  {
  }

  lemma BeginningKeepsConserved(l: Ledger, key: nat)
    requires Conserved(l)
    ensures Conserved(CleanupBegun(l, key))
  {
  }

  lemma SealingKeepsConserved(l: Ledger)
    requires Conserved(l)
    ensures Conserved(l.(sealed := true))
  {
  }

  lemma StepKeepsConserved(l: Ledger, step: Step)
    requires Conserved(l)
    ensures Conserved(Next(l, step))
  {
    match step
    case CreateScope(polled, _, _) =>
      ReapingKeepsConserved(l, polled);
      CreatingKeepsConserved(Reaped(l, polled));
    case TakeSnapshot(polled) => ReapingKeepsConserved(l, polled);
    case BeginCleanup(key) => BeginningKeepsConserved(l, key);
    case Seal => SealingKeepsConserved(l);
  }

  lemma {:induction false} RunKeepsConserved(l: Ledger, steps: seq<Step>)
    requires Conserved(l)
    ensures Conserved(After(l, steps))
    decreases |steps|
  {
    if steps != [] {
      StepKeepsConserved(l, steps[0]);
      RunKeepsConserved(Next(l, steps[0]), steps[1..]);
    }
  }

  /** A conserved ledger has lost no scope and counted none twice. */
  lemma ConservedReconciles(l: Ledger)
    requires Conserved(l)
    ensures SnapshotOf(l).Reconciles()
  {
    assert l.scopes.Keys !! l.retired;
    assert Below(l.next) == l.scopes.Keys + l.retired;
  }

  lemma NothingYet(l: Ledger)
    requires l == EMPTY
    ensures Conserved(l)
  {
  }

  lemma HistoryReconciles(l: Ledger, steps: seq<Step>)
    requires Conserved(l)
    ensures Conserved(After(l, steps)) && SnapshotOf(After(l, steps)).Reconciles()
  {
    RunKeepsConserved(l, steps);
    ConservedReconciles(After(l, steps));
  }

  /** Every snapshot of every history reconciles: no scope is lost, retired twice or disposed twice. */
  lemma {:induction false} EveryHistoryReconciles(start: Ledger, steps: seq<Step>)
    requires start == EMPTY
    ensures Conserved(After(start, steps)) && SnapshotOf(After(start, steps)).Reconciles()
  {
    NothingYet(start);
    HistoryReconciles(start, steps);
  }

  // ---------------------------------------------------------------- sealing and draining

  lemma {:induction false} SealIsFinal(l: Ledger, steps: seq<Step>)
    requires l.sealed
    ensures After(l, steps).sealed && After(l, steps).next == l.next
    ensures After(l, steps).scopes.Keys <= l.scopes.Keys
    decreases |steps|
  {
    if steps != [] {
      SealIsFinal(Next(l, steps[0]), steps[1..]);
    }
  }

  /** From the seal on no scope is registered, and no scope is live that was not live then. */
  lemma NothingAfterSeal(l: Ledger, steps: seq<Step>)
    ensures var l' := After(Next(l, Seal), steps);
            l'.sealed && l'.next == l.next && l'.scopes.Keys <= l.scopes.Keys
  {
    SealIsFinal(Next(l, Seal), steps);
  }

  /**
    The keys listed any time after sealing cover every scope still outstanding later, and the
    ledger is terminal exactly when all listed scopes have been retired.
    */
  lemma DrainListCovers(l: Ledger, steps: seq<Step>)
    requires l.sealed && Conserved(l)
    ensures var l' := After(l, steps);
            && (forall k :: k in l'.scopes ==> k in l.scopes)
            && (SnapshotOf(l').IsTerminal() <==> forall k :: k in l.scopes ==> k in l'.retired)
  {
    SealIsFinal(l, steps);
    RunKeepsConserved(l, steps);
    var l' := After(l, steps);
    ConservedReconciles(l');
    if forall k :: k in l.scopes ==> k in l'.retired {
      assert l'.scopes.Keys == {};
    }
    if SnapshotOf(l').IsTerminal() {
      assert l'.scopes == map[];
      forall k | k in l.scopes ensures k in l'.retired { assert k < l'.next; }
    }
  }

  /** Once a key is retired, asking again to clean it up changes nothing, however often and late. */
  lemma {:induction false} RetiredForGood(l: Ledger, key: nat, steps: seq<Step>)
    requires Conserved(l) && key in l.retired
    ensures key in After(l, steps).retired
    ensures CleanupBegun(After(l, steps), key) == After(l, steps)
    decreases |steps|
  {
    if steps != [] {
      StepKeepsConserved(l, steps[0]);
      RetiredForGood(Next(l, steps[0]), key, steps[1..]);
    }
  }

  lemma {:induction false} OnlyKeyEnds(l: Ledger, key: nat, result: CleanupResult, n: nat)
    requires key in l.scopes && l.scopes[key]
    ensures forall r :: CountEnded(l, map[key := result], r, n) == if key < n && r == result then 1 else 0
  {
    if n > 0 { OnlyKeyEnds(l, key, result, n - 1); }
  }

  /** Reaping one begun scope whose result is there. */
  lemma ReapOne(l: Ledger, key: nat, result: CleanupResult)
    requires key in l.scopes && l.scopes[key] && key < l.next
    ensures var reaped := Reaped(l, map[key := result]);
            && key in reaped.retired && reaped.scopes == l.scopes - {key} && reaped.next == l.next
            && reaped.completed == l.completed + (if result == CleanupOk then 1 else 0)
            && reaped.failed == l.failed + (if result == CleanupFailed then 1 else 0)
  {
    assert Ended(l, map[key := result]) == {key};
    OnlyKeyEnds(l, key, result, l.next);
  }

  /** A scope whose cleanup ends undisturbed is counted once, under its result. */
  lemma CleanupIsCounted(l: Ledger, key: nat, result: CleanupResult)
    requires Conserved(l) && key in l.scopes && !l.scopes[key]
    ensures var begun := Next(l, BeginCleanup(key));
            var reaped := Next(begun, TakeSnapshot(map[key := result]));
            && key in begun.scopes && begun.started == l.started + 1
            && key in reaped.retired && key !in reaped.scopes
            && (result == CleanupOk ==> reaped.completed == l.completed + 1 && reaped.failed == l.failed)
            && (result == CleanupFailed ==> reaped.failed == l.failed + 1 && reaped.completed == l.completed)
            && reaped.scopes.Keys == l.scopes.Keys - {key} && reaped.next == l.next
            && Next(reaped, BeginCleanup(key)) == reaped
  {
    var begun := Next(l, BeginCleanup(key));
    assert begun.scopes == l.scopes[key := true];
    ReapOne(begun, key, result);
    assert begun.scopes.Keys == l.scopes.Keys;
  }

  /** In the snapshots it moves from the outstanding scopes to the completed or to the failed ones. */
  lemma CleanupShows(l: Ledger, key: nat, result: CleanupResult)
    requires Conserved(l) && key in l.scopes && !l.scopes[key]
    ensures var before := SnapshotOf(l);
            var after := SnapshotOf(Next(Next(l, BeginCleanup(key)), TakeSnapshot(map[key := result])));
            && after.registered == before.registered && after.outstanding == before.outstanding - 1
            && (result == CleanupOk ==> after.completed == before.completed + 1 && after.failed == before.failed)
            && (result == CleanupFailed ==> after.failed == before.failed + 1 && after.completed == before.completed)
  {
    CleanupIsCounted(l, key, result);
    var after := Next(Next(l, BeginCleanup(key)), TakeSnapshot(map[key := result]));
    assert |after.scopes.Keys| == |l.scopes.Keys| - 1;
  }

  lemma {:induction false} TicketsStay(l: Ledger, key: nat, steps: seq<Step>)
    requires key in l.tickets
    ensures key in After(l, steps).tickets
    decreases |steps|
  {
    if steps != [] { TicketsStay(Next(l, steps[0]), key, steps[1..]); }
  }

  lemma {:induction false} CountedAtLeastOnce(l: Ledger, polled: Polled, key: nat, n: nat)
    requires Ends(l, polled, key) && key < n
    ensures CountEnded(l, polled, polled[key], n) >= 1
  {
    if key < n - 1 { CountedAtLeastOnce(l, polled, key, n - 1); }
  }

  /** Taking a snapshot retires a ticketed scope whose cleanup has ended, unless that was done before. */
  lemma SnapshotRetires(l: Ledger, key: nat, polled: Polled)
    requires Conserved(l) && key in l.tickets && key in polled
    ensures var reaped := Next(l, TakeSnapshot(polled));
            && key in reaped.retired && key !in reaped.scopes
            && (key in l.scopes && polled[key] == CleanupOk ==> reaped.completed > l.completed)
            && (key in l.scopes && polled[key] == CleanupFailed ==> reaped.failed > l.failed)
  {
    if key in l.scopes { CountedAtLeastOnce(l, polled, key, l.next); }
  }

  /**
    The life of a scope that is run, with anything else going on in between: its cleanup begins
    and is started once; after any history a snapshot that finds it ended leaves it retired; and
    after any further history dropping the scope changes nothing.
    */
  lemma RunThenDrop(l: Ledger, key: nat, between: seq<Step>, polled: Polled, later: seq<Step>)
    requires Conserved(l) && key in l.scopes && !l.scopes[key] && key in polled
    ensures var begun := Next(l, BeginCleanup(key));
            var reaped := Next(After(begun, between), TakeSnapshot(polled));
            var dropped := After(reaped, later);
            && key !in l.tickets && begun.tickets == l.tickets + {key} && begun.started == l.started + 1
            && key !in l.retired && key in reaped.retired && key !in reaped.scopes
            && Conserved(dropped) && key in dropped.retired && key !in dropped.scopes
            && Next(dropped, BeginCleanup(key)) == dropped
  {
    var begun := Next(l, BeginCleanup(key));
    BeginningKeepsConserved(l, key);
    var waited := After(begun, between);
    RunKeepsConserved(begun, between);
    TicketsStay(begun, key, between);
    SnapshotRetires(waited, key, polled);
    var reaped := Next(waited, TakeSnapshot(polled));
    StepKeepsConserved(waited, TakeSnapshot(polled));
    RunKeepsConserved(reaped, later);
    RetiredForGood(reaped, key, later);
  }

  // ---------------------------------------------------------------- the registry, updated in place

  /** The ledger `m` once the keys of `l` below `n` have been visited. */
  ghost predicate Retained(l: Ledger, polled: Polled, n: nat, m: Ledger) {
    && (forall k: nat :: k in m.scopes <==> k in l.scopes && !(k < n && Ends(l, polled, k)))
    && (forall k: nat :: k in m.scopes ==> m.scopes[k] == l.scopes[k])
    && (forall k: nat :: k in m.retired <==> k in l.retired || (k < n && Ends(l, polled, k)))
    && m == l.(scopes := m.scopes, retired := m.retired,
               completed := l.completed + CountEnded(l, polled, CleanupOk, n),
               failed := l.failed + CountEnded(l, polled, CleanupFailed, n))
  }

  /** Visiting one more key. */
  function Visited(m: Ledger, polled: Polled, n: nat): Ledger {
    if n in m.scopes && m.scopes[n] && n in polled
    then m.(scopes := m.scopes - {n}, retired := m.retired + {n},
            completed := m.completed + (if polled[n] == CleanupOk then 1 else 0),
            failed := m.failed + (if polled[n] == CleanupFailed then 1 else 0))
    else m
  }

  lemma RetainStep(l: Ledger, polled: Polled, n: nat, m: Ledger)
    requires Retained(l, polled, n, m)
    ensures Retained(l, polled, n + 1, Visited(m, polled, n))
  {
  }

  lemma RetainDone(l: Ledger, polled: Polled, m: Ledger)
    requires Retained(l, polled, l.next, m) && forall k: nat :: k in l.scopes ==> k < l.next
    ensures m == Reaped(l, polled)
  {
  }

  class ScopeRegistry {
    var isSealed: bool
    var next: nat
    var completed: nat
    var failed: nat
    var scopes: map<nat, bool>
    ghost var retired: set<nat>
    ghost var tickets: set<nat>
    ghost var started: nat

    ghost function View(): Ledger
      reads this
    {
      Ledger(isSealed, next, completed, failed, scopes, retired, tickets, started)
    }

    ghost predicate Valid()
      reads this
    {
      Conserved(View())
    }

    constructor ()
      ensures Valid() && View() == EMPTY
    {
      isSealed, next, completed, failed, scopes := false, 0, 0, 0, map[];
      retired, tickets, started := {}, {}, 0;
      new;
      assert View() == EMPTY;
      NothingYet(View());
    }

    method Reap(polled: Polled)
      requires Valid()
      modifies this
      ensures Valid() && View() == Reaped(old(View()), polled)
    {
      ReapingKeepsConserved(View(), polled);
      Retain(polled);
    }

    /** Keeps the entries still running and counts the others, in key order. */
    method Retain(polled: Polled)
      requires forall k: nat :: k in scopes ==> k < next
      modifies this
      ensures View() == Reaped(old(View()), polled)
    {
      ghost var l := View();
      for key := 0 to next
        invariant Retained(l, polled, key, View())
      {
        RetainStep(l, polled, key, View());
        RetainEntry(polled, key);
      }
      RetainDone(l, polled, View());
    }

    /** Drops the entry of one key and counts it, if its cleanup has begun and ended. */
    method RetainEntry(polled: Polled, key: nat)
      modifies this
      ensures View() == Visited(old(View()), polled, key)
    {
      if key in scopes && scopes[key] && key in polled {
        if polled[key] == CleanupOk {
          completed := completed + 1;
        } else {
          failed := failed + 1;
        }
        scopes := scopes - {key};
        retired := retired + {key};
      }
    }

    /** Registers a scope under a fresh key unless sealed or refused by the container. */
    method CreateScope(polled: Polled, containerAccepts: bool, scopeBuilt: bool) returns (r: Result<nat, ()>)
      requires Valid()
      modifies this
      ensures Valid() && View() == Next(old(View()), Step.CreateScope(polled, containerAccepts, scopeBuilt))
      ensures r.Ok? <==> !old(isSealed) && containerAccepts && scopeBuilt
      ensures r.Ok? ==> r.value !in old(scopes) && r.value !in old(retired) && r.value in scopes && !scopes[r.value]
    {
      StepKeepsConserved(View(), Step.CreateScope(polled, containerAccepts, scopeBuilt));
      Reap(polled);
      if isSealed || !containerAccepts {
        return Err(());
      }
      if !scopeBuilt {
        return Err(());
      }
      var key := next;
      next := next + 1;
      scopes := scopes[key := false];
      r := Ok(key);
    }

    /** Starts the cleanup of a live key once; for a retired key there is nothing left to do. */
    method BeginCleanup(key: nat)
      requires Valid()
      modifies this
      ensures Valid() && View() == CleanupBegun(old(View()), key)
    {
      StepKeepsConserved(View(), Step.BeginCleanup(key));
      if key !in scopes {
        return;
      }
      if !scopes[key] {
        scopes := scopes[key := true];
        tickets, started := tickets + {key}, started + 1;
      }
    }

    method TakeSnapshot(polled: Polled) returns (s: Snapshot)
      requires Valid()
      modifies this
      ensures Valid() && View() == Reaped(old(View()), polled)
      ensures s == SnapshotOf(View()) && s.Reconciles()
    {
      Reap(polled);
      ConservedReconciles(View());
      s := Snapshot(next, completed, failed, |scopes|, isSealed);
    }

    method Seal()
      requires Valid()
      modifies this
      ensures Valid() && View() == old(View()).(sealed := true) == Next(old(View()), Step.Seal)
    {
      isSealed := true;
    }

    /** The keys that a drain waits for. */
    method DrainList() returns (keys: set<nat>)
      requires Valid()
      modifies this
      ensures Valid() && isSealed && View() == old(View()).(sealed := true)
      ensures keys == scopes.Keys
      ensures forall steps, k :: k in After(View(), steps).scopes ==> k in keys
    {
      Seal();
      keys := scopes.Keys;
      forall steps ensures After(View(), steps).scopes.Keys <= keys {
        SealIsFinal(View(), steps);
      }
    }
  }
}
