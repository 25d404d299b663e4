/**
  The outcome of the environment overlay in closed form: which environments succeed, which error
  the others give, and what the final tree holds, all over the original tree and the texts of the
  variables.
  */
module OverlayOutcome {
  import opened Wrappers
  import opened Sequences
  import opened Text
  import opened ConfigTree
  import opened EnvironmentOverlay
  import opened OverlayLaws
  import opened EnvironmentOverrides

  // ---------------------------------------------------------------- reading a text

  /** The text can be read as a value of the type that is present. */
  predicate Readable(ps: Parsers, raw: string, present: Value) {
    match present
    case Str(_) => true
    case Integer(_) => ps.integer(raw).Some?
    case Float(_) => ps.float(raw).Some?
    case Boolean(_) => ps.boolean(raw).Some?
    case Datetime(_) => ps.datetime(raw).Some?
    case Array(_) => ps.literal(raw).Some? && ps.literal(raw).value.Array?
    case Table(_) => false
  }

  /** The value is what the text says, read as the type that is present. */
  predicate ReadAs(ps: Parsers, raw: string, present: Value, v: Value) {
    match present
    case Str(_) => v == Str(raw)
    case Integer(_) => v.Integer? && ps.integer(raw) == Some(v.number)
    case Float(_) => v.Float? && ps.float(raw) == Some(v.literal)
    case Boolean(_) => v.Boolean? && ps.boolean(raw) == Some(v.flag)
    case Datetime(_) => v.Datetime? && ps.datetime(raw) == Some(v.stamp)
    case Array(_) => v.Array? && ps.literal(raw) == Some(v)
    case Table(_) => false
  }

  /** Where nothing is present a text is a literal, unless it is none or would be a table. */
  function LiteralOrText(ps: Parsers, raw: string): Value {
    if ps.literal(raw).Some? && !ps.literal(raw).value.Table? then ps.literal(raw).value else Str(raw)
  }

  /** Outside `custom` a text is read as the type present; the error tells a table from a text that does not fit. */
  lemma ParseExactly(ps: Parsers, raw: string, present: Option<Value>, path: Path)
    ensures var r := ParseEnvironmentValue(ps, raw, present, path);
            if InCustom(path) then r == Ok(Str(raw))
            else match present
              case None => r == Ok(LiteralOrText(ps, raw))
              case Some(x) =>
                && (r.Ok? <==> Readable(ps, raw, x))
                && (r.Ok? ==> ReadAs(ps, raw, x, r.value) && SameKind(x, r.value))
                && (r.Err? ==> r.error == if x.Table? then ReplacesTable(path) else WrongType(path))
  {
  }

  lemma KindDecides(ps: Parsers, raw: string, x: Value, y: Value)
    requires SameKind(x, y)
    ensures Readable(ps, raw, x) <==> Readable(ps, raw, y)
    ensures forall v :: ReadAs(ps, raw, x, v) <==> ReadAs(ps, raw, y, v)
    ensures x.Table? <==> y.Table?
  {
  }

  // ---------------------------------------------------------------- targets

  /** The canonical name spells this path. */
  ghost predicate Spells(name: string, p: Path) {
    StartsWith(name, "LILY__") && IsCanonicalTarget(p) && Lower(name[6..]) == JoinDouble(p)
  }

  /**
    What becomes of every name: a canonical one targets the path it spells and is refused if it
    spells none; a legacy one targets what it stands for, and is refused where legacy names are
    disabled; bootstrap names and all others are ignored.
    */
  lemma TargetsExactly(name: string, candidates: map<string, Path>, allowLegacy: bool)
    ensures var t := TargetOf(name, candidates, allowLegacy);
            var known := StartsWith(name, "LILY_") && Lower(name[5..]) in candidates;
            var canonical := StartsWith(name, "LILY__");
            var legacy := !canonical && known && name != "LILY_CONFIG_PATH" && name != "LILY_CONFIG_MODE";
            && (forall p :: t == At(p, true) <==> Spells(name, p))
            && (forall p :: t == At(p, false) <==> legacy && allowLegacy && candidates[Lower(name[5..])] == p)
            && (t == Refused(InvalidCanonicalKey(name)) <==> canonical && forall p :: !Spells(name, p))
            && (t == Refused(LegacyDisabled(name)) <==> legacy && !allowLegacy)
            && (t == Ignored <==> !canonical && !legacy)
  {
    if IsCanonical(name) {
      CanonicalIsNoBootstrap(name);
      forall p ensures CanonicalPath(name) == Some(p) <==> Spells(name, p) { CanonicalPathExactly(name, p); }
      if CanonicalPath(name).Some? { assert Spells(name, CanonicalPath(name).value); }
    }
  }

  // ---------------------------------------------------------------- the conditions

  /** An earlier variable targets a node above the path, below it, or the path itself. */
  ghost predicate AnyAbove(s: seq<Variable>, c: Settings, k: nat, path: Path)
    requires k <= |s|
  {
    exists j :: 0 <= j < k && TargetAt(s, c, j).At? && TargetAt(s, c, j).path < path
  }

  ghost predicate AnyBelow(s: seq<Variable>, c: Settings, k: nat, path: Path)
    requires k <= |s|
  {
    exists j :: 0 <= j < k && TargetAt(s, c, j).At? && path < TargetAt(s, c, j).path
  }

  ghost predicate SameBefore(s: seq<Variable>, c: Settings, k: nat, path: Path, canonical: bool)
    requires k <= |s|
  {
    exists j :: 0 <= j < k && TargetAt(s, c, j) == At(path, canonical)
  }

  /** The first of the first `k` variables that targets `path`. */
  function FirstFor(s: seq<Variable>, c: Settings, k: nat, path: Path): (j: Option<nat>)
    requires k <= |s|
    ensures j.Some? <==> LastFor(s, c, k, path).Some?
    ensures j.Some? ==> j.value < k && TargetAt(s, c, j.value).At? && TargetAt(s, c, j.value).path == path
    ensures j.Some? ==> LastFor(s, c, j.value, path).None?
  {
    match LastFor(s, c, k, path)
    case None => None
    case Some(j) => if FirstFor(s, c, j, path).Some? then FirstFor(s, c, j, path) else Some(j)
  }

  /** The value whose type decides: the one of the original tree, or else what the path's first variable amounts to. */
  function Deciding(root: Value, s: seq<Variable>, c: Settings, k: nat, path: Path): Option<Value>
    requires k <= |s|
  {
    if Lookup(root, path).Some? then Lookup(root, path)
    else match FirstFor(s, c, k, path)
      case None => None
      case Some(j) => Some(LiteralOrText(c.parsers, s[j].raw))
  }

  /** The text of the k-th variable fits what decides its type, which is no table. */
  ghost predicate Fits(root: Value, s: seq<Variable>, c: Settings, k: nat, path: Path)
    requires k < |s|
  {
    var x := Deciding(root, s, c, k, path);
    x.None? || Readable(c.parsers, s[k].raw, x.value)
  }

  /** Nothing stands in the way of the k-th variable. */
  ghost predicate Admissible(root: Value, s: seq<Variable>, c: Settings, k: nat)
    requires k < |s|
  {
    match TargetAt(s, c, k)
    case Ignored => true
    case Refused(_) => false
    case At(path, canonical) =>
      && !HasIndex(path) && !Blocked(root, path)
      && !AnyAbove(s, c, k, path) && !SameBefore(s, c, k, path, canonical)
      && (InCustom(path) || (!AnyBelow(s, c, k, path) && Fits(root, s, c, k, path)))
  }

  /** What is reported of a variable that is not admissible, the first that applies. */
  ghost predicate IsErrorAt(root: Value, s: seq<Variable>, c: Settings, k: nat, e: OverlayError)
    requires k < |s|
  {
    match TargetAt(s, c, k)
    case Ignored => false
    case Refused(refusal) => e == refusal
    case At(path, canonical) =>
      var x := Deciding(root, s, c, k, path);
      if HasIndex(path) then e == ArrayIndexOverride(s[k].name)
      else if !InCustom(path) && (AnyBelow(s, c, k, path) || (x.Some? && x.value.Table?)) then e == ReplacesTable(path)
      else if !InCustom(path) && !Fits(root, s, c, k, path) then e == WrongType(path)
      else if SameBefore(s, c, k, path, canonical) then
        && path != [] && LastFor(s, c, k, path).Some?
        && e == MultipleTargets(Join(path), s[LastFor(s, c, k, path).value].name, s[k].name)
      else e.WriteFailed?
  }

  // ---------------------------------------------------------------- what is in the way of a write

  ghost predicate LogAbove(log: seq<Write>, path: Path) { exists i :: 0 <= i < |log| && log[i].path < path }

  ghost predicate LogBelow(log: seq<Write>, path: Path) { exists i :: 0 <= i < |log| && path < log[i].path }

  ghost predicate AllFree(root: Value, log: seq<Write>) {
    forall i :: 0 <= i < |log| ==> !Blocked(root, log[i].path)
  }

  lemma BlockedByWrite(root: Value, o: Overlay, path: Path)
    requires Inv(root, o) && LogAbove(o.log, path) && !HasIndex(path)
    ensures Blocked(o.root, path)
  {
    var i :| 0 <= i < |o.log| && o.log[i].path < path;
    var j := LastAtOrAbove(o.log, o.log[i].path, i);
    assert o.log[j].path < path && GoodWrite(o.log[j]);
    NonTableBlocks(o.root, o.log[j].path, o.log[j].value, path, Str(""));
    SetFailsOnlyWhenBlocked(o.root, path, Str(""));
  }

  lemma Comparable(a: Path, b: Path, c: Path)
    requires a <= c && b <= c
    ensures a <= b || b < a
  {
  }

  /** A node that blocks in the original tree, with nothing written above, has nothing written below either. */
  lemma NothingBelowBlocking(root: Value, log: seq<Write>, path: Path, m: nat)
    requires AllFree(root, log) && GoodLog(log) && m < |path| && !HasIndex(path) && BlockedAt(root, path, m)
    requires !LogAbove(log, path)
    ensures Untouched(log, path[..m])
  {
    forall i | 0 <= i < |log| ensures !Related(log[i].path, path[..m]) {
      assert GoodWrite(log[i]);
      AboveCut(log[i].path, path, m);
      BlocksBelow(root, path, m, log[i].path);
    }
  }

  lemma AboveCut(p: Path, path: Path, m: nat)
    requires m < |path|
    ensures p <= path[..m] ==> p < path
  {
  }

  /** A node that blocks one path of names blocks all of them. */
  lemma BlocksBelow(root: Value, path: Path, m: nat, p: Path)
    requires m < |path| && !HasIndex(path) && !HasIndex(p) && BlockedAt(root, path, m)
    ensures path[..m] < p ==> Blocked(root, p)
  {
    if path[..m] < p {
      assert p[..m] == path[..m];
      assert ParseUsize(p[m]).None? && ParseUsize(path[m]).None?;
      assert BlockedAt(root, p, m);
    }
  }

  lemma StillBlocked(root: Value, o: Overlay, path: Path)
    requires Inv(root, o) && AllFree(root, o.log) && path != [] && !HasIndex(path) && Blocked(root, path)
    ensures Blocked(o.root, path)
  {
    if LogAbove(o.log, path) {
      BlockedByWrite(root, o, path);
    } else {
      var m :| 0 <= m < |path| && BlockedAt(root, path, m);
      NothingBelowBlocking(root, o.log, path, m);
      assert BlockedAt(o.root, path, m);
    }
  }

  /** A node that blocks now was written, or was there before. */
  lemma WhyBlocked(root: Value, o: Overlay, path: Path)
    requires Inv(root, o) && path != [] && !HasIndex(path) && Blocked(o.root, path)
    ensures Blocked(root, path) || LogAbove(o.log, path)
  {
    var m :| 0 <= m < |path| && BlockedAt(o.root, path, m);
    var q := path[..m];
    if Untouched(o.log, q) {
      WasBlocked(root, o, path, m);
    } else {
      var i :| 0 <= i < |o.log| && Related(o.log[i].path, q);
      AboveCut(o.log[i].path, path, m);
      if q < o.log[i].path { BlockingIsWritten(root, o, path, m, i); }
    }
  }

  lemma WasBlocked(root: Value, o: Overlay, path: Path, m: nat)
    requires Framed(root, o.root, o.log) && m < |path| && BlockedAt(o.root, path, m) && Untouched(o.log, path[..m])
    ensures Blocked(root, path)
  {
    assert BlockedAt(root, path, m);
  }

  lemma BlockingIsWritten(root: Value, o: Overlay, path: Path, m: nat, i: nat)
    requires Inv(root, o) && m < |path| && !HasIndex(path) && BlockedAt(o.root, path, m)
    requires i < |o.log| && path[..m] < o.log[i].path
    ensures LogAbove(o.log, path)
  {
    var q, p := path[..m], o.log[i].path;
    var j := LastAtOrAbove(o.log, p, i);
    Comparable(o.log[j].path, q, p);
    if q < o.log[j].path {
      assert GoodWrite(o.log[j]) && ParseUsize(path[m]).None?;
      BelowNode(o.root, q, Lookup(o.root, q).value, o.log[j].path);
      assert false;
    }
    assert o.log[j].path < path;
  }

  // ---------------------------------------------------------------- what a variable finds at its turn

  /** What stands at a path with nothing written above it. */
  lemma NodeBelowWrites(root: Value, o: Overlay, path: Path)
    requires Inv(root, o) && path != [] && !InCustom(path) && LogBelow(o.log, path) && !LogAbove(o.log, path)
    ensures Lookup(o.root, path).Some? && Lookup(o.root, path).value.Table?
  {
    var i :| 0 <= i < |o.log| && path < o.log[i].path;
    var p := o.log[i].path;
    var j := LastAtOrAbove(o.log, p, i);
    Comparable(o.log[j].path, path, p);
    assert i < j ==> Related(o.log[i].path, o.log[j].path);
    assert GoodWrite(o.log[j]);
    AboveExists(o.root, path, o.log[j].path);
    BelowNode(o.root, path, Lookup(o.root, path).value, o.log[j].path);
  }

  lemma NodeUnwritten(root: Value, o: Overlay, path: Path)
    requires Inv(root, o) && !LogBelow(o.log, path) && !LogAbove(o.log, path)
    requires forall i :: 0 <= i < |o.log| ==> o.log[i].path != path
    ensures Lookup(o.root, path) == Lookup(root, path)
  {
    assert Untouched(o.log, path);
  }

  lemma NodeWritten(root: Value, o: Overlay, path: Path, n: nat)
    requires Inv(root, o) && !LogAbove(o.log, path) && n < |o.log| && o.log[n].path == path
    requires forall i :: n < i < |o.log| ==> o.log[i].path != path
    ensures Lookup(o.root, path) == Some(o.log[n].value)
  {
    assert Live(o.log, n);
  }

  // ---------------------------------------------------------------- from the log to the variables

  function Start(root: Value): Overlay { Overlay(root, map[], []) }

  /** The first `k` variables of a sorted environment were applied. */
  ghost predicate AppliedUpTo(root: Value, s: seq<Variable>, c: Settings, k: nat) {
    GoodCandidates(c.candidates) && SortedBy(Precedes, s) && k <= |s| && ApplyAll(Start(root), s[..k], c).Ok?
  }

  function TreeAt(root: Value, s: seq<Variable>, c: Settings, k: nat): Overlay
    requires k <= |s| && ApplyAll(Start(root), s[..k], c).Ok?
  {
    ApplyAll(Start(root), s[..k], c).value
  }

  lemma PrefixInv(root: Value, s: seq<Variable>, c: Settings, k: nat)
    requires AppliedUpTo(root, s, c, k)
    ensures Inv(root, TreeAt(root, s, c, k))
  {
    var t := s[..k];
    assert forall i, j :: 0 <= i < j < k ==> !Precedes(t[j], t[i]);
    ApplyAllKeepsInv(root, Start(root), t, c);
  }

  lemma StepBack(root: Value, s: seq<Variable>, c: Settings, k: nat)
    requires AppliedUpTo(root, s, c, k) && k > 0
    ensures AppliedUpTo(root, s, c, k - 1)
    ensures ApplyOne(TreeAt(root, s, c, k - 1), s[k - 1], c) == Ok(TreeAt(root, s, c, k))
  {
    ApplyAllSnoc(Start(root), s, c, k - 1);
  }

  lemma {:induction false} EarlierApplied(root: Value, s: seq<Variable>, c: Settings, k: nat, j: nat)
    requires AppliedUpTo(root, s, c, k) && j <= k
    ensures AppliedUpTo(root, s, c, j)
    decreases k
  {
    if j < k {
      StepBack(root, s, c, k);
      EarlierApplied(root, s, c, k - 1, j);
    }
  }

  lemma {:induction false} PrefixFree(root: Value, s: seq<Variable>, c: Settings, k: nat)
    requires AppliedUpTo(root, s, c, k)
    ensures AllFree(root, TreeAt(root, s, c, k).log)
    decreases k
  {
    if k == 0 {
      assert s[..0] == [];
    } else {
      StepBack(root, s, c, k);
      PrefixFree(root, s, c, k - 1);
      PrefixInv(root, s, c, k - 1);
      var o, t := TreeAt(root, s, c, k - 1), TargetAt(s, c, k - 1);
      if t.At? {
        TargetIsGood(s[k - 1].name, c.candidates, c.allowLegacy);
        WrittenIsFree(root, o, s[k - 1], c, t.path, t.canonical);
      }
    }
  }

  lemma WrittenIsFree(root: Value, o: Overlay, v: Variable, c: Settings, path: Path, canonical: bool)
    requires Inv(root, o) && AllFree(root, o.log) && path != [] && ApplyAt(o, v, c, path, canonical).Ok?
    ensures AllFree(root, ApplyAt(o, v, c, path, canonical).value.log)
  {
    var value := ParseEnvironmentValue(c.parsers, v.raw, Lookup(o.root, path), path).value;
    if Blocked(root, path) {
      StillBlocked(root, o, path);
      SetFailsWhenBlocked(o.root, path, value);
      assert false;
    }
    assert ApplyAt(o, v, c, path, canonical).value.log == o.log + [Write(path, canonical, value)];
  }

  /** The variables applied are the writes in the log. */
  lemma WritesAreVariables(root: Value, s: seq<Variable>, c: Settings, k: nat, path: Path)
    requires AppliedUpTo(root, s, c, k)
    ensures LogAbove(TreeAt(root, s, c, k).log, path) <==> AnyAbove(s, c, k, path)
    ensures LogBelow(TreeAt(root, s, c, k).log, path) <==> AnyBelow(s, c, k, path)
  {
    var t, log := s[..k], TreeAt(root, s, c, k).log;
    forall j | 0 <= j < k && TargetAt(s, c, j).At?
      ensures exists i :: 0 <= i < |log| && log[i].path == TargetAt(s, c, j).path
    {
      assert TargetAt(t, c, j) == TargetAt(s, c, j);
      var n := VariableIsApplied(Start(root), t, c, j);
      assert log[n].path == TargetAt(s, c, j).path;
    }
    forall i | 0 <= i < |log|
      ensures exists j :: 0 <= j < k && TargetAt(s, c, j).At? && TargetAt(s, c, j).path == log[i].path
    {
      var j := WriteHasVariable(Start(root), t, c, i);
      assert TargetAt(t, c, j) == TargetAt(s, c, j);
    }
  }

  /** The last write to a path is that of the last variable that targets it. */
  lemma LastWrite(root: Value, s: seq<Variable>, c: Settings, k: nat, path: Path) returns (n: nat)
    requires AppliedUpTo(root, s, c, k) && LastFor(s, c, k, path).Some?
    ensures var log, j := TreeAt(root, s, c, k).log, LastFor(s, c, k, path).value;
            && n < |log| && log[n].path == path && (forall i :: n < i < |log| ==> log[i].path != path)
            && ApplyAll(Start(root), s[..j], c).Ok?
            && ParseEnvironmentValue(c.parsers, s[j].raw, Lookup(TreeAt(root, s, c, j).root, path), path)
               == Ok(log[n].value)
  {
    var t, log, j := s[..k], TreeAt(root, s, c, k).log, LastFor(s, c, k, path).value;
    assert TargetAt(t, c, j) == TargetAt(s, c, j) && t[..j] == s[..j];
    n := VariableIsApplied(Start(root), t, c, j);
    forall i | n < i < |log| ensures log[i].path != path {
      var l := LaterVariable(Start(root), t, c, j, i);
      assert TargetAt(t, c, l) == TargetAt(s, c, l);
    }
  }

  lemma NoWrite(root: Value, s: seq<Variable>, c: Settings, k: nat, path: Path)
    requires AppliedUpTo(root, s, c, k) && LastFor(s, c, k, path).None?
    ensures forall i :: 0 <= i < |TreeAt(root, s, c, k).log| ==> TreeAt(root, s, c, k).log[i].path != path
  {
    var t, log := s[..k], TreeAt(root, s, c, k).log;
    forall i | 0 <= i < |log| ensures log[i].path != path {
      var j := WriteHasVariable(Start(root), t, c, i);
      assert TargetAt(t, c, j) == TargetAt(s, c, j);
    }
  }

  /** The part of the path is free: no earlier variable targets a node above or below it. */
  ghost predicate Unrelated(s: seq<Variable>, c: Settings, k: nat, path: Path)
    requires k <= |s|
  {
    !AnyAbove(s, c, k, path) && !AnyBelow(s, c, k, path)
  }

  lemma FirstVariableFinds(root: Value, s: seq<Variable>, c: Settings, k: nat, path: Path)
    requires AppliedUpTo(root, s, c, k) && Unrelated(s, c, k, path) && LastFor(s, c, k, path).None?
    ensures Lookup(TreeAt(root, s, c, k).root, path) == Lookup(root, path)
  {
    PrefixInv(root, s, c, k);
    WritesAreVariables(root, s, c, k, path);
    NoWrite(root, s, c, k, path);
    NodeUnwritten(root, TreeAt(root, s, c, k), path);
  }

  lemma FurtherVariableFinds(root: Value, s: seq<Variable>, c: Settings, k: nat, path: Path)
    requires AppliedUpTo(root, s, c, k) && !AnyAbove(s, c, k, path) && LastFor(s, c, k, path).Some?
    ensures var j := LastFor(s, c, k, path).value;
            && ApplyAll(Start(root), s[..j], c).Ok?
            && var r := ParseEnvironmentValue(c.parsers, s[j].raw, Lookup(TreeAt(root, s, c, j).root, path), path);
               r.Ok? && Lookup(TreeAt(root, s, c, k).root, path) == Some(r.value)
  {
    PrefixInv(root, s, c, k);
    WritesAreVariables(root, s, c, k, path);
    var n := LastWrite(root, s, c, k, path);
    NodeWritten(root, TreeAt(root, s, c, k), path, n);
  }

  lemma DecidingStays(root: Value, s: seq<Variable>, c: Settings, k: nat, path: Path)
    requires k <= |s| && LastFor(s, c, k, path).Some?
    ensures var j := LastFor(s, c, k, path).value;
            Deciding(root, s, c, k, path) ==
            if Deciding(root, s, c, j, path).Some? then Deciding(root, s, c, j, path)
            else Some(LiteralOrText(c.parsers, s[j].raw))
  {
  }

  /** At its turn a variable finds a value of the type that decides, or nothing if nothing decides. */
  lemma {:induction false} TypeAtTurn(root: Value, s: seq<Variable>, c: Settings, k: nat, path: Path)
    requires AppliedUpTo(root, s, c, k) && Unrelated(s, c, k, path) && !InCustom(path)
    ensures var node, x := Lookup(TreeAt(root, s, c, k).root, path), Deciding(root, s, c, k, path);
            && (x.None? <==> node.None?)
            && (x.Some? ==> SameKind(x.value, node.value))
    decreases k
  {
    match LastFor(s, c, k, path)
    case None => FirstVariableFinds(root, s, c, k, path);
    case Some(j) =>
      EarlierApplied(root, s, c, k, j);
      TypeAtTurn(root, s, c, j, path);
      FurtherVariableFinds(root, s, c, k, path);
      DecidingStays(root, s, c, k, path);
      ParseExactly(c.parsers, s[j].raw, Lookup(TreeAt(root, s, c, j).root, path), path);
  }

  // ---------------------------------------------------------------- one variable

  lemma SortedKinds(s: seq<Variable>, i: nat, j: nat)
    requires SortedBy(Precedes, s) && i < j < |s| && IsCanonical(s[i].name)
    ensures IsCanonical(s[j].name)
  {
    assert !Precedes(s[j], s[i]);
  }

  /** The sources tell whether a variable of the same kind targeted the same path before. */
  lemma SourcesTell(root: Value, s: seq<Variable>, c: Settings, k: nat, path: Path, canonical: bool)
    requires AppliedUpTo(root, s, c, k) && k < |s| && TargetAt(s, c, k) == At(path, canonical)
    ensures path != []
    ensures var sources := TreeAt(root, s, c, k).sources;
            && (SameBefore(s, c, k, path, canonical) <==>
                  Join(path) in sources && sources[Join(path)].0 == canonical)
            && (SameBefore(s, c, k, path, canonical) ==>
                  LastFor(s, c, k, path).Some? && sources[Join(path)].1 == s[LastFor(s, c, k, path).value].name)
  {
    TargetIsGood(s[k].name, c.candidates, c.allowLegacy);
    SourcesFollow(root, s, c, k, path);
    if j :| 0 <= j < k && TargetAt(s, c, j) == At(path, canonical) {
      var l := LastFor(s, c, k, path).value;
      TargetIsGood(s[j].name, c.candidates, c.allowLegacy);
      TargetIsGood(s[l].name, c.candidates, c.allowLegacy);
      if IsCanonical(s[l].name) && l < k { SortedKinds(s, l, k); }
      if IsCanonical(s[j].name) && j < l { SortedKinds(s, j, l); }
    }
  }

  /** Whether the text can be read, and the error if it cannot. */
  lemma ReadingAtTurn(root: Value, s: seq<Variable>, c: Settings, k: nat, path: Path)
    requires AppliedUpTo(root, s, c, k) && k < |s| && path != [] && !InCustom(path) && !AnyAbove(s, c, k, path)
    ensures var r := ParseEnvironmentValue(c.parsers, s[k].raw, Lookup(TreeAt(root, s, c, k).root, path), path);
            var x := Deciding(root, s, c, k, path);
            && (r.Ok? <==> !AnyBelow(s, c, k, path) && Fits(root, s, c, k, path))
            && (r.Err? ==> r.error == if AnyBelow(s, c, k, path) || (x.Some? && x.value.Table?)
                                      then ReplacesTable(path) else WrongType(path))
  {
    var node := Lookup(TreeAt(root, s, c, k).root, path);
    ParseExactly(c.parsers, s[k].raw, node, path);
    if AnyBelow(s, c, k, path) {
      PrefixInv(root, s, c, k);
      WritesAreVariables(root, s, c, k, path);
      NodeBelowWrites(root, TreeAt(root, s, c, k), path);
    } else {
      TypeAtTurn(root, s, c, k, path);
      var x := Deciding(root, s, c, k, path);
      if x.Some? { KindDecides(c.parsers, s[k].raw, x.value, node.value); }
    }
  }

  lemma StrictlyAbove(a: Path, b: Path, c: Path)
    requires a < b
    ensures b <= c ==> a < c
  {
  }

  /** Outside `custom`, what lies below an earlier target has no write of its own. */
  lemma NothingElseBelow(log: seq<Write>, path: Path, i: nat, j: nat)
    requires Compatible(log) && i < |log| && j < |log| && log[i].path != [] && log[i].path < path && !InCustom(path)
    ensures !(path <= log[j].path)
  {
    StrictlyAbove(log[i].path, path, log[j].path);
    if i < j {
      assert Related(log[i].path, log[j].path) ==> MayFollow(log[i], log[j]);
    } else if j < i {
      assert Related(log[j].path, log[i].path) ==> MayFollow(log[j], log[i]);
    }
  }

  /** Nor does the original tree have anything there: the table above it could not have been replaced. */
  lemma {:induction false} NothingOriginalBelow(root: Value, s: seq<Variable>, c: Settings, k: nat, path: Path)
    requires AppliedUpTo(root, s, c, k) && path != [] && !HasIndex(path) && !InCustom(path) && AnyAbove(s, c, k, path)
    ensures Lookup(root, path).None?
    decreases k
  {
    var j :| 0 <= j < k && TargetAt(s, c, j).At? && TargetAt(s, c, j).path < path;
    var p := TargetAt(s, c, j).path;
    TargetIsGood(s[j].name, c.candidates, c.allowLegacy);
    NoIndexAbove(p, path);
    EarlierApplied(root, s, c, k, j);
    EarlierApplied(root, s, c, k, j + 1);
    if Lookup(root, path).Some? { TableAbove(root, p, path); }
    if AnyAbove(s, c, j, p) {
      NothingOriginalBelow(root, s, c, j, p);
    } else {
      NoTableReplaced(root, s, c, j, p);
    }
  }

  /** A variable that was applied outside `custom` found no table. */
  lemma NoTableReplaced(root: Value, s: seq<Variable>, c: Settings, j: nat, p: Path)
    requires AppliedUpTo(root, s, c, j) && AppliedUpTo(root, s, c, j + 1) && !AnyAbove(s, c, j, p)
    requires TargetAt(s, c, j).At? && TargetAt(s, c, j).path == p && p != [] && !InCustom(p)
    ensures !(Lookup(root, p).Some? && Lookup(root, p).value.Table?)
  {
    StepBack(root, s, c, j + 1);
    ReadingAtTurn(root, s, c, j, p);
    assert ParseEnvironmentValue(c.parsers, s[j].raw, Lookup(TreeAt(root, s, c, j).root, p), p).Ok?;
  }

  lemma TableAbove(root: Value, p: Path, path: Path)
    requires p < path && !HasIndex(path) && Lookup(root, path).Some?
    ensures Lookup(root, p).Some? && Lookup(root, p).value.Table?
  {
    AboveExists(root, p, path);
    BelowNode(root, p, Lookup(root, p).value, path);
  }

  /** Below an earlier target nothing is found and nothing decides. */
  lemma BelowEarlierTarget(root: Value, s: seq<Variable>, c: Settings, k: nat, path: Path)
    requires AppliedUpTo(root, s, c, k) && path != [] && !HasIndex(path) && !InCustom(path) && AnyAbove(s, c, k, path)
    ensures Lookup(TreeAt(root, s, c, k).root, path).None?
    ensures !AnyBelow(s, c, k, path) && Deciding(root, s, c, k, path).None?
  {
    var o := TreeAt(root, s, c, k);
    PrefixInv(root, s, c, k);
    WritesAreVariables(root, s, c, k, path);
    var i :| 0 <= i < |o.log| && o.log[i].path < path;
    var j := LastAtOrAbove(o.log, o.log[i].path, i);
    assert GoodWrite(o.log[j]);
    BelowNode(o.root, o.log[j].path, o.log[j].value, path);
    forall l | 0 <= l < |o.log| ensures !(path <= o.log[l].path) {
      assert GoodWrite(o.log[i]);
      NothingElseBelow(o.log, path, i, l);
    }
    NothingOriginalBelow(root, s, c, k, path);
    if LastFor(s, c, k, path).Some? { var n := LastWrite(root, s, c, k, path); }
  }

  /** Reading the text at the variable's turn, in all cases. */
  lemma ReadingExactly(root: Value, s: seq<Variable>, c: Settings, k: nat, path: Path)
    requires AppliedUpTo(root, s, c, k) && k < |s| && path != [] && !HasIndex(path)
    ensures var r := ParseEnvironmentValue(c.parsers, s[k].raw, Lookup(TreeAt(root, s, c, k).root, path), path);
            var x := Deciding(root, s, c, k, path);
            && (r.Ok? <==> InCustom(path) || (!AnyBelow(s, c, k, path) && Fits(root, s, c, k, path)))
            && (r.Err? ==> r.error == if AnyBelow(s, c, k, path) || (x.Some? && x.value.Table?)
                                      then ReplacesTable(path) else WrongType(path))
  {
    if InCustom(path) || AnyAbove(s, c, k, path) {
      if !InCustom(path) { BelowEarlierTarget(root, s, c, k, path); }
      ParseExactly(c.parsers, s[k].raw, Lookup(TreeAt(root, s, c, k).root, path), path);
    } else {
      ReadingAtTurn(root, s, c, k, path);
    }
  }

  /** A write is blocked by the original tree or by an earlier target above it, and by nothing else. */
  lemma BlockedExactly(root: Value, s: seq<Variable>, c: Settings, k: nat, path: Path)
    requires AppliedUpTo(root, s, c, k) && path != [] && !HasIndex(path)
    ensures Blocked(TreeAt(root, s, c, k).root, path) <==> Blocked(root, path) || AnyAbove(s, c, k, path)
  {
    var o := TreeAt(root, s, c, k);
    PrefixInv(root, s, c, k);
    PrefixFree(root, s, c, k);
    WritesAreVariables(root, s, c, k, path);
    if Blocked(o.root, path) { WhyBlocked(root, o, path); }
    if Blocked(root, path) { StillBlocked(root, o, path); }
    if LogAbove(o.log, path) { BlockedByWrite(root, o, path); }
  }

  lemma AppliedExactly(root: Value, s: seq<Variable>, c: Settings, k: nat, path: Path, canonical: bool)
    requires AppliedUpTo(root, s, c, k) && k < |s| && TargetAt(s, c, k) == At(path, canonical) && path != []
    ensures var r := ApplyAt(TreeAt(root, s, c, k), s[k], c, path, canonical);
            && (r.Ok? <==> Admissible(root, s, c, k))
            && (r.Err? ==> IsErrorAt(root, s, c, k, r.error))
  {
    if !HasIndex(path) {
      ReadingExactly(root, s, c, k, path);
      SourcesTell(root, s, c, k, path, canonical);
      BlockedExactly(root, s, c, k, path);
      ApplyAtExactly(TreeAt(root, s, c, k), s[k], c, path, canonical);
    }
  }

  /** The three hurdles of one variable, in the order in which they are taken. */
  lemma ApplyAtExactly(o: Overlay, v: Variable, c: Settings, path: Path, canonical: bool)
    requires path != [] && !HasIndex(path)
    ensures var r := ApplyAt(o, v, c, path, canonical);
            var parsed := ParseEnvironmentValue(c.parsers, v.raw, Lookup(o.root, path), path);
            var taken := Join(path) in o.sources && o.sources[Join(path)].0 == canonical;
            && (r.Ok? <==> parsed.Ok? && !taken && !Blocked(o.root, path))
            && (parsed.Err? ==> r == Err(parsed.error))
            && (parsed.Ok? && taken ==> r == Err(MultipleTargets(Join(path), o.sources[Join(path)].1, v.name)))
            && (parsed.Ok? && !taken && r.Err? ==> r.error.WriteFailed?)
  {
    var parsed := ParseEnvironmentValue(c.parsers, v.raw, Lookup(o.root, path), path);
    if parsed.Ok? { SetFailsExactlyWhenBlocked(o.root, path, parsed.value); }
  }

  /** At its turn a variable is applied exactly when it is admissible, and otherwise the error says why not. */
  lemma TurnExactly(root: Value, s: seq<Variable>, c: Settings, k: nat)
    requires AppliedUpTo(root, s, c, k) && k < |s|
    ensures var r := ApplyOne(TreeAt(root, s, c, k), s[k], c);
            && (r.Ok? <==> Admissible(root, s, c, k))
            && (r.Err? ==> IsErrorAt(root, s, c, k, r.error))
  {
    var t := TargetAt(s, c, k);
    if t.At? {
      TargetIsGood(s[k].name, c.candidates, c.allowLegacy);
      AppliedExactly(root, s, c, k, t.path, t.canonical);
    }
  }

  // ---------------------------------------------------------------- the whole environment

  ghost predicate AdmissibleUpTo(root: Value, s: seq<Variable>, c: Settings, k: nat)
    requires k <= |s|
  {
    forall j :: 0 <= j < k ==> Admissible(root, s, c, j)
  }

  /** The error of the first variable that is not admissible. */
  ghost predicate IsFirstError(root: Value, s: seq<Variable>, c: Settings, k: nat, e: OverlayError) {
    k < |s| && AdmissibleUpTo(root, s, c, k) && !Admissible(root, s, c, k) && IsErrorAt(root, s, c, k, e)
  }

  lemma {:induction false} PrefixExactly(root: Value, s: seq<Variable>, c: Settings, k: nat)
    requires GoodCandidates(c.candidates) && SortedBy(Precedes, s) && k <= |s|
    ensures match ApplyAll(Start(root), s[..k], c)
            case Ok(_) => AdmissibleUpTo(root, s, c, k)
            case Err(e) => exists j: nat :: j < k && IsFirstError(root, s, c, j, e)
    decreases k
  {
    if k == 0 {
      assert s[..0] == [];
    } else {
      PrefixExactly(root, s, c, k - 1);
      ApplyAllSnoc(Start(root), s, c, k - 1);
      match ApplyAll(Start(root), s[..k - 1], c)
      case Err(e) =>
        var j: nat :| j < k - 1 && IsFirstError(root, s, c, j, e);
        assert j < k && IsFirstError(root, s, c, j, e);
      case Ok(o) =>
        TurnExactly(root, s, c, k - 1);
        match ApplyOne(o, s[k - 1], c)
        case Err(e) => assert IsFirstError(root, s, c, k - 1, e);
        case Ok(_) =>
    }
  }

  /**
    An overlay succeeds exactly when every variable is admissible, which is said over the original
    tree and the texts of the variables; otherwise the first that is not gives the error.
    */
  lemma OverlaySucceedsExactly(root: Value, env: seq<Variable>, c: Settings)
    requires GoodCandidates(c.candidates)
    ensures var s := SortEnvironment(env);
            && (ApplyAll(Overlay(root, map[], []), s, c).Ok? <==> AdmissibleUpTo(root, s, c, |s|))
            && (ApplyAll(Overlay(root, map[], []), s, c).Err? ==>
                  exists k: nat :: IsFirstError(root, s, c, k, ApplyAll(Overlay(root, map[], []), s, c).error))
  {
    var s := SortEnvironment(env);
    PrecedesIsOrder();
    SortBySorts(Precedes, env);
    assert s[..|s|] == s;
    PrefixExactly(root, s, c, |s|);
  }

  // ---------------------------------------------------------------- what the final tree holds

  /** What the k-th variable amounts to over the original tree. */
  ghost predicate AmountsTo(root: Value, s: seq<Variable>, c: Settings, k: nat, path: Path, v: Value)
    requires k < |s|
  {
    match Deciding(root, s, c, k, path)
    case None => v == LiteralOrText(c.parsers, s[k].raw)
    case Some(x) => ReadAs(c.parsers, s[k].raw, x, v)
  }

  lemma TurnAmountsTo(root: Value, s: seq<Variable>, c: Settings, k: nat, path: Path, v: Value)
    requires AppliedUpTo(root, s, c, k) && k < |s| && Unrelated(s, c, k, path) && !InCustom(path)
    requires ParseEnvironmentValue(c.parsers, s[k].raw, Lookup(TreeAt(root, s, c, k).root, path), path) == Ok(v)
    ensures AmountsTo(root, s, c, k, path, v)
  {
    var node, x := Lookup(TreeAt(root, s, c, k).root, path), Deciding(root, s, c, k, path);
    TypeAtTurn(root, s, c, k, path);
    ParseExactly(c.parsers, s[k].raw, node, path);
    if x.Some? { KindDecides(c.parsers, s[k].raw, x.value, node.value); }
  }

  lemma AppliedIsAdmissible(root: Value, env: seq<Variable>, c: Settings, k: nat)
    requires GoodCandidates(c.candidates) && k < |SortEnvironment(env)|
    requires ApplyAll(Overlay(root, map[], []), SortEnvironment(env), c).Ok?
    ensures AppliedUpTo(root, SortEnvironment(env), c, k) && Admissible(root, SortEnvironment(env), c, k)
  {
    var s := SortEnvironment(env);
    PrecedesIsOrder();
    SortBySorts(Precedes, env);
    assert s[..|s|] == s;
    EarlierApplied(root, s, c, |s|, k);
    OverlaySucceedsExactly(root, env, c);
  }

  /**
    After a successful overlay, outside `custom`, the path of every canonical variable, and of
    every legacy variable that no canonical one repeats, holds the variable's text: as it is where
    the original tree has a string; parsed as an integer, float, boolean or datetime where it has
    one; as an array literal where it has an array; and as a literal that is no table, or else as
    it is, where it has nothing.
    */
  lemma FinalValueByType(root: Value, env: seq<Variable>, c: Settings, k: nat, path: Path, canonical: bool)
    requires GoodCandidates(c.candidates)
    requires var s := SortEnvironment(env);
             && ApplyAll(Overlay(root, map[], []), s, c).Ok?
             && k < |s| && TargetAt(s, c, k) == At(path, canonical) && path != [] && !InCustom(path)
             && (canonical || !SomeCanonicalTargets(s, c, path))
    ensures var s := SortEnvironment(env);
            var final := Lookup(ApplyAll(Overlay(root, map[], []), s, c).value.root, path);
            final.Some? && AmountsTo(root, s, c, k, path, final.value)
  {
    var o, s := Overlay(root, map[], []), SortEnvironment(env);
    AppliedIsAdmissible(root, env, c, k);
    EveryVariableCounts(root, env, c, k, path, canonical);
    var value :|
      && ReadAtItsTurn(o, s, c, k, Write(path, canonical, value))
      && Lookup(ApplyAll(o, s, c).value.root, path) == Some(value);
    TurnAmountsTo(root, s, c, k, path, value);
  }

  /** Inside `custom` a variable that is not repeated leaves its text, unless a later one targets a node above. */
  lemma FinalCustomValue(root: Value, env: seq<Variable>, c: Settings, k: nat, path: Path, canonical: bool)
    requires GoodCandidates(c.candidates)
    requires var s := SortEnvironment(env);
             && ApplyAll(Overlay(root, map[], []), s, c).Ok?
             && k < |s| && TargetAt(s, c, k) == At(path, canonical) && InCustom(path) && !Repeated(s, c, k, path)
    ensures var s := SortEnvironment(env);
            Lookup(ApplyAll(Overlay(root, map[], []), s, c).value.root, path) ==
            if Shadowed(s, c, k, path) then None else Some(Str(s[k].raw))
  {
    VariableSurvives(root, env, c, k, path, canonical);
  }
}
