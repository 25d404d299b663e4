/** The values of the environment overlay in closed form, over the original tree. */
module OverlayValues {
  import opened Wrappers
  import opened Sequences
  import opened ConfigTree
  import opened EnvironmentOverlay
  import opened OverlayLaws
  import opened EnvironmentOverrides

  /**
    What the k-th variable amounts to: its text read as the type the original tree has at its path
    or, where an earlier variable targets the same path, as the type that one was read as.
    */
  function ValueOf(root: Value, s: seq<Variable>, c: Settings, k: nat, path: Path): Result<Value, OverlayError>
    requires k < |s|
  {
    match LastFor(s, c, k, path)
    case None => ParseEnvironmentValue(c.parsers, s[k].raw, Lookup(root, path), path)
    case Some(j) =>
      match ParseEnvironmentValue(c.parsers, s[j].raw, Lookup(root, path), path)
      case Err(e) => Err(e)
      case Ok(first) => ParseEnvironmentValue(c.parsers, s[k].raw, Some(first), path)
  }

  /** The type already present decides how a text is read, not the value. */
  lemma TypeDecides(ps: Parsers, raw: string, a: Value, b: Value, path: Path)
    requires SameKind(a, b)
    ensures ParseEnvironmentValue(ps, raw, Some(a), path) == ParseEnvironmentValue(ps, raw, Some(b), path)
  {
  }

  /** Where the original tree has a value, an earlier variable of the same path makes no difference. */
  lemma PresentDecides(root: Value, s: seq<Variable>, c: Settings, k: nat, path: Path)
    requires k < |s| && Lookup(root, path).Some? && !InCustom(path) && ValueOf(root, s, c, k, path).Ok?
    ensures ValueOf(root, s, c, k, path) == ParseEnvironmentValue(c.parsers, s[k].raw, Lookup(root, path), path)
  {
    var j := LastFor(s, c, k, path);
    if j.Some? {
      var first := ParseEnvironmentValue(c.parsers, s[j.value].raw, Lookup(root, path), path).value;
      TypeDecides(c.parsers, s[k].raw, Lookup(root, path).value, first, path);
    }
  }

  // ---------------------------------------------------------------- the tree before a variable's turn

  /** A successful overlay of a sorted environment, and a variable outside `custom` in it. */
  ghost predicate InPlay(root: Value, s: seq<Variable>, c: Settings, k: nat, path: Path) {
    && GoodCandidates(c.candidates) && SortedBy(Precedes, s) && ApplyAll(Overlay(root, map[], []), s, c).Ok?
    && k < |s| && TargetAt(s, c, k).At? && TargetAt(s, c, k).path == path && path != [] && !InCustom(path)
  }

  /** Earlier variables with related targets are legacy variables of the same path. */
  lemma EarlierTargets(root: Value, s: seq<Variable>, c: Settings, k: nat, path: Path, j: nat)
    requires InPlay(root, s, c, k, path) && j < k && TargetAt(s, c, j).At? && Related(TargetAt(s, c, j).path, path)
    ensures TargetAt(s, c, j) == At(path, false) && TargetAt(s, c, k).canonical
  {
    SortOfSorted(Precedes, s);
    var o := Overlay(root, map[], []);
    var p := TargetAt(s, c, j).path;
    var m, n := LaterWrite(o, s, c, j, k);
    OverlayKeepsInv(root, s, c);
    var log := ApplyAll(o, s, c).value.log;
    assert GoodWrite(log[m]) && p[0] == path[0];
    RelatedTargets(root, s, c, j, k);
  }

  lemma SortedPrefix(s: seq<Variable>, k: nat)
    requires SortedBy(Precedes, s) && k <= |s|
    ensures SortedBy(Precedes, s[..k]) && SortEnvironment(s[..k]) == s[..k]
  {
    assert forall i, j :: 0 <= i < j < k ==> !Precedes(s[..k][j], s[..k][i]);
    SortOfSorted(Precedes, s[..k]);
  }

  lemma NothingRelatedBefore(root: Value, s: seq<Variable>, c: Settings, k: nat, path: Path, j: nat)
    requires InPlay(root, s, c, k, path) && LastFor(s, c, k, path).None? && j < k && TargetAt(s, c, j).At?
    ensures !Related(TargetAt(s, c, j).path, path)
  {
    if Related(TargetAt(s, c, j).path, path) { EarlierTargets(root, s, c, k, path, j); }
  }

  /** What no earlier target is related to reads as in the original tree. */
  lemma PrefixUntouched(root: Value, c: Settings, t: seq<Variable>, q: Path)
    requires GoodCandidates(c.candidates) && SortEnvironment(t) == t && ApplyAll(Overlay(root, map[], []), t, c).Ok?
    requires forall j :: 0 <= j < |t| && TargetAt(t, c, j).At? ==> !Related(TargetAt(t, c, j).path, q)
    ensures Lookup(ApplyAll(Overlay(root, map[], []), t, c).value.root, q) == Lookup(root, q)
  {
    RestIsUntouched(root, t, c, q);
  }

  /** The first variable of a path finds there what the original tree has. */
  lemma FirstFindsOriginal(root: Value, s: seq<Variable>, c: Settings, k: nat, path: Path)
    requires InPlay(root, s, c, k, path) && LastFor(s, c, k, path).None?
    requires ApplyAll(Overlay(root, map[], []), s[..k], c).Ok?
    ensures Lookup(ApplyAll(Overlay(root, map[], []), s[..k], c).value.root, path) == Lookup(root, path)
  {
    SortedPrefix(s, k);
    var t := s[..k];
    forall j | 0 <= j < |t| && TargetAt(t, c, j).At? ensures !Related(TargetAt(t, c, j).path, path) {
      assert t[j] == s[j];
      NothingRelatedBefore(root, s, c, k, path, j);
    }
    PrefixUntouched(root, c, t, path);
  }

  /** The second finds the value of the first. */
  lemma SecondFindsFirst(root: Value, s: seq<Variable>, c: Settings, k: nat, path: Path, j: nat) returns (first: Value)
    requires InPlay(root, s, c, k, path) && LastFor(s, c, k, path) == Some(j)
    requires ApplyAll(Overlay(root, map[], []), s[..k], c).Ok?
    ensures ParseEnvironmentValue(c.parsers, s[j].raw, Lookup(root, path), path) == Ok(first)
    ensures Lookup(ApplyAll(Overlay(root, map[], []), s[..k], c).value.root, path) == Some(first)
  {
    var o, t := Overlay(root, map[], []), s[..k];
    SortedPrefix(s, k);
    EarlierTargets(root, s, c, k, path, j);
    assert TargetAt(t, c, j) == TargetAt(s, c, j) == At(path, false);
    NoCanonicalBefore(root, s, c, k, path);
    EveryVariableCounts(root, t, c, j, path, false);
    first :|
      && ReadAtItsTurn(o, t, c, j, Write(path, false, first))
      && Lookup(ApplyAll(o, t, c).value.root, path) == Some(first);
    assert t[..j] == s[..j];
    FirstIsFirst(root, s, c, k, path, j);
  }

  lemma NoCanonicalBefore(root: Value, s: seq<Variable>, c: Settings, k: nat, path: Path)
    requires InPlay(root, s, c, k, path)
    ensures !SomeCanonicalTargets(s[..k], c, path)
  {
    forall l | 0 <= l < k ensures TargetAt(s[..k], c, l) != At(path, true) {
      assert TargetAt(s[..k], c, l) == TargetAt(s, c, l);
      if TargetAt(s, c, l) == At(path, true) { EarlierTargets(root, s, c, k, path, l); }
    }
  }

  /** Nothing related comes before a legacy variable that a canonical one repeats. */
  lemma FirstIsFirst(root: Value, s: seq<Variable>, c: Settings, k: nat, path: Path, j: nat)
    requires InPlay(root, s, c, k, path) && LastFor(s, c, k, path) == Some(j)
    requires ApplyAll(Overlay(root, map[], []), s[..j], c).Ok?
    ensures Lookup(ApplyAll(Overlay(root, map[], []), s[..j], c).value.root, path) == Lookup(root, path)
  {
    EarlierTargets(root, s, c, k, path, j);
    assert InPlay(root, s, c, j, path);
    var i := LastFor(s, c, j, path);
    if i.Some? { EarlierTargets(root, s, c, j, path, i.value); }
    FirstFindsOriginal(root, s, c, j, path);
  }

  /** At its turn every variable is read as what it amounts to. */
  lemma TurnIsClosed(root: Value, s: seq<Variable>, c: Settings, k: nat, path: Path, w: Write)
    requires InPlay(root, s, c, k, path) && w.path == path
    requires ReadAtItsTurn(Overlay(root, map[], []), s, c, k, w)
    ensures ValueOf(root, s, c, k, path) == Ok(w.value)
  {
    match LastFor(s, c, k, path)
    case None => FirstFindsOriginal(root, s, c, k, path);
    case Some(j) =>
      var first := SecondFindsFirst(root, s, c, k, path, j);
  }

  /**
    After a successful overlay, outside `custom`, the path of every canonical variable, and of
    every legacy variable that no canonical one repeats, holds exactly what the variable amounts
    to over the original tree.
    */
  lemma FinalValueIsClosed(root: Value, env: seq<Variable>, c: Settings, k: nat, path: Path, canonical: bool)
    requires GoodCandidates(c.candidates)
    requires var s := SortEnvironment(env);
             && ApplyAll(Overlay(root, map[], []), s, c).Ok?
             && k < |s| && TargetAt(s, c, k) == At(path, canonical) && path != [] && !InCustom(path)
             && (canonical || !SomeCanonicalTargets(s, c, path))
    ensures var s := SortEnvironment(env);
            && ValueOf(root, s, c, k, path).Ok?
            && Lookup(ApplyAll(Overlay(root, map[], []), s, c).value.root, path)
               == Some(ValueOf(root, s, c, k, path).value)
  {
    var o, s := Overlay(root, map[], []), SortEnvironment(env);
    PrecedesIsOrder();
    SortBySorts(Precedes, env);
    EveryVariableCounts(root, env, c, k, path, canonical);
    var value :|
      && ReadAtItsTurn(o, s, c, k, Write(path, canonical, value))
      && Lookup(ApplyAll(o, s, c).value.root, path) == Some(value);
    TurnIsClosed(root, s, c, k, path, Write(path, canonical, value));
  }
}
