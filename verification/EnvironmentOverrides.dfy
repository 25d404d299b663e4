/**
  The environment overlay as the configuration service runs it: the loop over the sorted
  variables, the warnings it gives and the list of keys it reports as applied.
  */
module EnvironmentOverrides {
  import opened Wrappers
  import opened Sequences
  import opened Text
  import opened ConfigTree
  import opened ConfigFlatten
  import opened EnvironmentOverlay
  import opened OverlayLaws
  import StringOrder
  import StringSorting

  datatype Warning = LegacyApplied(name: string, path: Path) | Overrides(name: string, previous: string)

  /** The warnings for one variable, given what was written before it. */
  function StepWarnings(o: Overlay, v: Variable, c: Settings): seq<Warning> {
    match TargetOf(v.name, c.candidates, c.allowLegacy)
    case At(path, canonical) =>
      (if canonical then [] else [LegacyApplied(v.name, path)])
      + (if path != [] && Join(path) in o.sources then [Overrides(v.name, o.sources[Join(path)].1)] else [])
    case _ => []
  }

  // ---------------------------------------------------------------- what the sources remember

  /** The last of the first `k` variables that targets `path`. */
  function LastFor(env: seq<Variable>, c: Settings, k: nat, path: Path): (j: Option<nat>)
    requires k <= |env|
    ensures j.Some? ==> j.value < k && TargetAt(env, c, j.value).At? && TargetAt(env, c, j.value).path == path
    ensures forall l :: 0 <= l < k && TargetAt(env, c, l).At? && TargetAt(env, c, l).path == path ==>
              j.Some? && l <= j.value
  {
    if k == 0 then None
    else if TargetAt(env, c, k - 1).At? && TargetAt(env, c, k - 1).path == path then Some(k - 1)
    else LastFor(env, c, k - 1, path)
  }

  /** Applying one variable more is one step more. */
  lemma {:induction false} ApplyAllSnoc(o: Overlay, env: seq<Variable>, c: Settings, k: nat)
    requires k < |env|
    ensures ApplyAll(o, env[..k + 1], c) ==
            match ApplyAll(o, env[..k], c) case Err(e) => Err(e) case Ok(o') => ApplyOne(o', env[k], c)
    decreases k
  {
    assert env[..k + 1][1..] == env[1..][..k] && env[..k + 1][0] == env[0];
    if k == 0 {
      assert env[..0] == [] && env[1..][..0] == [];
    } else {
      assert env[..k][1..] == env[1..][..k - 1] && env[..k][0] == env[0];
      match ApplyOne(o, env[0], c)
      case Err(_) =>
      case Ok(o') => ApplyAllSnoc(o', env[1..], c, k - 1);
    }
  }

  ghost predicate Remembers(o: Overlay, env: seq<Variable>, c: Settings, k: nat, path: Path)
    requires k <= |env| && path != []
  {
    match LastFor(env, c, k, path)
    case None => Join(path) !in o.sources
    case Some(j) => Join(path) in o.sources && o.sources[Join(path)] == (TargetAt(env, c, j).canonical, env[j].name)
  }

  lemma StepRemembers(o: Overlay, o': Overlay, env: seq<Variable>, c: Settings, k: nat, path: Path)
    requires GoodCandidates(c.candidates) && k < |env| && ApplyOne(o, env[k], c) == Ok(o')
    requires path != [] && (forall i :: 0 <= i < |path| ==> DotFree(path[i])) && Remembers(o, env, c, k, path)
    ensures Remembers(o', env, c, k + 1, path)
  {
    var t := TargetAt(env, c, k);
    if t.At? {
      TargetIsGood(env[k].name, c.candidates, c.allowLegacy);
      if Join(t.path) == Join(path) { SameKeySamePath(t.path, path); }
    }
  }

  /** The sources hold, per path, the kind and the name of the last variable that targets it. */
  lemma {:induction false} SourcesFollow(root: Value, env: seq<Variable>, c: Settings, k: nat, path: Path)
    requires GoodCandidates(c.candidates) && k <= |env| && ApplyAll(Overlay(root, map[], []), env[..k], c).Ok?
    requires path != [] && forall i :: 0 <= i < |path| ==> DotFree(path[i])
    ensures Remembers(ApplyAll(Overlay(root, map[], []), env[..k], c).value, env, c, k, path)
    decreases k
  {
    var start := Overlay(root, map[], []);
    if k == 0 {
      assert env[..0] == [];
    } else {
      ApplyAllSnoc(start, env, c, k - 1);
      SourcesFollow(root, env, c, k - 1, path);
      StepRemembers(ApplyAll(start, env[..k - 1], c).value, ApplyAll(start, env[..k], c).value, env, c, k - 1, path);
    }
  }

  // ---------------------------------------------------------------- warnings

  /**
    What is said about the k-th variable: that a legacy name was applied, and which earlier
    variable of the same path it overrides.
    */
  function WarningsAt(env: seq<Variable>, c: Settings, k: nat): seq<Warning>
    requires k < |env|
  {
    match TargetAt(env, c, k)
    case At(path, canonical) =>
      (if canonical then [] else [LegacyApplied(env[k].name, path)])
      + (match LastFor(env, c, k, path) case None => [] case Some(j) => [Overrides(env[k].name, env[j].name)])
    case _ => []
  }

  function AllWarnings(env: seq<Variable>, c: Settings, k: nat): seq<Warning>
    requires k <= |env|
  {
    if k == 0 then [] else AllWarnings(env, c, k - 1) + WarningsAt(env, c, k - 1)
  }

  lemma WarningsFollow(root: Value, env: seq<Variable>, c: Settings, k: nat)
    requires GoodCandidates(c.candidates) && k < |env| && ApplyAll(Overlay(root, map[], []), env[..k], c).Ok?
    ensures StepWarnings(ApplyAll(Overlay(root, map[], []), env[..k], c).value, env[k], c) == WarningsAt(env, c, k)
  {
    var t := TargetAt(env, c, k);
    if t.At? {
      TargetIsGood(env[k].name, c.candidates, c.allowLegacy);
      SourcesFollow(root, env, c, k, t.path);
    }
  }

  /** Whenever a successful overlay says that one variable overrides another, it is canonical over legacy. */
  lemma OverrideIsCanonical(root: Value, env: seq<Variable>, c: Settings, k: nat, j: nat)
    requires GoodCandidates(c.candidates)
    requires var s := SortEnvironment(env);
             && ApplyAll(Overlay(root, map[], []), s, c).Ok? && j < k < |s|
             && TargetAt(s, c, j).At? && TargetAt(s, c, k).At? && TargetAt(s, c, j).path == TargetAt(s, c, k).path
    ensures var s := SortEnvironment(env); !TargetAt(s, c, j).canonical && TargetAt(s, c, k).canonical
  {
    var o, s := Overlay(root, map[], []), SortEnvironment(env);
    OverlayKeepsInv(root, env, c);
    var log := ApplyAll(o, s, c).value.log;
    var m, n := LaterWrite(o, s, c, j, k);
    assert MayFollow(log[m], log[n]);
  }

  // ---------------------------------------------------------------- the keys reported as applied

  function Dedup(s: seq<string>): seq<string> {
    if |s| <= 1 then s
    else if s[|s| - 1] == s[|s| - 2] then Dedup(s[..|s| - 1])
    else Dedup(s[..|s| - 1]) + [s[|s| - 1]]
  }

  ghost predicate StrictlyIncreasing(s: seq<string>) {
    forall i, j :: 0 <= i < j < |s| ==> StringOrder.Less(s[i], s[j])
  }

  lemma AppendIncreasing(s: seq<string>, x: string)
    requires StrictlyIncreasing(s) && forall y :: y in s ==> StringOrder.Less(y, x)
    ensures StrictlyIncreasing(s + [x])
  {
    forall i | 0 <= i < |s| ensures StringOrder.Less(s[i], x) { assert s[i] in s; }
  }

  lemma LastIsAbove(s: seq<string>, y: string)
    requires SortedBy(StringOrder.Less, s) && |s| > 1 && s[|s| - 1] != s[|s| - 2] && y in s[..|s| - 1]
    ensures StringOrder.Less(y, s[|s| - 1])
  {
    var x, z := s[|s| - 1], s[|s| - 2];
    var i :| 0 <= i < |s| - 1 && s[i] == y;
    StringOrder.LessTotal(z, x);
    if i < |s| - 2 {
      StringOrder.LessTotal(y, z);
      if StringOrder.Less(y, z) { StringOrder.LessTransitive(y, z, x); }
    }
  }

  /** Removing repetitions from a sorted list leaves every element once, in increasing order. */
  lemma {:induction false} DedupSorted(s: seq<string>)
    requires SortedBy(StringOrder.Less, s)
    ensures StrictlyIncreasing(Dedup(s)) && forall x :: x in Dedup(s) <==> x in s
  {
    if |s| > 1 {
      var rest, x := s[..|s| - 1], s[|s| - 1];
      assert s == rest + [x];
      DedupSorted(rest);
      if x != s[|s| - 2] {
        forall y | y in Dedup(rest) ensures StringOrder.Less(y, x) { LastIsAbove(s, y); }
        AppendIncreasing(Dedup(rest), x);
      } else {
        assert rest[|rest| - 1] == x;
      }
    }
  }

  ghost predicate Targeted(env: seq<Variable>, c: Settings, k: nat, key: string)
    requires k <= |env|
  {
    exists l :: 0 <= l < k && Targets(env, c, l, key)
  }

  /** The keys reported are the targets of the variables, each once and in order. */
  ghost predicate ReportsTargets(env: seq<Variable>, c: Settings, applied: seq<string>) {
    StrictlyIncreasing(applied) && forall key :: key in applied <==> Targeted(env, c, |env|, key)
  }

  lemma Reported(env: seq<Variable>, c: Settings, keys: seq<string>)
    requires forall key :: key in keys <==> Targeted(env, c, |env|, key)
    ensures ReportsTargets(env, c, Dedup(SortBy(StringOrder.Less, keys)))
  {
    StringSorting.LessIsOrder();
    SortBySorts(StringOrder.Less, keys);
    var sorted := SortBy(StringOrder.Less, keys);
    PermutationKeepsDistinct(sorted, keys);
    DedupSorted(sorted);
  }

  // ---------------------------------------------------------------- the loop

  /** The state of the loop before the i-th variable. */
  ghost predicate Midway(root: Value, env: seq<Variable>, c: Settings, i: nat, o: Overlay, applied: seq<string>,
                         warnings: seq<Warning>)
  {
    && i <= |env| && ApplyAll(Overlay(root, map[], []), env[..i], c) == Ok(o)
    && warnings == AllWarnings(env, c, i)
    && forall key :: key in applied <==> Targeted(env, c, i, key)
  }

  function Extended(applied: seq<string>, t: Target): seq<string> {
    if t.At? && t.path != [] then applied + [Join(t.path)] else applied
  }

  lemma KeysGrow(env: seq<Variable>, c: Settings, i: nat, applied: seq<string>)
    requires i < |env| && forall key :: key in applied <==> Targeted(env, c, i, key)
    ensures forall key :: key in Extended(applied, TargetAt(env, c, i)) <==> Targeted(env, c, i + 1, key)
  {
    var t := TargetAt(env, c, i);
    forall key ensures key in Extended(applied, t) <==> Targeted(env, c, i + 1, key) {
      TargetedGrows(env, c, i, key);
      assert key in Extended(applied, t) <==> key in applied || Targets(env, c, i, key);
    }
  }

  lemma StepFollows(root: Value, env: seq<Variable>, c: Settings, i: nat, o: Overlay)
    requires i < |env| && ApplyAll(Overlay(root, map[], []), env[..i], c) == Ok(o)
    ensures ApplyAll(Overlay(root, map[], []), env[..i + 1], c) == ApplyOne(o, env[i], c)
  {
    ApplyAllSnoc(Overlay(root, map[], []), env, c, i);
  }

  lemma WarningsGrow(root: Value, env: seq<Variable>, c: Settings, i: nat, o: Overlay)
    requires GoodCandidates(c.candidates) && i < |env| && ApplyAll(Overlay(root, map[], []), env[..i], c) == Ok(o)
    ensures AllWarnings(env, c, i + 1) == AllWarnings(env, c, i) + StepWarnings(o, env[i], c)
  {
    WarningsFollow(root, env, c, i);
  }

  ghost predicate Targets(env: seq<Variable>, c: Settings, l: nat, key: string)
    requires l < |env|
  {
    TargetAt(env, c, l).At? && TargetAt(env, c, l).path != [] && Join(TargetAt(env, c, l).path) == key
  }

  lemma TargetedGrows(env: seq<Variable>, c: Settings, i: nat, key: string)
    requires i < |env|
    ensures Targeted(env, c, i + 1, key) <==> Targeted(env, c, i, key) || Targets(env, c, i, key)
  {
    if Targeted(env, c, i, key) {
      var l :| 0 <= l < i && Targets(env, c, l, key);
      assert 0 <= l < i + 1 && Targets(env, c, l, key);
    }
  }

  lemma FailureStays(root: Value, env: seq<Variable>, c: Settings, i: nat, e: OverlayError)
    requires i <= |env| && ApplyAll(Overlay(root, map[], []), env[..i], c) == Err(e)
    ensures ApplyAll(Overlay(root, map[], []), env, c) == Err(e)
    decreases |env| - i
  {
    if i < |env| {
      ApplyAllSnoc(Overlay(root, map[], []), env, c, i);
      FailureStays(root, env, c, i + 1, e);
    } else {
      assert env[..i] == env;
    }
  }

  /**
    Applies the sorted environment one variable after another. The tree is the fold of the single
    steps; on success the keys reported are the targets, each once and in order, and the warnings
    name every legacy variable and every override, in the order of the variables.
    */
  method ApplyEnvironmentOverrides(show: Printer, root: Value, defaults: Value, env: seq<Variable>, allowLegacy: bool,
                                   parsers: Parsers)
    returns (r: Result<Overlay, OverlayError>, applied: seq<string>, warnings: seq<Warning>)
    ensures !LegacyUnambiguous(show, root, defaults) ==> r.Err?
    ensures forall m :: LegacyUnambiguous(show, root, defaults) && IsLegacyMapping(show, root, defaults, m) ==>
              var s, c := SortEnvironment(env), Settings(m, allowLegacy, parsers);
              && r == ApplyAll(Overlay(root, map[], []), s, c)
              && (r.Ok? ==> ReportsTargets(s, c, applied) && warnings == AllWarnings(s, c, |s|))
  {
    applied, warnings := [], [];
    var candidates := LegacyEnvironmentCandidates(show, root, defaults);
    if candidates.Err? {
      r := Err(candidates.error);
      return;
    }
    forall m | IsLegacyMapping(show, root, defaults, m) ensures m == candidates.value {
      LegacyMappingIsUnique(show, root, defaults, m, candidates.value);
    }
    LegacyMappingIsGood(show, root, defaults, candidates.value);
    var sorted, c := SortEnvironment(env), Settings(candidates.value, allowLegacy, parsers);
    var o := Overlay(root, map[], []);
    assert sorted[..0] == [];
    for i := 0 to |sorted|
      invariant Midway(root, sorted, c, i, o, applied, warnings)
    {
      StepFollows(root, sorted, c, i, o);
      var step := ApplyOne(o, sorted[i], c);
      if step.Err? {
        FailureStays(root, sorted, c, i + 1, step.error);
        r := Err(step.error);
        return;
      }
      WarningsGrow(root, sorted, c, i, o);
      KeysGrow(sorted, c, i, applied);
      warnings := warnings + StepWarnings(o, sorted[i], c);
      applied := Extended(applied, TargetAt(sorted, c, i));
      o := step.value;
    }
    assert sorted[..|sorted|] == sorted;
    Reported(sorted, c, applied);
    applied := Dedup(SortBy(StringOrder.Less, applied));
    r := Ok(o);
  }
}
