/** What the environment overlay guarantees about the final tree. */
module OverlayLaws {
  import opened Wrappers
  import opened Sequences
  import opened Text
  import opened ConfigTree
  import opened ConfigFlatten
  import opened EnvironmentOverlay

  // ---------------------------------------------------------------- paths of names only

  /** One path runs through the other. */
  predicate Related(a: Path, b: Path) { a <= b || b <= a }

  lemma TailPrefix(a: Path, b: Path)
    requires a != [] && b != [] && a[0] == b[0]
    ensures a <= b <==> a[1..] <= b[1..]
  {
  }

  lemma TailHasNoIndex(p: Path)
    requires p != [] && !HasIndex(p)
    ensures !HasIndex(p[1..]) && ParseUsize(p[0]).None?
  {
  }

  /** A write along names only passes through tables, so paths compare as lists of names. */
  lemma {:induction false} RelateNames(v: Value, p: Path, q: Path, value: Value)
    requires p != [] && !HasIndex(p) && SetInner(v, p, value).error.None?
    ensures p <= q ==> Relate(v, p, q) == Within(q[|p|..])
    ensures !Related(p, q) ==> Relate(v, p, q) == Apart
    decreases |p|
  {
    TailHasNoIndex(p);
    assert v.Table?;
    if q != [] && p[0] == q[0] {
      TailPrefix(p, q);
      TailPrefix(q, p);
      if |p| == 1 {
        assert p[1..] == [];
        assert Relate(ChildOrEmpty(v, p[0]), p[1..], q[1..]) == Within(q[1..]);
      } else {
        RelateNames(ChildOrEmpty(v, p[0]), p[1..], q[1..], value);
        if |p| <= |q| { assert q[1..][|p[1..]|..] == q[|p|..]; }
      }
    }
  }

  lemma SplitAt(p: Path, q: Path)
    requires p < q
    ensures q == p + q[|p|..] && q[|p|..] != []
  {
  }

  /** A value that is no table blocks writing below it. */
  lemma NonTableBlocks(root: Value, q: Path, c: Value, p: Path, value: Value)
    requires q < p && Lookup(root, q) == Some(c) && !c.Table? && !HasIndex(p)
    ensures SetValueAtPath(root, p, value).error.Some?
  {
    assert p[..|q|] == q;
    assert !CanStep(c, p[|q|]);
    assert BlockedAt(root, p, |q|);
    SetFailsWhenBlocked(root, p, value);
  }

  lemma BelowNode(root: Value, p: Path, c: Value, q: Path)
    requires p < q && Lookup(root, p) == Some(c) && !HasIndex(q)
    ensures !c.Table? ==> Lookup(root, q).None?
    ensures Lookup(root, q).Some? ==> c.Table?
  {
    SplitAt(p, q);
    LookupConcat(root, p, q[|p|..]);
    assert q[|p|..][0] == q[|p|];
  }

  lemma AboveExists(root: Value, p: Path, q: Path)
    requires p <= q && Lookup(root, q).Some?
    ensures Lookup(root, p).Some?
  {
  }

  // ---------------------------------------------------------------- invariant of the overlay

  ghost predicate GoodWrite(w: Write) {
    w.path != [] && !HasIndex(w.path) && !w.value.Table? && forall i :: 0 <= i < |w.path| ==> DotFree(w.path[i])
  }

  ghost predicate GoodLog(log: seq<Write>) {
    forall i :: 0 <= i < |log| ==> GoodWrite(log[i])
  }

  ghost predicate LegacyFirst(log: seq<Write>) {
    forall i, j :: 0 <= i < j < |log| && log[i].canonical ==> log[j].canonical
  }

  /** A canonical write over a legacy one, or a shorter path written later inside `custom`. */
  predicate MayFollow(earlier: Write, later: Write) {
    || (earlier.path == later.path && !earlier.canonical && later.canonical)
    || (later.path != [] && later.path < earlier.path && later.path[0] == "custom")
  }

  ghost predicate Compatible(log: seq<Write>) {
    forall i, j :: 0 <= i < j < |log| && Related(log[i].path, log[j].path) ==> MayFollow(log[i], log[j])
  }

  /** No later write has replaced this one or a node above it. */
  ghost predicate Live(log: seq<Write>, i: nat) {
    i < |log| && forall j :: i < j < |log| ==> !(log[j].path <= log[i].path)
  }

  ghost predicate HoldsLive(root: Value, log: seq<Write>) {
    forall i: nat :: Live(log, i) ==> Lookup(root, log[i].path) == Some(log[i].value)
  }

  ghost predicate Untouched(log: seq<Write>, q: Path) {
    forall i :: 0 <= i < |log| ==> !Related(log[i].path, q)
  }

  ghost predicate Framed(before: Value, after: Value, log: seq<Write>) {
    forall q :: Untouched(log, q) ==> Lookup(after, q) == Lookup(before, q)
  }

  /** The sources remember, per key, the kind of the last write. */
  ghost predicate Tracks(log: seq<Write>, sources: map<string, (bool, string)>)
    requires GoodLog(log)
  {
    && (forall i :: 0 <= i < |log| ==> Join(log[i].path) in sources)
    && (forall i :: 0 <= i < |log| && (forall j :: i < j < |log| ==> log[j].path != log[i].path) ==>
          sources[Join(log[i].path)].0 == log[i].canonical)
  }

  ghost predicate Inv(before: Value, o: Overlay) {
    && GoodLog(o.log) && LegacyFirst(o.log) && Compatible(o.log)
    && HoldsLive(o.root, o.log) && Framed(before, o.root, o.log) && Tracks(o.log, o.sources)
  }

  /** The last write to a node at or above `q`, starting from one such write. */
  lemma LastAtOrAbove(log: seq<Write>, q: Path, i: nat) returns (j: nat)
    requires i < |log| && log[i].path <= q
    ensures i <= j < |log| && log[j].path <= q && Live(log, j)
    ensures forall k :: j < k < |log| ==> !(log[k].path <= q)
    decreases |log| - i
  {
    if k: nat :| i < k < |log| && log[k].path <= q {
      j := LastAtOrAbove(log, q, k);
    } else {
      j := i;
      forall k | i < k < |log| ensures !(log[k].path <= log[i].path) {
        assert !(log[k].path <= q);
      }
    }
  }

  lemma LastEqual(log: seq<Write>, i: nat) returns (j: nat)
    requires i < |log|
    ensures i <= j < |log| && log[j].path == log[i].path
    ensures forall k :: j < k < |log| ==> log[k].path != log[i].path
    decreases |log| - i
  {
    if k: nat :| i < k < |log| && log[k].path == log[i].path {
      j := LastEqual(log, k);
    } else {
      j := i;
    }
  }

  // ---------------------------------------------------------------- one more write

  /** A successful write of `w` to the tree of `o`, after all checks. */
  ghost predicate Applies(o: Overlay, w: Write) {
    && GoodWrite(w)
    && SetInner(o.root, w.path, w.value).error.None?
    && (Lookup(o.root, w.path).Some? && Lookup(o.root, w.path).value.Table? ==> w.path[0] == "custom")
    && (Join(w.path) in o.sources ==> o.sources[Join(w.path)].0 != w.canonical)
    && (forall i :: 0 <= i < |o.log| && o.log[i].canonical ==> w.canonical)
  }

  /** A write below an earlier target always fails. */
  lemma NothingAboveBefore(before: Value, o: Overlay, w: Write, i: nat)
    requires Inv(before, o) && Applies(o, w) && i < |o.log|
    ensures !(o.log[i].path < w.path)
  {
    if o.log[i].path < w.path {
      var j := LastAtOrAbove(o.log, o.log[i].path, i);
      assert o.log[j].path < w.path;
      assert GoodWrite(o.log[j]);
      NonTableBlocks(o.root, o.log[j].path, o.log[j].value, w.path, w.value);
      assert false;
    }
  }

  /** A write above an earlier target fails, except inside `custom`. */
  lemma OnlyCustomAbove(before: Value, o: Overlay, w: Write, i: nat)
    requires Inv(before, o) && Applies(o, w) && i < |o.log| && w.path < o.log[i].path
    ensures w.path[0] == "custom"
  {
    var q := o.log[i].path;
    var j := LastAtOrAbove(o.log, q, i);
    if o.log[j].path == q {
      assert GoodWrite(o.log[i]);
      AboveExists(o.root, w.path, q);
      BelowNode(o.root, w.path, Lookup(o.root, w.path).value, q);
    } else {
      assert i < j && MayFollow(o.log[i], o.log[j]);
      assert o.log[j].path[0] == q[0] == w.path[0];
    }
  }

  /** A second write to one path is canonical over legacy. */
  lemma EqualIsCanonicalOverLegacy(before: Value, o: Overlay, w: Write, i: nat)
    requires Inv(before, o) && Applies(o, w) && i < |o.log| && o.log[i].path == w.path
    ensures !o.log[i].canonical && w.canonical
  {
    var j := LastEqual(o.log, i);
    assert o.sources[Join(o.log[j].path)].0 == o.log[j].canonical;
    if i < j { assert MayFollow(o.log[i], o.log[j]); }
  }

  function After(o: Overlay, w: Write, name: string): Overlay
    requires w.path != []
  {
    Overlay(SetInner(o.root, w.path, w.value).tree, o.sources[Join(w.path) := (w.canonical, name)], o.log + [w])
  }

  lemma KeepsCompatible(before: Value, o: Overlay, w: Write, name: string)
    requires Inv(before, o) && Applies(o, w)
    ensures GoodLog(o.log + [w]) && LegacyFirst(o.log + [w]) && Compatible(o.log + [w])
  {
    var log := o.log + [w];
    forall i, j | 0 <= i < j < |log| && Related(log[i].path, log[j].path) ensures MayFollow(log[i], log[j]) {
      if j == |o.log| {
        NothingAboveBefore(before, o, w, i);
        if o.log[i].path == w.path {
          EqualIsCanonicalOverLegacy(before, o, w, i);
        } else {
          OnlyCustomAbove(before, o, w, i);
        }
      } else {
        assert log[i] == o.log[i] && log[j] == o.log[j];
      }
    }
  }

  lemma KeepsHolds(before: Value, o: Overlay, w: Write, name: string)
    requires Inv(before, o) && Applies(o, w)
    ensures HoldsLive(After(o, w, name).root, o.log + [w])
  {
    var log, root := o.log + [w], After(o, w, name).root;
    forall i: nat | Live(log, i) ensures Lookup(root, log[i].path) == Some(log[i].value) {
      var q := log[i].path;
      SetLaw(o.root, w.path, w.value, q);
      RelateNames(o.root, w.path, q, w.value);
      if i == |o.log| {
        assert q[|w.path|..] == [];
      } else {
        assert Live(o.log, i) by {
          forall j | i < j < |o.log| ensures !(o.log[j].path <= o.log[i].path) { assert log[j] == o.log[j]; }
        }
        assert log[|o.log|] == w && !(w.path <= q);
        NothingAboveBefore(before, o, w, i);
        assert !Related(w.path, q);
      }
    }
  }

  lemma KeepsFrame(before: Value, o: Overlay, w: Write, name: string)
    requires Inv(before, o) && Applies(o, w)
    ensures Framed(before, After(o, w, name).root, o.log + [w])
  {
    var log, root := o.log + [w], After(o, w, name).root;
    forall q | Untouched(log, q) ensures Lookup(root, q) == Lookup(before, q) {
      assert log[|o.log|] == w;
      assert Untouched(o.log, q) by {
        forall i | 0 <= i < |o.log| ensures !Related(o.log[i].path, q) { assert log[i] == o.log[i]; }
      }
      SetLaw(o.root, w.path, w.value, q);
      RelateNames(o.root, w.path, q, w.value);
    }
  }

  lemma SameKeySamePath(p: Path, q: Path)
    requires p != [] && q != [] && Join(p) == Join(q)
    requires forall i :: 0 <= i < |p| ==> DotFree(p[i])
    requires forall i :: 0 <= i < |q| ==> DotFree(q[i])
    ensures p == q
  {
    SplitJoin(p);
    SplitJoin(q);
  }

  lemma OldWriteKeepsSource(o: Overlay, w: Write, name: string, i: nat)
    requires GoodLog(o.log) && GoodWrite(w) && Tracks(o.log, o.sources) && i < |o.log|
    requires forall j :: i < j < |o.log + [w]| ==> (o.log + [w])[j].path != o.log[i].path
    ensures Join(o.log[i].path) in After(o, w, name).sources
    ensures After(o, w, name).sources[Join(o.log[i].path)].0 == o.log[i].canonical
  {
    var log := o.log + [w];
    assert log[|o.log|] == w && GoodWrite(o.log[i]);
    if Join(w.path) == Join(o.log[i].path) { SameKeySamePath(w.path, o.log[i].path); }
    forall j | i < j < |o.log| ensures o.log[j].path != o.log[i].path { assert log[j] == o.log[j]; }
  }

  lemma KeepsTracks(before: Value, o: Overlay, w: Write, name: string)
    requires Inv(before, o) && Applies(o, w)
    ensures GoodLog(o.log + [w]) && Tracks(o.log + [w], After(o, w, name).sources)
  {
    var log, sources := o.log + [w], After(o, w, name).sources;
    forall i | 0 <= i < |log| ensures Join(log[i].path) in sources {
      if i < |o.log| { assert log[i] == o.log[i]; }
    }
    forall i | 0 <= i < |log| && (forall j :: i < j < |log| ==> log[j].path != log[i].path)
      ensures sources[Join(log[i].path)].0 == log[i].canonical
    {
      if i < |o.log| { OldWriteKeepsSource(o, w, name, i); }
    }
  }

  lemma WriteKeepsInv(before: Value, o: Overlay, w: Write, name: string)
    requires Inv(before, o) && Applies(o, w)
    ensures Inv(before, After(o, w, name))
  {
    KeepsCompatible(before, o, w, name);
    KeepsHolds(before, o, w, name);
    KeepsFrame(before, o, w, name);
    KeepsTracks(before, o, w, name);
  }

  // ---------------------------------------------------------------- the whole environment

  ghost predicate GoodCandidates(c: map<string, Path>) {
    forall e :: e in c ==> c[e] != [] && forall i :: 0 <= i < |c[e]| ==> DotFree(c[e][i])
  }

  lemma TargetIsGood(name: string, c: map<string, Path>, allowLegacy: bool)
    requires GoodCandidates(c) && TargetOf(name, c, allowLegacy).At?
    ensures var t := TargetOf(name, c, allowLegacy);
            t.path != [] && t.canonical == IsCanonical(name) && forall i :: 0 <= i < |t.path| ==> DotFree(t.path[i])
  {
  }

  /** Once a canonical variable was applied only canonical ones remain. */
  ghost predicate CanonicalRemain(log: seq<Write>, env: seq<Variable>) {
    (exists i :: 0 <= i < |log| && log[i].canonical) ==> forall j :: 0 <= j < |env| ==> IsCanonical(env[j].name)
  }

  lemma ApplyAtKeepsInv(before: Value, o: Overlay, v: Variable, c: Settings, path: Path, canonical: bool)
    requires Inv(before, o) && path != [] && ApplyAt(o, v, c, path, canonical).Ok?
    requires forall i :: 0 <= i < |path| ==> DotFree(path[i])
    requires forall i :: 0 <= i < |o.log| && o.log[i].canonical ==> canonical
    ensures Inv(before, ApplyAt(o, v, c, path, canonical).value)
    ensures exists value :: ApplyAt(o, v, c, path, canonical).value.log == o.log + [Write(path, canonical, value)]
  {
    var value := ParseEnvironmentValue(c.parsers, v.raw, Lookup(o.root, path), path).value;
    var w := Write(path, canonical, value);
    assert Applies(o, w);
    WriteKeepsInv(before, o, w, v.name);
    assert ApplyAt(o, v, c, path, canonical).value == After(o, w, v.name);
  }

  lemma ApplyOneKeepsInv(before: Value, o: Overlay, env: seq<Variable>, c: Settings)
    requires Inv(before, o) && GoodCandidates(c.candidates)
    requires env != [] && SortedBy(Precedes, env) && CanonicalRemain(o.log, env)
    requires ApplyOne(o, env[0], c).Ok?
    ensures Inv(before, ApplyOne(o, env[0], c).value) && CanonicalRemain(ApplyOne(o, env[0], c).value.log, env[1..])
  {
    var v := env[0];
    var t := TargetOf(v.name, c.candidates, c.allowLegacy);
    if t.At? {
      TargetIsGood(v.name, c.candidates, c.allowLegacy);
      ApplyAtKeepsInv(before, o, v, c, t.path, t.canonical);
      if t.canonical {
        forall j | 0 <= j < |env[1..]| ensures IsCanonical(env[1..][j].name) {
          assert !Precedes(env[j + 1], env[0]);
        }
      }
    }
  }

  lemma {:induction false} ApplyAllKeepsInv(before: Value, o: Overlay, env: seq<Variable>, c: Settings)
    requires Inv(before, o) && GoodCandidates(c.candidates) && SortedBy(Precedes, env) && CanonicalRemain(o.log, env)
    requires ApplyAll(o, env, c).Ok?
    ensures Inv(before, ApplyAll(o, env, c).value)
    decreases |env|
  {
    if env != [] {
      ApplyOneKeepsInv(before, o, env, c);
      SortedTail(Precedes, env);
      ApplyAllKeepsInv(before, ApplyOne(o, env[0], c).value, env[1..], c);
    }
  }

  lemma LegacyMappingIsGood(show: Printer, root: Value, defaults: Value, c: map<string, Path>)
    requires IsLegacyMapping(show, root, defaults, c)
    ensures GoodCandidates(c)
  {
    var keys: set<string> :| AreLeafKeys(show, root, defaults, keys) && MapsKeys(keys, c);
    forall e | e in c ensures c[e] != [] && forall i :: 0 <= i < |c[e]| ==> DotFree(c[e][i]) {
      var k :| k in keys && LegacyKey(k) == e;
      JoinSplit(k);
    }
  }

  /** Every successful overlay satisfies the invariant. */
  lemma OverlayKeepsInv(root: Value, env: seq<Variable>, c: Settings)
    requires GoodCandidates(c.candidates)
    requires ApplyAll(Overlay(root, map[], []), SortEnvironment(env), c).Ok?
    ensures Inv(root, ApplyAll(Overlay(root, map[], []), SortEnvironment(env), c).value)
  {
    PrecedesIsOrder();
    SortBySorts(Precedes, env);
    var o := Overlay(root, map[], []);
    assert Inv(root, o);
    ApplyAllKeepsInv(root, o, SortEnvironment(env), c);
  }

  // ---------------------------------------------------------------- what the final tree holds

  /** A later override replaced a node above this one. */
  ghost predicate Overridden(log: seq<Write>, i: nat)
    requires i < |log|
  {
    exists j :: i < j < |log| && log[j].path < log[i].path
  }

  /**
    What the final tree holds at the path of any override: nothing if a later override replaced a
    node above it, and otherwise the value of the last override of that very path.
    */
  lemma FinalValue(before: Value, o: Overlay, i: nat) returns (last: nat)
    requires Inv(before, o) && i < |o.log|
    ensures i <= last < |o.log| && o.log[last].path == o.log[i].path
    ensures forall j :: last < j < |o.log| ==> o.log[j].path != o.log[i].path
    ensures Lookup(o.root, o.log[i].path) == if Overridden(o.log, i) then None else Some(o.log[last].value)
  {
    last := LastEqual(o.log, i);
    if Overridden(o.log, i) {
      OverriddenIsGone(before, o, i);
    } else {
      NotOverriddenIsLive(before, o, i, last);
    }
  }

  /** A longer path is never written after a shorter one. */
  lemma NeverLongerLater(log: seq<Write>, k: nat, j: nat)
    requires Compatible(log) && k < j < |log|
    ensures !(log[k].path < log[j].path)
  {
  }

  lemma OverriddenBy(log: seq<Write>, i: nat) returns (j: nat)
    requires Compatible(log) && i < |log| && Overridden(log, i)
    ensures i < j < |log| && log[j].path < log[i].path && Live(log, j)
  {
    var k: nat :| i < k < |log| && log[k].path < log[i].path;
    j := LastAbove(log, log[i].path, k);
  }

  lemma LastAbove(log: seq<Write>, q: Path, k: nat) returns (j: nat)
    requires Compatible(log) && k < |log| && log[k].path < q
    ensures k <= j < |log| && log[j].path < q && Live(log, j)
  {
    j := LastAtOrAbove(log, q, k);
    if log[j].path == q {
      NeverLongerLater(log, k, j);
      assert false;
    }
  }

  lemma OverriddenIsGone(before: Value, o: Overlay, i: nat)
    requires GoodLog(o.log) && Compatible(o.log) && HoldsLive(o.root, o.log) && i < |o.log| && Overridden(o.log, i)
    ensures Lookup(o.root, o.log[i].path).None?
  {
    var j := OverriddenBy(o.log, i);
    assert GoodWrite(o.log[i]) && GoodWrite(o.log[j]);
    BelowNode(o.root, o.log[j].path, o.log[j].value, o.log[i].path);
  }

  lemma NotOverriddenIsLive(before: Value, o: Overlay, i: nat, last: nat)
    requires Inv(before, o) && i <= last < |o.log| && !Overridden(o.log, i) && o.log[last].path == o.log[i].path
    requires forall j :: last < j < |o.log| ==> o.log[j].path != o.log[i].path
    ensures Lookup(o.root, o.log[i].path) == Some(o.log[last].value)
  {
  }

  // ---------------------------------------------------------------- from variables to values

  lemma {:induction false} LogGrows(o: Overlay, env: seq<Variable>, c: Settings)
    requires ApplyAll(o, env, c).Ok?
    ensures o.log <= ApplyAll(o, env, c).value.log
    decreases |env|
  {
    if env != [] {
      LogGrows(ApplyOne(o, env[0], c).value, env[1..], c);
    }
  }

  /** What the k-th variable is read as at its turn, given the tree as it is then. */
  ghost predicate ReadAtItsTurn(o: Overlay, env: seq<Variable>, c: Settings, k: nat, w: Write) {
    && k < |env| && TargetAt(env, c, k) == At(w.path, w.canonical)
    && ApplyAll(o, env[..k], c).Ok?
    && var before := ApplyAll(o, env[..k], c).value.root;
       ParseEnvironmentValue(c.parsers, env[k].raw, Lookup(before, w.path), w.path) == Ok(w.value)
  }

  function TargetAt(env: seq<Variable>, c: Settings, k: nat): Target
    requires k < |env|
  {
    TargetOf(env[k].name, c.candidates, c.allowLegacy)
  }

  /** How many of the variables have a target. */
  function Hits(env: seq<Variable>, c: Settings): nat {
    if env == [] then 0 else (if TargetAt(env, c, 0).At? then 1 else 0) + Hits(env[1..], c)
  }

  lemma {:induction false} HitsGrow(env: seq<Variable>, c: Settings, k: nat, l: nat)
    requires k < l <= |env|
    ensures Hits(env[..k], c) + (if TargetAt(env, c, k).At? then 1 else 0) <= Hits(env[..l], c)
    decreases |env|
  {
    assert env[..l][1..] == env[1..][..l - 1];
    if k > 0 {
      assert env[..k][1..] == env[1..][..k - 1];
      HitsGrow(env[1..], c, k - 1, l - 1);
    }
  }

  lemma HitsCons(env: seq<Variable>, c: Settings, k: nat)
    requires k < |env|
    ensures Hits(env[..k + 1], c) == (if TargetAt(env, c, 0).At? then 1 else 0) + Hits(env[1..][..k], c)
  {
    assert env[..k + 1][0] == env[0] && env[..k + 1][1..] == env[1..][..k];
  }

  /** The log after the first variable: one write more if it has a target. */
  lemma FirstStep(o: Overlay, env: seq<Variable>, c: Settings) returns (o': Overlay)
    requires env != [] && ApplyAll(o, env, c).Ok?
    ensures ApplyOne(o, env[0], c) == Ok(o') && ApplyAll(o, env, c) == ApplyAll(o', env[1..], c)
    ensures |o'.log| == |o.log| + if TargetAt(env, c, 0).At? then 1 else 0
    ensures o'.log <= ApplyAll(o, env, c).value.log
    ensures TargetAt(env, c, 0).At? ==>
              var w := o'.log[|o.log|];
              && TargetAt(env, c, 0) == At(w.path, w.canonical)
              && ParseEnvironmentValue(c.parsers, env[0].raw, Lookup(o.root, w.path), w.path) == Ok(w.value)
  {
    o' := ApplyOne(o, env[0], c).value;
    LogGrows(o', env[1..], c);
  }

  /** Every variable with a target leaves exactly its own write in the log, in its place. */
  lemma {:induction false} VariableIsApplied(o: Overlay, env: seq<Variable>, c: Settings, k: nat) returns (n: nat)
    requires ApplyAll(o, env, c).Ok? && k < |env| && TargetAt(env, c, k).At?
    ensures n == |o.log| + Hits(env[..k], c) < |ApplyAll(o, env, c).value.log|
    ensures ReadAtItsTurn(o, env, c, k, ApplyAll(o, env, c).value.log[n])
    decreases |env|
  {
    var o' := FirstStep(o, env, c);
    if k == 0 {
      n := |o.log|;
      assert env[..0] == [];
    } else {
      n := VariableIsApplied(o', env[1..], c, k - 1);
      HitsCons(env, c, k - 1);
      assert env[..k][0] == env[0] && env[..k][1..] == env[1..][..k - 1];
    }
  }

  /** Every write in the log comes from a variable of the environment, in its place. */
  lemma {:induction false} WriteHasVariable(o: Overlay, env: seq<Variable>, c: Settings, n: nat) returns (k: nat)
    requires ApplyAll(o, env, c).Ok? && |o.log| <= n < |ApplyAll(o, env, c).value.log|
    ensures k < |env| && n == |o.log| + Hits(env[..k], c)
    ensures var w := ApplyAll(o, env, c).value.log[n]; TargetAt(env, c, k) == At(w.path, w.canonical)
    decreases |env|
  {
    var o' := FirstStep(o, env, c);
    if n < |o'.log| {
      k := 0;
    } else {
      var m := WriteHasVariable(o', env[1..], c, n);
      k := m + 1;
      HitsCons(env, c, m);
    }
  }

  /** A later variable targets a node above this path. */
  ghost predicate Shadowed(env: seq<Variable>, c: Settings, k: nat, path: Path) {
    exists l :: k < l < |env| && TargetAt(env, c, l).At? && TargetAt(env, c, l).path < path
  }

  ghost predicate Repeated(env: seq<Variable>, c: Settings, k: nat, path: Path) {
    exists l :: k < l < |env| && TargetAt(env, c, l).At? && TargetAt(env, c, l).path == path
  }

  /** The order of the log is the order of the variables. */
  lemma LaterWrite(o: Overlay, env: seq<Variable>, c: Settings, k: nat, l: nat) returns (i: nat, j: nat)
    requires ApplyAll(o, env, c).Ok? && k < l < |env| && TargetAt(env, c, k).At? && TargetAt(env, c, l).At?
    ensures i == |o.log| + Hits(env[..k], c) < j < |ApplyAll(o, env, c).value.log|
    ensures var log := ApplyAll(o, env, c).value.log;
            && TargetAt(env, c, k) == At(log[i].path, log[i].canonical)
            && TargetAt(env, c, l) == At(log[j].path, log[j].canonical)
  {
    i := VariableIsApplied(o, env, c, k);
    j := VariableIsApplied(o, env, c, l);
    HitsGrow(env, c, k, l);
  }

  lemma LaterVariable(o: Overlay, env: seq<Variable>, c: Settings, k: nat, j: nat) returns (l: nat)
    requires ApplyAll(o, env, c).Ok? && k < |env| && TargetAt(env, c, k).At?
    requires |o.log| + Hits(env[..k], c) < j < |ApplyAll(o, env, c).value.log|
    ensures k < l < |env|
    ensures var w := ApplyAll(o, env, c).value.log[j]; TargetAt(env, c, l) == At(w.path, w.canonical)
  {
    l := WriteHasVariable(o, env, c, j);
    if l < k { HitsGrow(env, c, l, k); }
  }

  lemma ShadowedIsOverridden(o: Overlay, env: seq<Variable>, c: Settings, k: nat, n: nat)
    requires ApplyAll(o, env, c).Ok? && k < |env| && TargetAt(env, c, k).At?
    requires n == |o.log| + Hits(env[..k], c) < |ApplyAll(o, env, c).value.log|
    requires ApplyAll(o, env, c).value.log[n].path == TargetAt(env, c, k).path
    ensures Shadowed(env, c, k, TargetAt(env, c, k).path) <==> Overridden(ApplyAll(o, env, c).value.log, n)
  {
    var log, path := ApplyAll(o, env, c).value.log, TargetAt(env, c, k).path;
    if l :| k < l < |env| && TargetAt(env, c, l).At? && TargetAt(env, c, l).path < path {
      var i, j := LaterWrite(o, env, c, k, l);
    }
    if j :| n < j < |log| && log[j].path < log[n].path {
      var l := LaterVariable(o, env, c, k, j);
    }
  }

  /**
    What the final tree holds for any variable whose path no later variable repeats, inside
    `custom` or not: nothing if a later variable targets a node above it, and otherwise exactly
    the value the variable was read as at its turn.
    */
  lemma VariableSurvives(root: Value, env: seq<Variable>, c: Settings, k: nat, path: Path, canonical: bool)
    requires GoodCandidates(c.candidates)
    requires var s := SortEnvironment(env);
             && ApplyAll(Overlay(root, map[], []), s, c).Ok?
             && k < |s| && TargetAt(s, c, k) == At(path, canonical) && !Repeated(s, c, k, path)
    ensures var o, s := Overlay(root, map[], []), SortEnvironment(env);
            exists value :: ReadAtItsTurn(o, s, c, k, Write(path, canonical, value))
              && Lookup(ApplyAll(o, s, c).value.root, path) == if Shadowed(s, c, k, path) then None else Some(value)
  {
    var o, s := Overlay(root, map[], []), SortEnvironment(env);
    OverlayKeepsInv(root, env, c);
    var final := ApplyAll(o, s, c).value;
    var n := VariableIsApplied(o, s, c, k);
    var last := FinalValue(root, final, n);
    if last != n {
      var l := LaterVariable(o, s, c, k, last);
      assert false;
    }
    ShadowedIsOverridden(o, s, c, k, n);
    assert final.log[n] == Write(path, canonical, final.log[n].value);
  }

  lemma RelatedTargets(root: Value, env: seq<Variable>, c: Settings, k: nat, l: nat)
    requires GoodCandidates(c.candidates)
    requires var s := SortEnvironment(env);
             && ApplyAll(Overlay(root, map[], []), s, c).Ok?
             && k < l < |s| && TargetAt(s, c, k).At? && TargetAt(s, c, l).At?
             && var p, q := TargetAt(s, c, k).path, TargetAt(s, c, l).path;
                Related(p, q) && p != [] && p[0] != "custom"
    ensures var t, u := TargetAt(SortEnvironment(env), c, k), TargetAt(SortEnvironment(env), c, l);
            t.path == u.path && !t.canonical && u.canonical
  {
    var o, s := Overlay(root, map[], []), SortEnvironment(env);
    OverlayKeepsInv(root, env, c);
    var log := ApplyAll(o, s, c).value.log;
    var i, j := LaterWrite(o, s, c, k, l);
    assert GoodWrite(log[i]) && GoodWrite(log[j]) && MayFollow(log[i], log[j]);
    assert log[j].path[0] == log[i].path[0];
  }

  /**
    Outside `custom`, variables whose targets are related never succeed together, unless a
    canonical variable repeats the path of a legacy one.
    */
  lemma RelatedTargetsFail(root: Value, env: seq<Variable>, c: Settings, k: nat, l: nat)
    requires GoodCandidates(c.candidates)
    requires var s := SortEnvironment(env);
             && k < l < |s| && TargetAt(s, c, k).At? && TargetAt(s, c, l).At?
             && var p, q := TargetAt(s, c, k).path, TargetAt(s, c, l).path;
                && Related(p, q) && p != [] && p[0] != "custom"
                && !(p == q && !TargetAt(s, c, k).canonical && TargetAt(s, c, l).canonical)
    ensures ApplyAll(Overlay(root, map[], []), SortEnvironment(env), c).Err?
  {
    if ApplyAll(Overlay(root, map[], []), SortEnvironment(env), c).Ok? {
      RelatedTargets(root, env, c, k, l);
    }
  }

  ghost predicate SomeCanonicalTargets(env: seq<Variable>, c: Settings, path: Path) {
    exists k :: 0 <= k < |env| && TargetAt(env, c, k) == At(path, true)
  }

  lemma NotShadowedOutsideCustom(root: Value, env: seq<Variable>, c: Settings, k: nat, path: Path)
    requires GoodCandidates(c.candidates)
    requires var s := SortEnvironment(env);
             && ApplyAll(Overlay(root, map[], []), s, c).Ok? && k < |s|
             && TargetAt(s, c, k).At? && TargetAt(s, c, k).path == path && path != [] && path[0] != "custom"
             && (TargetAt(s, c, k).canonical || !SomeCanonicalTargets(s, c, path))
    ensures !Shadowed(SortEnvironment(env), c, k, path) && !Repeated(SortEnvironment(env), c, k, path)
  {
    var s := SortEnvironment(env);
    forall l | k < l < |s| && TargetAt(s, c, l).At? ensures !(TargetAt(s, c, l).path <= path) {
      if TargetAt(s, c, l).path <= path {
        RelatedTargetsFail(root, env, c, k, l);
        assert false;
      }
    }
  }

  /**
    After a successful overlay, outside `custom`: the tree holds, at the path of every canonical
    variable, exactly the value that variable was read as at its turn, and likewise for every
    legacy variable whose path no canonical variable targets.
    */
  lemma EveryVariableCounts(root: Value, env: seq<Variable>, c: Settings, k: nat, path: Path, canonical: bool)
    requires GoodCandidates(c.candidates)
    requires var s := SortEnvironment(env);
             && ApplyAll(Overlay(root, map[], []), s, c).Ok?
             && k < |s| && TargetAt(s, c, k) == At(path, canonical)
             && path != [] && path[0] != "custom"
             && (canonical || !SomeCanonicalTargets(s, c, path))
    ensures var o, s := Overlay(root, map[], []), SortEnvironment(env);
            exists value :: ReadAtItsTurn(o, s, c, k, Write(path, canonical, value))
                         && Lookup(ApplyAll(o, s, c).value.root, path) == Some(value)
  {
    NotShadowedOutsideCustom(root, env, c, k, path);
    VariableSurvives(root, env, c, k, path, canonical);
  }

  /** A path that no variable's target is related to reads as before. */
  lemma RestIsUntouched(root: Value, env: seq<Variable>, c: Settings, q: Path)
    requires GoodCandidates(c.candidates)
    requires var s := SortEnvironment(env);
             && ApplyAll(Overlay(root, map[], []), s, c).Ok?
             && forall k :: 0 <= k < |s| && TargetAt(s, c, k).At? ==> !Related(TargetAt(s, c, k).path, q)
    ensures Lookup(ApplyAll(Overlay(root, map[], []), SortEnvironment(env), c).value.root, q) == Lookup(root, q)
  {
    var o, s := Overlay(root, map[], []), SortEnvironment(env);
    OverlayKeepsInv(root, env, c);
    var log := ApplyAll(o, s, c).value.log;
    forall n | 0 <= n < |log| ensures !Related(log[n].path, q) {
      var k := WriteHasVariable(o, s, c, n);
    }
  }

  // ---------------------------------------------------------------- inside `custom` an override can be lost

  lemma ShorterWriteSucceeds(root: Value, short: Path, long: Path, value: Value)
    requires short != [] && short < long && !HasIndex(long) && Lookup(root, long).Some?
    ensures SetValueAtPath(root, short, value).error.None?
  {
    if SetValueAtPath(root, short, value).error.Some? {
      SetFailsOnlyWhenBlocked(root, short, value);
      var k :| 0 <= k < |short| && BlockedAt(root, short, k);
      assert short[..k] < long;
      BelowNode(root, short[..k], Lookup(root, short[..k]).value, long);
      assert false;
    }
  }

  lemma SortedPair(first: Variable, second: Variable, env: seq<Variable>)
    requires Precedes(first, second) && multiset(env) == multiset{first, second}
    ensures SortEnvironment(env) == [first, second]
  {
    PrecedesIsOrder();
    SortOfTwo(Precedes, first, second, env);
  }

  /** A first write inside `custom` succeeds exactly when its path is not blocked. */
  lemma FirstCustomWrite(root: Value, v: Variable, c: Settings, path: Path, canonical: bool)
    requires InCustom(path) && !HasIndex(path)
    ensures var r := ApplyAt(Overlay(root, map[], []), v, c, path, canonical);
            && (r.Ok? <==> !Blocked(root, path))
            && (r.Ok? ==> Lookup(r.value.root, path) == Some(Str(v.raw)) && r.value.sources.Keys == {Join(path)})
  {
    SetFailsExactlyWhenBlocked(root, path, Str(v.raw));
    if !Blocked(root, path) { SetThenGet(root, path, Str(v.raw)); }
  }

  /** A write above it then succeeds and leaves nothing of it. */
  lemma ShorterCustomWrite(o: Overlay, v: Variable, c: Settings, long: Path, short: Path, canonical: bool)
    requires InCustom(short) && short < long && !HasIndex(short) && !HasIndex(long) && Lookup(o.root, long).Some?
    requires o.sources.Keys == {Join(long)} && forall i :: 0 <= i < |long| ==> DotFree(long[i])
    ensures var r := ApplyAt(o, v, c, short, canonical);
            r.Ok? && Lookup(r.value.root, long).None? && Lookup(r.value.root, short) == Some(Str(v.raw))
  {
    ShorterWriteSucceeds(o.root, short, long, Str(v.raw));
    assert Join(short) != Join(long) by {
      if Join(short) == Join(long) {
        assert forall i :: 0 <= i < |short| ==> short[i] == long[i];
        SameKeySamePath(short, long);
        assert false;
      }
    }
    SetThenGet(o.root, short, Str(v.raw));
    BelowNode(ApplyAt(o, v, c, short, canonical).value.root, short, Str(v.raw), long);
  }

  /**
    Inside `custom` an override can be lost: when the variable that sorts first targets a path
    below the other's, the overlay succeeds unless that path is blocked, and the first value is
    gone. Both variables may be canonical.
    */
  lemma CustomOverrideIsLost(root: Value, env: seq<Variable>, c: Settings, first: Variable, second: Variable)
    requires GoodCandidates(c.candidates) && Precedes(first, second) && multiset(env) == multiset{first, second}
    requires var t := TargetOf(first.name, c.candidates, c.allowLegacy);
             var u := TargetOf(second.name, c.candidates, c.allowLegacy);
             t.At? && u.At? && InCustom(u.path) && u.path < t.path && !HasIndex(t.path)
    ensures var long := TargetOf(first.name, c.candidates, c.allowLegacy).path;
            var short := TargetOf(second.name, c.candidates, c.allowLegacy).path;
            var r := ApplyAll(Overlay(root, map[], []), SortEnvironment(env), c);
            && (r.Ok? <==> !Blocked(root, long))
            && (r.Ok? ==> Lookup(r.value.root, long).None? && Lookup(r.value.root, short) == Some(Str(second.raw)))
  {
    var o := Overlay(root, map[], []);
    var t, u := TargetOf(first.name, c.candidates, c.allowLegacy), TargetOf(second.name, c.candidates, c.allowLegacy);
    SortedPair(first, second, env);
    TargetIsGood(first.name, c.candidates, c.allowLegacy);
    FirstCustomWrite(root, first, c, t.path, t.canonical);
    assert [first, second][1..] == [second];
    if !Blocked(root, t.path) {
      var o' := ApplyAt(o, first, c, t.path, t.canonical).value;
      NoIndexAbove(u.path, t.path);
      ShorterCustomWrite(o', second, c, t.path, u.path, u.canonical);
      PairApplied(o, first, second, c);
    }
  }

  lemma NoIndexAbove(short: Path, long: Path)
    requires short <= long && !HasIndex(long)
    ensures !HasIndex(short)
  {
    forall i | 0 <= i < |short| ensures ParseUsize(short[i]).None? { assert short[i] == long[i]; }
  }

  lemma PairApplied(o: Overlay, first: Variable, second: Variable, c: Settings)
    requires ApplyOne(o, first, c).Ok?
    ensures ApplyAll(o, [first, second], c) == ApplyOne(ApplyOne(o, first, c).value, second, c)
  {
    var o' := ApplyOne(o, first, c).value;
    assert [first, second][1..] == [second] && [second][1..] == [];
    assert ApplyAll(o', [second], c) == ApplyOne(o', second, c);
  }

  /** The names `LILY__CUSTOM__A__B` and `LILY__custom__a`. */
  function LongName(): string { "LILY__" + JoinDouble(["CUSTOM", "A", "B"]) }

  function ShortName(): string { "LILY__" + JoinDouble(["custom", "a"]) }

  lemma NamesSpelledOut()
    ensures LongName() == "LILY__CUSTOM__A__B" && ShortName() == "LILY__custom__a"
  {
    var p, q := ["CUSTOM", "A", "B"], ["custom", "a"];
    assert p[1..] == ["A", "B"] && p[1..][1..] == ["B"] && q[1..] == ["a"];
  }

  lemma SegmentsInLowerCase()
    ensures LowerAll(["CUSTOM", "A", "B"]) == ["custom", "a", "b"] && LowerAll(["custom", "a"]) == ["custom", "a"]
  {
    assert Lower("CUSTOM") == "custom" && Lower("A") == "a" && Lower("B") == "b";
    assert Lower("custom") == "custom" && Lower("a") == "a";
  }

  predicate IsWord(s: string) { IsSegment(s) && '_' !in s }

  lemma LowerSegment(s: string)
    requires IsSegment(s)
    ensures IsSegment(Lower(s))
  {
    forall j | 0 <= j < |s| ensures IsNameChar(Lower(s)[j]) { assert IsNameChar(s[j]); }
  }

  lemma WordsAreSeparable(p: Path)
    requires forall i :: 0 <= i < |p| ==> IsWord(p[i])
    ensures Separable(p)
  {
    forall i | 0 <= i < |p| ensures Undivided(p[i]) && p[i][|p[i]| - 1] != '_' {
      assert IsWord(p[i]);
      forall j | 0 <= j < |p[i]| ensures p[i][j] != '_' { assert p[i][j] in p[i]; }
    }
  }

  lemma CanonicalIsNoBootstrap(name: string)
    requires IsCanonical(name)
    ensures !IsBootstrap(name)
  {
    assert name[..6][5] == '_' && name[5] == name[..6][5];
    assert "LILY_CONFIG_PATH"[5] == 'C' && "LILY_CONFIG_MODE"[5] == 'C';
  }

  /** A name made of plain words targets those words in lower case. */
  lemma WordsTarget(c: Settings, p: Path)
    requires p != [] && forall i :: 0 <= i < |p| ==> IsWord(p[i])
    ensures TargetOf("LILY__" + JoinDouble(p), c.candidates, c.allowLegacy) == At(LowerAll(p), true)
  {
    WordsAreSeparable(p);
    forall i | 0 <= i < |p| ensures IsSegment(Lower(p[i])) {
      assert IsWord(p[i]);
      LowerSegment(p[i]);
    }
    CanonicalNameReaches(p);
    CanonicalIsNoBootstrap("LILY__" + JoinDouble(p));
  }

  lemma NamesTarget(c: Settings)
    ensures TargetOf(LongName(), c.candidates, c.allowLegacy) == At(["custom", "a", "b"], true)
    ensures TargetOf(ShortName(), c.candidates, c.allowLegacy) == At(["custom", "a"], true)
  {
    SegmentsInLowerCase();
    WordsTarget(c, ["CUSTOM", "A", "B"]);
    WordsTarget(c, ["custom", "a"]);
  }

  lemma LongBeforeShort(x: string, y: string)
    ensures Precedes(Variable(LongName(), x), Variable(ShortName(), y))
  {
    StringOrder.LessAfterPrefix("LILY__", JoinDouble(["CUSTOM", "A", "B"]), JoinDouble(["custom", "a"]));
    assert LongName()[..6] == "LILY__" && ShortName()[..6] == "LILY__";
  }

  /**
    For one: over an empty configuration, whatever the settings, the variables
    `LILY__CUSTOM__A__B` and `LILY__custom__a` are both applied and the first is lost.
    */
  lemma CustomLossExample(c: Settings, x: string, y: string)
    requires GoodCandidates(c.candidates)
    ensures LongName() == "LILY__CUSTOM__A__B" && ShortName() == "LILY__custom__a"
    ensures var env := [Variable(ShortName(), y), Variable(LongName(), x)];
            var r := ApplyAll(Overlay(EMPTY_TABLE, map[], []), SortEnvironment(env), c);
            && r.Ok? && Lookup(r.value.root, ["custom", "a", "b"]).None?
            && Lookup(r.value.root, ["custom", "a"]) == Some(Str(y))
  {
    var first, second := Variable(LongName(), x), Variable(ShortName(), y);
    NamesSpelledOut();
    NamesTarget(c);
    LongBeforeShort(x, y);
    LongIsFree();
    CustomOverrideIsLost(EMPTY_TABLE, [second, first], c, first, second);
  }

  lemma LongIsFree()
    ensures ["custom", "a"] < ["custom", "a", "b"] && InCustom(["custom", "a"])
    ensures !HasIndex(["custom", "a", "b"]) && !Blocked(EMPTY_TABLE, ["custom", "a", "b"])
  {
    var long: Path := ["custom", "a", "b"];
    assert !IsDigit("custom"[0]) && !IsDigit("a"[0]) && !IsDigit("b"[0]);
    FreshTableAccepts(long, Str(""));
    SetFailsExactlyWhenBlocked(EMPTY_TABLE, long, Str(""));
  }
}
