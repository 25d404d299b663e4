/** Outside `custom` the environment overlay never removes a setting and never changes its type. */
module OverlayTypes {
  import opened ConfigTree
  import opened EnvironmentOverlay
  import opened OverlayLaws

  ghost predicate TypeKept(before: Value, after: Value, q: Path) {
    match Lookup(before, q)
    case None => true
    case Some(v) => Lookup(after, q).Some? && SameKind(v, Lookup(after, q).value)
  }

  lemma SetKeepsKind(v: Value, path: Path, value: Value)
    requires path != []
    ensures SameKind(v, SetInner(v, path, value).tree)
  {
  }

  /** A path that stops above the written node is related to it as such. */
  lemma {:induction false} RelateAbove(v: Value, p: Path, q: Path, value: Value)
    requires p != [] && q < p && !HasIndex(p) && SetInner(v, p, value).error.None?
    ensures Relate(v, p, q).Above?
    decreases |p|
  {
    TailHasNoIndex(p);
    assert v.Table?;
    if q != [] {
      TailPrefix(q, p);
      RelateAbove(ChildOrEmpty(v, p[0]), p[1..], q[1..], value);
    }
  }

  lemma KeptBelow(root: Value, p: Path, value: Value, q: Path)
    requires p != [] && !HasIndex(p) && !HasIndex(q) && SetInner(root, p, value).error.None? && p <= q
    requires Lookup(root, p).Some? ==> !Lookup(root, p).value.Table? && SameKind(Lookup(root, p).value, value)
    ensures TypeKept(root, SetInner(root, p, value).tree, q)
  {
    if Lookup(root, q).Some? {
      AboveExists(root, p, q);
      if p < q {
        BelowNode(root, p, Lookup(root, p).value, q);
      } else {
        assert p == q;
        RelateNames(root, p, q, value);
        SetLaw(root, p, value, q);
        assert q[|p|..] == [];
      }
    }
  }

  lemma KeptAbove(root: Value, p: Path, value: Value, q: Path)
    requires p != [] && !HasIndex(p) && SetInner(root, p, value).error.None? && q < p
    ensures TypeKept(root, SetInner(root, p, value).tree, q)
  {
    if Lookup(root, q).Some? {
      RelateAbove(root, p, q, value);
      SetLaw(root, p, value, q);
      SetKeepsKind(Lookup(root, q).value, Relate(root, p, q).missing, value);
    }
  }

  lemma WriteKeepsType(root: Value, p: Path, value: Value, q: Path)
    requires p != [] && !HasIndex(p) && !HasIndex(q) && SetInner(root, p, value).error.None?
    requires p <= q && Lookup(root, p).Some? ==> !Lookup(root, p).value.Table? && SameKind(Lookup(root, p).value, value)
    ensures TypeKept(root, SetInner(root, p, value).tree, q)
  {
    if p <= q {
      KeptBelow(root, p, value, q);
    } else if q <= p {
      KeptAbove(root, p, value, q);
    } else {
      RelateNames(root, p, q, value);
      SetLaw(root, p, value, q);
    }
  }

  lemma KindsChain(a: Value, b: Value, c: Value, q: Path)
    requires TypeKept(a, b, q) && TypeKept(b, c, q)
    ensures TypeKept(a, c, q)
  {
  }

  lemma StepKeepsType(o: Overlay, v: Variable, c: Settings, path: Path, canonical: bool, q: Path)
    requires path != [] && ApplyAt(o, v, c, path, canonical).Ok? && !HasIndex(q) && !InCustom(q)
    ensures TypeKept(o.root, ApplyAt(o, v, c, path, canonical).value.root, q)
  {
    var value := ParseEnvironmentValue(c.parsers, v.raw, Lookup(o.root, path), path).value;
    if path <= q {
      assert path[0] == q[0];
    }
    WriteKeepsType(o.root, path, value, q);
  }

  /**
    After a successful overlay every setting outside `custom` that could be reached by names is
    still there, with the type it had.
    */
  lemma {:induction false} OverlayKeepsTypes(o: Overlay, env: seq<Variable>, c: Settings, q: Path)
    requires ApplyAll(o, env, c).Ok? && !HasIndex(q) && !InCustom(q)
    ensures TypeKept(o.root, ApplyAll(o, env, c).value.root, q)
    decreases |env|
  {
    if env != [] {
      var o' := ApplyOne(o, env[0], c).value;
      var t := TargetOf(env[0].name, c.candidates, c.allowLegacy);
      if t.At? { StepKeepsType(o, env[0], c, t.path, t.canonical, q); }
      OverlayKeepsTypes(o', env[1..], c, q);
      KindsChain(o.root, o'.root, ApplyAll(o, env, c).value.root, q);
    }
  }
}
