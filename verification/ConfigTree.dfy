/** The configuration tree: reading and writing the node at a path of segments. */
module ConfigTree {
  import opened Wrappers
  import opened Text

  /** A TOML value; floats and datetimes are kept as written. */
  datatype Value =
    | Str(text: string)
    | Integer(number: int)
    | Float(literal: string)
    | Boolean(flag: bool)
    | Datetime(stamp: string)
    | Array(values: seq<Value>)
    | Table(entries: map<string, Value>)

  type Path = seq<string>

  predicate SameKind(a: Value, b: Value) {
    match a
    case Str(_) => b.Str?
    case Integer(_) => b.Integer?
    case Float(_) => b.Float?
    case Boolean(_) => b.Boolean?
    case Datetime(_) => b.Datetime?
    case Array(_) => b.Array?
    case Table(_) => b.Table?
  }

  datatype SetError = EmptyPath | InvalidIndex(segment: string) | IndexOutOfBounds(index: nat) | CrossesScalar

  // ---------------------------------------------------------------- reading

  function Child(v: Value, segment: string): (r: Option<Value>)
    ensures r.Some? ==> r.value < v
  {
    match v
    case Table(t) => if segment in t then Some(t[segment]) else None
    case Array(a) =>
      (match ParseUsize(segment)
       case Some(i) => if i < |a| then Some(a[i]) else None
       case None => None)
    case _ => None
  }

  function Lookup(v: Value, path: Path): Option<Value>
    decreases |path|
  {
    if path == [] then Some(v) else
      match Child(v, path[0])
      case Some(c) => Lookup(c, path[1..])
      case None => None
  }

  lemma {:induction false} LookupConcat(v: Value, p: Path, q: Path)
    ensures Lookup(v, p + q) == match Lookup(v, p) case Some(c) => Lookup(c, q) case None => None
    decreases |p|
  {
    if p == [] {
      assert p + q == q;
    } else {
      assert (p + q)[0] == p[0] && (p + q)[1..] == p[1..] + q;
      match Child(v, p[0]) {
        case Some(c) => LookupConcat(c, p[1..], q);
        case None =>
      }
    }
  }

  method ValueAtPath(root: Value, path: Path) returns (r: Option<Value>)
    ensures r == Lookup(root, path)
  {
    var current := root;
    for k := 0 to |path|
      invariant Lookup(root, path) == Lookup(current, path[k..])
    {
      assert path[k..][1..] == path[k + 1..];
      match Child(current, path[k])
      case Some(c) => current := c;
      case None => return None;
    }
    r := Some(current);
  }

  // ---------------------------------------------------------------- writing

  /** The tree after the attempt, and whether it succeeded. */
  datatype SetResult = SetResult(tree: Value, error: Option<SetError>)

  const EMPTY_TABLE := Table(map[])

  /** Whether a path can step from this node on `segment`; tables grow, arrays do not. */
  predicate CanStep(v: Value, segment: string) {
    v.Table? || (v.Array? && ParseUsize(segment).Some? && ParseUsize(segment).value < |v.values|)
  }

  function StepError(v: Value, segment: string): SetError {
    if !v.Array? then CrossesScalar
    else match ParseUsize(segment) case None => InvalidIndex(segment) case Some(i) => IndexOutOfBounds(i)
  }

  /** The node under `segment`; in a table a missing one is created as an empty table. */
  function ChildOrEmpty(v: Value, segment: string): Value {
    match Child(v, segment) case Some(c) => c case None => EMPTY_TABLE
  }

  function WithChild(v: Value, segment: string, c: Value): Value
    requires CanStep(v, segment)
  {
    if v.Table? then Table(v.entries[segment := c]) else Array(v.values[ParseUsize(segment).value := c])
  }

  /**
    Walks to the parent of the target and replaces one entry there. The recursion works on the
    node in place, so a table created on the way stays even if a deeper step fails.
    */
  function SetInner(current: Value, path: Path, value: Value): SetResult
    requires path != []
    decreases |path|
  {
    if !CanStep(current, path[0]) then SetResult(current, Some(StepError(current, path[0])))
    else if |path| == 1 then SetResult(WithChild(current, path[0], value), None)
    else
      var below := SetInner(ChildOrEmpty(current, path[0]), path[1..], value);
      SetResult(WithChild(current, path[0], below.tree), below.error)
  }

  function SetValueAtPath(root: Value, path: Path, value: Value): SetResult {
    if path == [] then SetResult(root, Some(EmptyPath)) else SetInner(root, path, value)
  }

  // ---------------------------------------------------------------- laws of writing

  lemma {:induction false} FreshTableAccepts(path: Path, value: Value)
    requires path != []
    ensures SetInner(EMPTY_TABLE, path, value).error.None?
    decreases |path|
  {
    if |path| > 1 { FreshTableAccepts(path[1..], value); }
  }

  lemma WithSameChild(v: Value, segment: string)
    requires CanStep(v, segment) && Child(v, segment).Some?
    ensures WithChild(v, segment, Child(v, segment).value) == v
  {
  }

  /** A failing write leaves the whole tree as it was. */
  lemma {:induction false} FailedSetChangesNothing(root: Value, path: Path, value: Value)
    ensures SetValueAtPath(root, path, value).error.Some? ==> SetValueAtPath(root, path, value).tree == root
    decreases |path|
  {
    if path != [] && CanStep(root, path[0]) && |path| > 1 {
      if Child(root, path[0]).Some? {
        FailedSetChangesNothing(Child(root, path[0]).value, path[1..], value);
        WithSameChild(root, path[0]);
      } else {
        FreshTableAccepts(path[1..], value);
      }
    }
  }

  /** Some proper prefix of the path ends at a node that the next segment cannot step from. */
  ghost predicate Blocked(root: Value, path: Path) {
    path == [] || exists k :: 0 <= k < |path| && BlockedAt(root, path, k)
  }

  ghost predicate BlockedAt(root: Value, path: Path, k: nat)
    requires k < |path|
  {
    Lookup(root, path[..k]).Some? && !CanStep(Lookup(root, path[..k]).value, path[k])
  }

  lemma {:induction false} SetFailsWhenBlocked(root: Value, path: Path, value: Value)
    requires Blocked(root, path)
    ensures SetValueAtPath(root, path, value).error.Some?
    decreases |path|
  {
    if path != [] && CanStep(root, path[0]) {
      var k :| 0 <= k < |path| && BlockedAt(root, path, k);
      assert k > 0;
      assert path[..k][1..] == path[1..][..k - 1];
      var c := Child(root, path[0]).value;
      assert BlockedAt(c, path[1..], k - 1);
      SetFailsWhenBlocked(c, path[1..], value);
    }
  }

  lemma {:induction false} SetFailsOnlyWhenBlocked(root: Value, path: Path, value: Value)
    requires SetValueAtPath(root, path, value).error.Some?
    ensures Blocked(root, path)
    decreases |path|
  {
    if path != [] {
      if !CanStep(root, path[0]) {
        assert BlockedAt(root, path, 0);
      } else if Child(root, path[0]).None? {
        FreshTableAccepts(path[1..], value);
      } else {
        var c := Child(root, path[0]).value;
        SetFailsOnlyWhenBlocked(c, path[1..], value);
        var k :| 0 <= k < |path[1..]| && BlockedAt(c, path[1..], k);
        assert path[..k + 1][1..] == path[1..][..k];
        assert BlockedAt(root, path, k + 1);
      }
    }
  }

  /** Writing fails exactly when the path is empty or runs into a scalar or a bad array index. */
  lemma SetFailsExactlyWhenBlocked(root: Value, path: Path, value: Value)
    ensures SetValueAtPath(root, path, value).error.Some? <==> Blocked(root, path)
  {
    if Blocked(root, path) { SetFailsWhenBlocked(root, path, value); }
    if SetValueAtPath(root, path, value).error.Some? { SetFailsOnlyWhenBlocked(root, path, value); }
  }

  /** What is wrong at a node that cannot be stepped from: no container, no index, or an index beyond the end. */
  ghost predicate IsStepError(v: Value, segment: string, e: SetError) {
    match e
    case EmptyPath => false
    case CrossesScalar => !v.Table? && !v.Array?
    case InvalidIndex(s) => v.Array? && ParseUsize(segment).None? && s == segment
    case IndexOutOfBounds(i) => v.Array? && ParseUsize(segment) == Some(i) && i >= |v.values|
  }

  ghost predicate FailsAt(root: Value, path: Path, k: nat, e: SetError) {
    k < |path| && Lookup(root, path[..k]).Some? && IsStepError(Lookup(root, path[..k]).value, path[k], e)
  }

  /** The error of a failing write is that of the node at which the path cannot go on. */
  lemma {:induction false} SetErrorExactly(root: Value, path: Path, value: Value)
    requires SetValueAtPath(root, path, value).error.Some?
    ensures var e := SetValueAtPath(root, path, value).error.value;
            if path == [] then e == EmptyPath else exists k: nat :: FailsAt(root, path, k, e)
    decreases |path|
  {
    if path != [] {
      var e := SetValueAtPath(root, path, value).error.value;
      if !CanStep(root, path[0]) {
        assert path[..0] == [] && FailsAt(root, path, 0, e);
      } else if Child(root, path[0]).None? {
        FreshTableAccepts(path[1..], value);
      } else {
        var c := Child(root, path[0]).value;
        SetErrorExactly(c, path[1..], value);
        var k: nat :| FailsAt(c, path[1..], k, e);
        assert path[..k + 1][1..] == path[1..][..k];
        assert FailsAt(root, path, k + 1, e);
      }
    }
  }

  // ---------------------------------------------------------------- which nodes a write touches

  /** Two segments lead to the same child: equal keys, or spellings of one array index. */
  predicate SameStep(v: Value, a: string, b: string) {
    if v.Array? then ParseUsize(a).Some? && ParseUsize(a) == ParseUsize(b) else a == b
  }

  datatype Relation = Apart | Within(rest: Path) | Above(missing: Path)

  /** Where the walk along `q` is when it is compared with the node written at `p`. */
  function Relate(v: Value, p: Path, q: Path): Relation
    decreases |p|
  {
    if p == [] then Within(q)
    else if q == [] then Above(p)
    else if !SameStep(v, p[0], q[0]) then Apart
    else Relate(ChildOrEmpty(v, p[0]), p[1..], q[1..])
  }

  lemma ChildAfterStep(v: Value, a: string, b: string, c: Value)
    requires CanStep(v, a)
    ensures SameStep(v, a, b) ==> Child(WithChild(v, a, c), b) == Some(c)
    ensures !SameStep(v, a, b) ==> Child(WithChild(v, a, c), b) == Child(v, b)
  {
  }

  /**
    What a successful write does to every path: paths through the written node read the new
    value, paths that part from it read what they read before (also if that was nothing), and
    paths that stop above it read the rewritten container.
    */
  lemma {:induction false} SetLaw(root: Value, p: Path, value: Value, q: Path)
    requires p != [] && SetInner(root, p, value).error.None?
    ensures var after := SetInner(root, p, value).tree;
            match Relate(root, p, q)
            case Apart => Lookup(after, q) == Lookup(root, q)
            case Within(rest) => Lookup(after, q) == Lookup(value, rest)
            case Above(missing) =>
              missing != [] && Lookup(after, q) ==
                Some(SetInner(match Lookup(root, q) case Some(c) => c case None => EMPTY_TABLE, missing, value).tree)
    decreases |p|
  {
    if q != [] {
      var c := ChildOrEmpty(root, p[0]);
      if |p| == 1 {
        assert p[1..] == [];
        assert SetInner(root, p, value).tree == WithChild(root, p[0], value);
        assert Relate(c, p[1..], q[1..]) == Within(q[1..]);
        ChildAfterStep(root, p[0], q[0], value);
      } else {
        ChildAfterStep(root, p[0], q[0], SetInner(c, p[1..], value).tree);
        if SameStep(root, p[0], q[0]) {
          SetLaw(c, p[1..], value, q[1..]);
          if Child(root, p[0]).None? { EmptyHasNothing(q[1..]); }
        }
      }
    }
  }

  lemma EmptyHasNothing(q: Path)
    ensures q != [] ==> Lookup(EMPTY_TABLE, q).None?
  {
  }

  /** Reading back a written path gives the written value. */
  lemma SetThenGet(root: Value, path: Path, value: Value)
    requires SetValueAtPath(root, path, value).error.None?
    ensures Lookup(SetValueAtPath(root, path, value).tree, path) == Some(value)
  {
    SetLaw(root, path, value, path);
    RelateSelf(root, path, value);
  }

  lemma {:induction false} RelateSelf(v: Value, p: Path, value: Value)
    requires p != [] && SetInner(v, p, value).error.None?
    ensures Relate(v, p, p) == Within([])
    decreases |p|
  {
    if |p| > 1 { RelateSelf(ChildOrEmpty(v, p[0]), p[1..], value); }
  }
}
