/**
  Environment variables laid over the configuration tree: legacy `LILY_*` names first, canonical
  `LILY__SECTION__FIELD` names after them, each variable writing one path.
  */
module EnvironmentOverlay {
  import opened Wrappers
  import opened Sequences
  import opened Text
  import opened ConfigTree
  import opened ConfigFlatten
  import StringOrder
  import StringSorting

  datatype Variable = Variable(name: string, raw: string)

  datatype OverlayError =
    | InvalidCanonicalKey(name: string)
    | LegacyDisabled(name: string)
    | AmbiguousLegacyMapping(environmentKey: string)
    | ArrayIndexOverride(name: string)
    | WrongType(path: Path)
    | ReplacesTable(path: Path)
    | MultipleTargets(key: string, previous: string, name: string)
    | WriteFailed(error: SetError)

  /** Parsers of the standard and TOML libraries. */
  datatype Parsers = Parsers(
    integer: string -> Option<int>,
    float: string -> Option<string>,
    boolean: string -> Option<bool>,
    datetime: string -> Option<string>,
    literal: string -> Option<Value>)

  // ---------------------------------------------------------------- names and targets

  predicate IsCanonical(name: string) { StartsWith(name, "LILY__") }

  predicate IsBootstrap(name: string) { name == "LILY_CONFIG_PATH" || name == "LILY_CONFIG_MODE" }

  function LowerChar(c: char): char { if 'A' <= c <= 'Z' then c - 'A' + 'a' else c }

  function Lower(s: string): string { seq(|s|, i requires 0 <= i < |s| => LowerChar(s[i])) }

  function SplitDoubleUnderscore(s: string): (p: Path)
    ensures p != []
  {
    if s == [] then [[]]
    else if StartsWith(s, "__") then [[]] + SplitDoubleUnderscore(s[2..])
    else
      var rest := SplitDoubleUnderscore(s[1..]);
      [[s[0]] + rest[0]] + rest[1..]
  }

  predicate IsNameChar(c: char) { 'a' <= c <= 'z' || 'A' <= c <= 'Z' || '0' <= c <= '9' || c == '_' }

  predicate IsSegment(s: string) { s != [] && forall i :: 0 <= i < |s| ==> IsNameChar(s[i]) }

  /** The path of a canonical name, if every segment is well formed. */
  function CanonicalPath(name: string): Option<Path>
    requires IsCanonical(name)
  {
    var parts := SplitDoubleUnderscore(name[6..]);
    var path := LowerAll(parts);
    if forall i :: 0 <= i < |path| ==> IsSegment(path[i]) then Some(path) else None
  }

  // ---------------------------------------------------------------- canonical names

  function JoinDouble(p: Path): string
    requires p != []
  {
    if |p| == 1 then p[0] else p[0] + "__" + JoinDouble(p[1..])
  }

  /** Splitting loses nothing: joining the segments gives the text back. */
  lemma {:induction false} JoinAfterSplit(s: string)
    ensures JoinDouble(SplitDoubleUnderscore(s)) == s
  {
    if s == [] {
    } else if StartsWith(s, "__") {
      JoinAfterSplit(s[2..]);
      var rest := SplitDoubleUnderscore(s[2..]);
      assert ([[]] + rest)[1..] == rest;
      assert s == [] + "__" + s[2..];
    } else {
      JoinAfterSplit(s[1..]);
      JoinWithFirst(s[0], SplitDoubleUnderscore(s[1..]));
      assert s == [s[0]] + s[1..];
    }
  }

  lemma JoinWithFirst(c: char, p: Path)
    requires p != []
    ensures JoinDouble([[c] + p[0]] + p[1..]) == [c] + JoinDouble(p)
  {
  }

  /** A segment without a double underscore. */
  predicate Undivided(s: string) {
    forall i :: 0 <= i < |s| - 1 ==> !(s[i] == '_' && s[i + 1] == '_')
  }

  /** Segments that can be told apart once joined: only the last may end in an underscore. */
  predicate Separable(p: Path) {
    && (forall i :: 0 <= i < |p| ==> Undivided(p[i]))
    && (forall i :: 0 <= i < |p| - 1 && p[i] != [] ==> p[i][|p[i]| - 1] != '_')
  }

  lemma TwoUnderscores(s: string)
    ensures StartsWith(s, "__") <==> |s| >= 2 && s[0] == '_' && s[1] == '_'
  {
  }

  lemma {:induction false} SplitUndivided(s: string)
    requires Undivided(s)
    ensures SplitDoubleUnderscore(s) == [s]
  {
    if s != [] {
      TwoUnderscores(s);
      SplitUndivided(s[1..]);
      assert [s[0]] + s[1..] == s;
    }
  }

  lemma {:induction false} SplitFirstSegment(s: string, rest: string)
    requires Undivided(s) && (s == [] || s[|s| - 1] != '_')
    ensures SplitDoubleUnderscore(s + "__" + rest) == [s] + SplitDoubleUnderscore(rest)
  {
    var t := s + "__" + rest;
    if s == [] {
      assert t[..2] == "__" && t[2..] == rest;
    } else {
      TwoUnderscores(t);
      assert t[0] == s[0] && (|s| > 1 ==> t[1] == s[1]);
      SplitFirstSegment(s[1..], rest);
      assert t[1..] == s[1..] + "__" + rest;
      assert [s[0]] + s[1..] == s;
    }
  }

  /** Splitting undoes joining for separable segments. */
  lemma {:induction false} SplitAfterJoin(p: Path)
    requires p != [] && Separable(p)
    ensures SplitDoubleUnderscore(JoinDouble(p)) == p
    decreases |p|
  {
    if |p| == 1 {
      SplitUndivided(p[0]);
    } else {
      SplitFirstSegment(p[0], JoinDouble(p[1..]));
      SplitAfterJoin(p[1..]);
    }
  }

  function LowerAll(p: Path): Path { seq(|p|, i requires 0 <= i < |p| => Lower(p[i])) }

  /** Every path of separable segments has a canonical name, in any letter case, that leads to it. */
  lemma CanonicalNameReaches(p: Path)
    requires p != [] && Separable(p) && forall i :: 0 <= i < |p| ==> IsSegment(Lower(p[i]))
    ensures var name := "LILY__" + JoinDouble(p);
            IsCanonical(name) && CanonicalPath(name) == Some(LowerAll(p))
  {
    var name := "LILY__" + JoinDouble(p);
    assert name[..6] == "LILY__" && name[6..] == JoinDouble(p);
    SplitAfterJoin(p);
  }

  /** The first segment starts as the text does, and is empty only before a double underscore. */
  lemma SplitStart(s: string)
    ensures var first := SplitDoubleUnderscore(s)[0];
            if first == [] then s == [] || StartsWith(s, "__") else s != [] && first[0] == s[0]
  {
  }

  lemma {:induction false} SplitIsSeparable(s: string)
    ensures Separable(SplitDoubleUnderscore(s))
  {
    if s == [] {
    } else if StartsWith(s, "__") {
      SplitIsSeparable(s[2..]);
      EmptyFirstSeparable(SplitDoubleUnderscore(s[2..]));
    } else {
      SplitIsSeparable(s[1..]);
      SplitStart(s[1..]);
      TwoUnderscores(s);
      TwoUnderscores(s[1..]);
      if s[1..] == [] { assert SplitDoubleUnderscore(s[1..]) == [[]]; }
      PrependSeparable(s[0], SplitDoubleUnderscore(s[1..]));
    }
  }

  lemma EmptyFirstSeparable(p: Path)
    requires Separable(p)
    ensures Separable([[]] + p)
  {
  }

  lemma PrependSeparable(c: char, p: Path)
    requires p != [] && Separable(p) && (c == '_' ==> (p[0] == [] ==> |p| == 1) && (p[0] != [] ==> p[0][0] != '_'))
    ensures Separable([[c] + p[0]] + p[1..])
  {
    var first := [c] + p[0];
    assert Undivided(first) by {
      forall i | 0 <= i < |first| - 1 ensures !(first[i] == '_' && first[i + 1] == '_') {
        if i > 0 { assert !(p[0][i - 1] == '_' && p[0][i] == '_'); }
      }
    }
  }

  lemma LowerKeepsSeparable(p: Path)
    requires Separable(p)
    ensures Separable(LowerAll(p))
  {
    forall i | 0 <= i < |p| ensures Undivided(Lower(p[i])) {
      assert Undivided(p[i]);
    }
  }

  ghost predicate SomeCanonicalName(p: Path) {
    exists name :: IsCanonical(name) && CanonicalPath(name) == Some(p)
  }

  /** The paths that canonical names can target: lower-case letters, digits and underscores that stay apart. */
  ghost predicate IsCanonicalTarget(p: Path) {
    p != [] && Separable(p) && forall i :: 0 <= i < |p| ==> p[i] != [] && IsLowerCase(p[i])
  }

  predicate IsLowerCase(s: string) {
    forall j :: 0 <= j < |s| ==> 'a' <= s[j] <= 'z' || '0' <= s[j] <= '9' || s[j] == '_'
  }

  lemma LowerCaseSegments(s: string)
    ensures IsSegment(Lower(s)) <==> s != [] && IsLowerCase(Lower(s))
    ensures IsLowerCase(s) ==> Lower(s) == s
  {
    if IsSegment(Lower(s)) {
      forall j | 0 <= j < |s| ensures 'a' <= Lower(s)[j] <= 'z' || '0' <= Lower(s)[j] <= '9' || Lower(s)[j] == '_' {
        assert IsNameChar(Lower(s)[j]);
      }
    }
    if IsLowerCase(Lower(s)) {
      forall j | 0 <= j < |s| ensures IsNameChar(Lower(s)[j]) { }
    }
  }

  lemma TargetOfCanonicalName(name: string)
    requires IsCanonical(name) && CanonicalPath(name).Some?
    ensures IsCanonicalTarget(CanonicalPath(name).value)
  {
    var parts := SplitDoubleUnderscore(name[6..]);
    SplitIsSeparable(name[6..]);
    LowerKeepsSeparable(parts);
    forall i | 0 <= i < |parts| ensures Lower(parts[i]) != [] && IsLowerCase(Lower(parts[i])) {
      assert IsSegment(LowerAll(parts)[i]);
      LowerCaseSegments(parts[i]);
    }
  }

  lemma TargetIsLowerCase(p: Path)
    requires IsCanonicalTarget(p)
    ensures LowerAll(p) == p && forall i :: 0 <= i < |p| ==> IsSegment(Lower(p[i]))
  {
    forall i | 0 <= i < |p| ensures Lower(p[i]) == p[i] && IsSegment(Lower(p[i])) {
      LowerCaseSegments(p[i]);
    }
  }

  /**
    Some canonical name targets a path exactly when the path is made of lower-case segments that
    stay apart when joined.
    */
  lemma CanonicalTargetsExactly(p: Path)
    ensures SomeCanonicalName(p) <==> IsCanonicalTarget(p)
  {
    if SomeCanonicalName(p) {
      var name :| IsCanonical(name) && CanonicalPath(name) == Some(p);
      TargetOfCanonicalName(name);
    }
    if IsCanonicalTarget(p) {
      TargetIsLowerCase(p);
      CanonicalNameReaches(p);
    }
  }

  /** Names with the same path agree up to letter case. */
  lemma CanonicalNamesAgree(a: string, b: string)
    requires IsCanonical(a) && IsCanonical(b) && CanonicalPath(a).Some? && CanonicalPath(a) == CanonicalPath(b)
    ensures Lower(a) == Lower(b)
  {
    var p, q := SplitDoubleUnderscore(a[6..]), SplitDoubleUnderscore(b[6..]);
    assert LowerAll(p) == LowerAll(q);
    JoinAfterSplit(a[6..]);
    JoinAfterSplit(b[6..]);
    LowerOfJoin(p);
    LowerOfJoin(q);
    assert a == "LILY__" + a[6..] && b == "LILY__" + b[6..];
    LowerConcat("LILY__", a[6..]);
    LowerConcat("LILY__", b[6..]);
  }

  lemma LowerConcat(s: string, t: string)
    ensures Lower(s + t) == Lower(s) + Lower(t)
  {
  }

  lemma {:induction false} LowerOfJoin(p: Path)
    requires p != []
    ensures LowerAll(p) != [] && Lower(JoinDouble(p)) == JoinDouble(LowerAll(p))
    decreases |p|
  {
    if |p| > 1 {
      LowerOfJoin(p[1..]);
      LowerConcat(p[0] + "__", JoinDouble(p[1..]));
      LowerConcat(p[0], "__");
      assert Lower("__") == "__";
      assert LowerAll(p)[1..] == LowerAll(p[1..]);
    }
  }

  lemma LowerKeepsUnderscores(s: string)
    ensures StartsWith(Lower(s), "__") <==> StartsWith(s, "__")
  {
    TwoUnderscores(s);
    TwoUnderscores(Lower(s));
  }

  lemma LowerWithFirst(c: char, p: Path)
    requires p != []
    ensures LowerAll([[c] + p[0]] + p[1..]) == [[LowerChar(c)] + LowerAll(p)[0]] + LowerAll(p)[1..]
  {
    LowerConcat([c], p[0]);
    assert Lower([c]) == [LowerChar(c)];
  }

  /** Letter case does not matter to splitting. */
  lemma {:induction false} LowerOfSplit(s: string)
    ensures SplitDoubleUnderscore(Lower(s)) == LowerAll(SplitDoubleUnderscore(s))
  {
    if s != [] {
      LowerKeepsUnderscores(s);
      if StartsWith(s, "__") {
        assert Lower(s)[2..] == Lower(s[2..]);
        LowerOfSplit(s[2..]);
      } else {
        assert Lower(s)[1..] == Lower(s[1..]);
        LowerOfSplit(s[1..]);
        LowerWithFirst(s[0], SplitDoubleUnderscore(s[1..]));
      }
    }
  }

  /** The path of a canonical name: the one whose segments, joined, spell the name in lower case. */
  lemma CanonicalPathExactly(name: string, p: Path)
    requires IsCanonical(name)
    ensures CanonicalPath(name) == Some(p) <==> IsCanonicalTarget(p) && Lower(name[6..]) == JoinDouble(p)
  {
    var parts := SplitDoubleUnderscore(name[6..]);
    if CanonicalPath(name) == Some(p) {
      TargetOfCanonicalName(name);
      JoinAfterSplit(name[6..]);
      LowerOfJoin(parts);
    }
    if IsCanonicalTarget(p) && Lower(name[6..]) == JoinDouble(p) {
      LowerOfSplit(name[6..]);
      SplitAfterJoin(p);
      TargetIsLowerCase(p);
    }
  }

  // ---------------------------------------------------------------- targets

  function LegacyKey(key: string): string {
    Lower(seq(|key|, i requires 0 <= i < |key| => if key[i] == '.' then '_' else key[i]))
  }

  /** Where a variable writes. */
  datatype Target = Ignored | Refused(error: OverlayError) | At(path: Path, canonical: bool)

  function TargetOf(name: string, candidates: map<string, Path>, allowLegacy: bool): Target {
    if IsBootstrap(name) then Ignored
    else if IsCanonical(name) then
      match CanonicalPath(name) case Some(path) => At(path, true) case None => Refused(InvalidCanonicalKey(name))
    else if StartsWith(name, "LILY_") then
      var normalized := Lower(name[5..]);
      if normalized !in candidates then Ignored
      else if !allowLegacy then Refused(LegacyDisabled(name))
      else At(candidates[normalized], false)
    else Ignored
  }

  function UpperChar(c: char): char { if 'a' <= c <= 'z' then c - 'a' + 'A' else c }

  /** The legacy name of a setting: its dotted key in capitals with underscores. */
  function LegacyName(key: string): string {
    "LILY_" + seq(|key|, i requires 0 <= i < |key| => if key[i] == '.' then '_' else UpperChar(key[i]))
  }

  /** A name that is neither canonical nor reserved for bootstrapping. */
  ghost predicate IsLegacyOnly(name: string) { !IsCanonical(name) && !IsBootstrap(name) }

  /**
    The legacy name of a mapped key targets the path its key is split into, and is refused where
    legacy names are disabled, exactly when it is not also a canonical or a bootstrap name.
    */
  lemma LegacyNameReaches(keys: set<string>, candidates: map<string, Path>, key: string)
    requires MapsKeys(keys, candidates) && key in keys
    ensures TargetOf(LegacyName(key), candidates, true) == At(Split(key), false) <==> IsLegacyOnly(LegacyName(key))
    ensures TargetOf(LegacyName(key), candidates, false) == Refused(LegacyDisabled(LegacyName(key))) <==>
            IsLegacyOnly(LegacyName(key))
  {
    LegacyNameStandsFor(key);
  }

  /** A legacy name is canonical exactly when the key starts with an underscore or a dot. */
  lemma CanonicalByAccident(key: string)
    ensures IsCanonical(LegacyName(key)) <==> key != [] && (key[0] == '_' || key[0] == '.')
  {
    var name := LegacyName(key);
    if key != [] {
      assert name[..6] == "LILY_" + [name[5]];
      assert name[5] == if key[0] == '.' then '_' else UpperChar(key[0]);
      assert "LILY__" == "LILY_" + ['_'];
    }
  }

  lemma LegacyNameStandsFor(key: string)
    ensures StartsWith(LegacyName(key), "LILY_") && Lower(LegacyName(key)[5..]) == LegacyKey(key)
  {
    var name := LegacyName(key);
    assert name[..5] == "LILY_" && |name| == |key| + 5;
    forall i | 0 <= i < |key| ensures Lower(name[5..])[i] == LegacyKey(key)[i] {
      assert name[5..][i] == if key[i] == '.' then '_' else UpperChar(key[i]);
    }
  }

  /** A name targets a path as a legacy name exactly when it stands for a mapped key that is split into the path. */
  lemma LegacyTargetIsMapped(keys: set<string>, candidates: map<string, Path>, name: string, path: Path)
    requires MapsKeys(keys, candidates)
    ensures TargetOf(name, candidates, true) == At(path, false) <==>
            IsLegacyOnly(name) && StartsWith(name, "LILY_") && StandsFor(keys, name[5..], path)
  {
  }

  ghost predicate StandsFor(keys: set<string>, suffix: string, path: Path) {
    exists key :: key in keys && path == Split(key) && Lower(suffix) == LegacyKey(key)
  }

  predicate HasIndex(path: Path) {
    exists i :: 0 <= i < |path| && ParseUsize(path[i]).Some?
  }

  // ---------------------------------------------------------------- typed values

  function Typed<T>(parsed: Option<T>, wrap: T -> Value, path: Path): Result<Value, OverlayError> {
    match parsed case Some(x) => Ok(wrap(x)) case None => Err(WrongType(path))
  }

  predicate InCustom(path: Path) { path != [] && path[0] == "custom" }

  /** The raw text read as the type already present, so a table is never replaced outside `custom`. */
  function ParseEnvironmentValue(ps: Parsers, raw: string, existing: Option<Value>, path: Path)
    : (r: Result<Value, OverlayError>)
    ensures r.Ok? ==> !r.value.Table?
    ensures r.Ok? && existing.Some? && !InCustom(path) ==> SameKind(existing.value, r.value)
  {
    if InCustom(path) then Ok(Str(raw))
    else match existing
      case None =>
        (match ps.literal(raw)
         case Some(v) => if v.Table? then Ok(Str(raw)) else Ok(v)
         case None => Ok(Str(raw)))
      case Some(Str(_)) => Ok(Str(raw))
      case Some(Integer(_)) => Typed(ps.integer(raw), x => Integer(x), path)
      case Some(Float(_)) => Typed(ps.float(raw), x => Float(x), path)
      case Some(Boolean(_)) => Typed(ps.boolean(raw), x => Boolean(x), path)
      case Some(Datetime(_)) => Typed(ps.datetime(raw), x => Datetime(x), path)
      case Some(Array(_)) =>
        (match ps.literal(raw)
         case Some(v) => if v.Array? then Ok(v) else Err(WrongType(path))
         case None => Err(WrongType(path)))
      case Some(Table(_)) => Err(ReplacesTable(path))
  }

  // ---------------------------------------------------------------- one variable after another

  /** One override that was applied. */
  datatype Write = Write(path: Path, canonical: bool, value: Value)

  datatype Overlay = Overlay(root: Value, sources: map<string, (bool, string)>, log: seq<Write>)

  datatype Settings = Settings(candidates: map<string, Path>, allowLegacy: bool, parsers: Parsers)

  function ApplyOne(o: Overlay, v: Variable, c: Settings): Result<Overlay, OverlayError> {
    match TargetOf(v.name, c.candidates, c.allowLegacy)
    case Ignored => Ok(o)
    case Refused(e) => Err(e)
    case At(path, canonical) => if path == [] then Err(WriteFailed(EmptyPath)) else ApplyAt(o, v, c, path, canonical)
  }

  function ApplyAt(o: Overlay, v: Variable, c: Settings, path: Path, canonical: bool): Result<Overlay, OverlayError>
    requires path != []
  {
    if HasIndex(path) then Err(ArrayIndexOverride(v.name)) else
      match ParseEnvironmentValue(c.parsers, v.raw, Lookup(o.root, path), path)
      case Err(e) => Err(e)
      case Ok(value) =>
        var key := Join(path);
        if key in o.sources && o.sources[key].0 == canonical then
          Err(MultipleTargets(key, o.sources[key].1, v.name)) else
          var written := SetValueAtPath(o.root, path, value);
          match written.error
          case Some(e) => Err(WriteFailed(e))
          case None =>
            Ok(Overlay(written.tree, o.sources[key := (canonical, v.name)], o.log + [Write(path, canonical, value)]))
  }

  function ApplyAll(o: Overlay, env: seq<Variable>, c: Settings): Result<Overlay, OverlayError>
    decreases |env|
  {
    if env == [] then Ok(o) else
      match ApplyOne(o, env[0], c)
      case Err(e) => Err(e)
      case Ok(o') => ApplyAll(o', env[1..], c)
  }

  // ---------------------------------------------------------------- sorting

  /** Legacy names before canonical ones, and by name within each kind. */
  predicate Precedes(a: Variable, b: Variable) {
    || (!IsCanonical(a.name) && IsCanonical(b.name))
    || (IsCanonical(a.name) == IsCanonical(b.name) && StringOrder.Less(a.name, b.name))
  }

  function SortEnvironment(env: seq<Variable>): seq<Variable> { SortBy(Precedes, env) }

  lemma PrecedesIsAsymmetric(a: Variable, b: Variable)
    requires Precedes(a, b)
    ensures !Precedes(b, a)
  {
    if StringOrder.Less(a.name, b.name) && StringOrder.Less(b.name, a.name) {
      StringOrder.LessTransitive(a.name, b.name, a.name);
      StringOrder.LessIrreflexive(a.name);
    }
  }

  lemma NotPrecedesTransitive(a: Variable, b: Variable, c: Variable)
    requires !Precedes(b, a) && !Precedes(c, b)
    ensures !Precedes(c, a)
  {
    if IsCanonical(a.name) == IsCanonical(b.name) == IsCanonical(c.name) {
      StringSorting.NotLessTransitive(a.name, b.name, c.name);
    }
  }

  lemma PrecedesIsOrder()
    ensures WeakOrder(Precedes)
  {
    forall a, b | Precedes(a, b) ensures !Precedes(b, a) { PrecedesIsAsymmetric(a, b); }
    forall a, b, c | !Precedes(b, a) && !Precedes(c, b) ensures !Precedes(c, a) { NotPrecedesTransitive(a, b, c); }
  }

  ghost predicate DistinctNames(env: seq<Variable>) {
    forall a, b :: a in env && b in env && a.name == b.name ==> a == b
  }

  lemma NamesDecide(a: Variable, b: Variable)
    requires a.name != b.name
    ensures Precedes(a, b) || Precedes(b, a)
  {
    StringOrder.LessTotal(a.name, b.name);
  }

  lemma SortedArrangement(a: seq<Variable>, b: seq<Variable>)
    requires multiset(a) == multiset(b) && DistinctNames(a)
    ensures SortEnvironment(a) == SortEnvironment(b)
  {
    PrecedesIsOrder();
    SortBySorts(Precedes, a);
    SortBySorts(Precedes, b);
    var s := SortEnvironment(a);
    PermutationKeepsDistinct(s, a);
    forall x, y | x in s && y in s && x != y ensures Precedes(x, y) || Precedes(y, x) {
      NamesDecide(x, y);
    }
    SortedIsUnique(Precedes, s, SortEnvironment(b));
  }

  /** The order in which the process lists its environment does not matter. */
  lemma OverlayIgnoresOrder(root: Value, a: seq<Variable>, b: seq<Variable>, c: Settings)
    requires multiset(a) == multiset(b) && DistinctNames(a)
    ensures ApplyAll(Overlay(root, map[], []), SortEnvironment(a), c) ==
            ApplyAll(Overlay(root, map[], []), SortEnvironment(b), c)
  {
    SortedArrangement(a, b);
  }

  // ---------------------------------------------------------------- legacy names

  /** The configuration or its defaults have a leaf with this dotted key. */
  ghost predicate Offers(show: Printer, root: Value, defaults: Value, key: string) {
    YieldsKey(show, root, "", key) || YieldsKey(show, defaults, "", key)
  }

  ghost predicate LegacyUnambiguous(show: Printer, root: Value, defaults: Value) {
    forall j, k :: Offers(show, root, defaults, j) && Offers(show, root, defaults, k) ==>
      LegacyKey(j) == LegacyKey(k) ==> j == k
  }

  /** The legacy mapping: one path per leaf, under the leaf's underscored lower-case key. */
  ghost predicate MapsKeys(keys: set<string>, candidates: map<string, Path>) {
    && (forall k :: k in keys ==> LegacyKey(k) in candidates && candidates[LegacyKey(k)] == Split(k))
    && (forall e :: e in candidates ==> exists k :: k in keys && LegacyKey(k) == e)
  }

  ghost predicate AreLeafKeys(show: Printer, root: Value, defaults: Value, keys: set<string>) {
    forall k :: k in keys <==> Offers(show, root, defaults, k)
  }

  ghost predicate IsLegacyMapping(show: Printer, root: Value, defaults: Value, candidates: map<string, Path>) {
    exists keys: set<string> :: AreLeafKeys(show, root, defaults, keys) && MapsKeys(keys, candidates)
  }

  ghost predicate NoClash(keys: set<string>) {
    forall j, k :: j in keys && k in keys && LegacyKey(j) == LegacyKey(k) ==> j == k
  }

  /** Maps the keys in any order; fails exactly when two of them share an environment key. */
  method MapLegacyKeys(keys: set<string>) returns (r: Result<map<string, Path>, OverlayError>)
    ensures r.Ok? <==> NoClash(keys)
    ensures r.Ok? ==> MapsKeys(keys, r.value)
  {
    var unseen := keys;
    ghost var seen: set<string> := {};
    var candidates: map<string, Path> := map[];
    while unseen != {}
      invariant unseen + seen == keys && unseen !! seen
      invariant MapsKeys(seen, candidates) && NoClash(seen)
      decreases unseen
    {
      var key :| key in unseen;
      var environmentKey, path := LegacyKey(key), Split(key);
      if environmentKey in candidates && candidates[environmentKey] != path {
        ghost var k :| k in seen && LegacyKey(k) == environmentKey;
        return Err(AmbiguousLegacyMapping(environmentKey));
      }
      FreshLegacyKey(seen, candidates, key);
      candidates := candidates[environmentKey := path];
      unseen, seen := unseen - {key}, seen + {key};
    }
    assert seen == keys;
    r := Ok(candidates);
  }

  method LegacyEnvironmentCandidates(show: Printer, root: Value, defaults: Value)
    returns (r: Result<map<string, Path>, OverlayError>)
    ensures r.Ok? <==> LegacyUnambiguous(show, root, defaults)
    ensures r.Ok? ==> IsLegacyMapping(show, root, defaults, r.value)
  {
    var own := FlattenValue(show, root, "", map[]);
    var values := FlattenValue(show, defaults, "", own);
    LeafKeysCollected(show, root, defaults, own, values);
    r := MapLegacyKeys(values.Keys);
  }

  lemma LeafKeysCollected(show: Printer, root: Value, defaults: Value,
                          own: map<string, string>, values: map<string, string>)
    requires Flattened(show, root, "", map[], own) && Flattened(show, defaults, "", own, values)
    ensures AreLeafKeys(show, root, defaults, values.Keys)
    ensures NoClash(values.Keys) <==> LegacyUnambiguous(show, root, defaults)
  {
  }

  /** Different keys have different paths, so a repeated environment key is always a conflict. */
  lemma FreshLegacyKey(seen: set<string>, candidates: map<string, Path>, key: string)
    requires MapsKeys(seen, candidates) && key !in seen
    requires LegacyKey(key) in candidates ==> candidates[LegacyKey(key)] == Split(key)
    ensures LegacyKey(key) !in candidates
    ensures MapsKeys(seen + {key}, candidates[LegacyKey(key) := Split(key)])
  {
    if LegacyKey(key) in candidates {
      var k :| k in seen && LegacyKey(k) == LegacyKey(key);
      JoinSplit(k);
      JoinSplit(key);
      assert false;
    }
    var more := candidates[LegacyKey(key) := Split(key)];
    forall e | e in more ensures exists k :: k in seen + {key} && LegacyKey(k) == e {
      if e == LegacyKey(key) {
        assert key in seen + {key};
      } else {
        var k :| k in seen && LegacyKey(k) == e;
        assert k in seen + {key};
      }
    }
  }

  lemma LegacyMappingIsUnique(show: Printer, root: Value, defaults: Value, a: map<string, Path>, b: map<string, Path>)
    requires IsLegacyMapping(show, root, defaults, a) && IsLegacyMapping(show, root, defaults, b)
    ensures a == b
  {
  }
}
