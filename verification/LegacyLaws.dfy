/** Which settings the legacy names reach, and the dotted keys that they miss. */
module LegacyLaws {
  import opened Wrappers
  import opened Sequences
  import opened Text
  import opened ConfigTree
  import opened ConfigFlatten
  import opened EnvironmentOverlay
  import opened OverlayLaws

  predicate AllDotFree(p: Path) { forall i :: 0 <= i < |p| ==> DotFree(p[i]) }

  /** In a well-keyed configuration the mapping sends every setting to the place it has in the tree. */
  lemma LegacyPathFindsLeaf(show: Printer, root: Value, defaults: Value, candidates: map<string, Path>, key: string)
    requires root.Table? && WellKeyed(root) && IsLegacyMapping(show, root, defaults, candidates)
    requires YieldsKey(show, root, "", key)
    ensures LegacyKey(key) in candidates
    ensures var p := candidates[LegacyKey(key)]; p != [] && Join(p) == key && LeafPath(root, p) && Lookup(root, p).Some?
  {
    var keys: set<string> :| AreLeafKeys(show, root, defaults, keys) && MapsKeys(keys, candidates);
    assert key in keys;
    var text :| Yields(show, root, "", key, text);
    var p := RootEntryHasPath(show, root.entries, key, text);
    LeafPathResolves(root, p);
    SplitJoin(p);
  }

  /**
    The legacy name of a setting at path `p` targets that path exactly when no segment of it holds
    a dot and the name is neither canonical nor a bootstrap name.
    */
  lemma LegacyNameReachesExactly(show: Printer, root: Value, defaults: Value, candidates: map<string, Path>, p: Path)
    requires IsLegacyMapping(show, root, defaults, candidates) && p != [] && Offers(show, root, defaults, Join(p))
    ensures TargetOf(LegacyName(Join(p)), candidates, true) == At(p, false) <==>
            AllDotFree(p) && IsLegacyOnly(LegacyName(Join(p)))
  {
    var keys: set<string> :| AreLeafKeys(show, root, defaults, keys) && MapsKeys(keys, candidates);
    assert Join(p) in keys;
    LegacyNameReaches(keys, candidates, Join(p));
    SplitJoinExactly(p);
  }

  ghost predicate IsLeafOf(root: Value, defaults: Value, path: Path) {
    path != [] && (LeafPath(root, path) || LeafPath(defaults, path))
  }

  lemma LeafOffers(show: Printer, root: Value, path: Path)
    requires root.Table? && WellKeyed(root) && path != [] && LeafPath(root, path)
    ensures YieldsKey(show, root, "", Join(path)) && Split(Join(path)) == path
  {
    LeafPathResolves(root, path);
    SplitJoin(path);
    var text := LeafText(show, Lookup(root, path).value);
    RootPathHasEntry(show, root.entries, path, Join(path), text);
  }

  lemma OfferedIsLeaf(show: Printer, root: Value, key: string)
    requires root.Table? && WellKeyed(root) && YieldsKey(show, root, "", key)
    ensures LeafPath(root, Split(key)) && Join(Split(key)) == key
  {
    var text :| Yields(show, root, "", key, text);
    var p := RootEntryHasPath(show, root.entries, key, text);
    LeafPathResolves(root, p);
    SplitJoin(p);
  }

  /**
    Where all keys are dot-free, a legacy name targets exactly the settings of the configuration
    or of its defaults whose key it stands for.
    */
  lemma LegacyTargetsExactly(show: Printer, root: Value, defaults: Value, candidates: map<string, Path>,
                             name: string, path: Path)
    requires root.Table? && WellKeyed(root) && defaults.Table? && WellKeyed(defaults)
    requires IsLegacyMapping(show, root, defaults, candidates) && IsLegacyOnly(name) && StartsWith(name, "LILY_")
    ensures TargetOf(name, candidates, true) == At(path, false) <==>
            IsLeafOf(root, defaults, path) && Lower(name[5..]) == LegacyKey(Join(path))
  {
    var keys: set<string> :| AreLeafKeys(show, root, defaults, keys) && MapsKeys(keys, candidates);
    if TargetOf(name, candidates, true) == At(path, false) {
      var key :| key in keys && LegacyKey(key) == Lower(name[5..]);
      if YieldsKey(show, root, "", key) {
        OfferedIsLeaf(show, root, key);
      } else {
        OfferedIsLeaf(show, defaults, key);
      }
    }
    if IsLeafOf(root, defaults, path) && Lower(name[5..]) == LegacyKey(Join(path)) {
      if LeafPath(root, path) {
        LeafOffers(show, root, path);
      } else {
        LeafOffers(show, defaults, path);
      }
      assert Join(path) in keys;
    }
  }

  // ---------------------------------------------------------------- names that mean something else

  /** For one: the legacy name of the setting `_x` is the canonical name of `x`. */
  lemma UnderscoreExample(candidates: map<string, Path>, allowLegacy: bool)
    ensures LegacyName("_x") == "LILY__X" && AllDotFree(["_x"])
    ensures TargetOf(LegacyName("_x"), candidates, allowLegacy) == At(["x"], true)
  {
    var c := Settings(candidates, allowLegacy, EMPTY_PARSERS);
    var p := ["X"];
    assert LegacyName("_x") == "LILY__X" == "LILY__" + JoinDouble(p);
    WordsTarget(c, p);
    assert Lower("X") == "x";
    assert LowerAll(p) == ["x"];
  }

  /** And that of `config.path` names the configuration file. */
  lemma BootstrapExample(candidates: map<string, Path>, allowLegacy: bool)
    ensures LegacyName("config.path") == "LILY_CONFIG_PATH" && AllDotFree(["config", "path"])
    ensures TargetOf(LegacyName("config.path"), candidates, allowLegacy) == Ignored
  {
    assert LegacyName("config.path") == "LILY_CONFIG_PATH";
  }

  const EMPTY_PARSERS := Parsers(_ => None, _ => None, _ => None, _ => None, _ => None)

  // ---------------------------------------------------------------- dots

  lemma {:induction false} DotsAddSegments(p: Path)
    requires p != []
    ensures |Split(Join(p))| >= |p|
  {
    if |p| > 1 {
      DotsAddSegments(p[1..]);
      SplitConcat(p[0], Join(p[1..]));
    }
  }

  lemma {:induction false} SplitConcat(a: string, s: string)
    ensures |Split(a + ['.'] + s)| == |Split(a)| + |Split(s)|
  {
    var t := a + ['.'] + s;
    if a == [] {
      assert t[1..] == s;
    } else {
      assert t[1..] == a[1..] + ['.'] + s;
      SplitConcat(a[1..], s);
    }
  }

  /** A path with a dotted segment and the path its key is split into never run through each other. */
  lemma DottedIsUnrelated(p: Path)
    requires p != [] && !AllDotFree(p)
    ensures !Related(Split(Join(p)), p)
  {
    var q := Split(Join(p));
    DotsAddSegments(p);
    JoinSplit(Join(p));
    var i :| 0 <= i < |p| && !DotFree(p[i]);
    assert DotFree(q[i]);
  }

  /**
    A setting under a dotted key is never changed by its own legacy name: a successful overlay
    with that one variable leaves it as it was.
    */
  lemma DottedSettingIsMissed(root: Value, c: Settings, v: Variable, p: Path)
    requires GoodCandidates(c.candidates) && p != [] && !AllDotFree(p)
    requires TargetOf(v.name, c.candidates, c.allowLegacy) == At(Split(Join(p)), false)
    requires ApplyAll(Overlay(root, map[], []), SortEnvironment([v]), c).Ok?
    ensures Lookup(ApplyAll(Overlay(root, map[], []), SortEnvironment([v]), c).value.root, p) == Lookup(root, p)
  {
    DottedIsUnrelated(p);
    OneIsSorted(v);
    RestIsUntouched(root, [v], c, p);
  }

  lemma OneIsSorted(v: Variable)
    ensures SortEnvironment([v]) == [v]
  {
    assert [v][..0] == [] && SortBy(Precedes, [v][..0]) == [];
    assert InsertBy(Precedes, [], v) == [] + [v];
  }

  // ---------------------------------------------------------------- a dotted key

  /** The setting `legacy.key` of the `custom` section, as migration leaves it there. */
  function Dotted(x: string): Value {
    Table(map["custom" := Table(map["legacy.key" := Str(x)])])
  }

  const DOTTED_PATH: Path := ["custom", "legacy.key"]
  const SPLIT_PATH: Path := ["custom", "legacy", "key"]

  lemma DottedPaths(p: Path, q: Path)
    requires p == DOTTED_PATH && q == SPLIT_PATH
    ensures Join(p) == "custom.legacy.key" && Split(Join(p)) == q && !AllDotFree(p) && !HasIndex(q)
  {
    assert p[1..] == ["legacy.key"] && q[1..] == ["legacy", "key"] && q[1..][1..] == ["key"];
    assert Join(q) == "custom.legacy.key";
    SplitJoin(q);
    assert '.' in "legacy.key" by { assert "legacy.key"[6] == '.'; }
    assert !DotFree(p[1]);
    assert !IsDigit("custom"[0]) && !IsDigit("legacy"[0]) && !IsDigit("key"[0]);
  }

  lemma DottedOffers(show: Printer, defaults: Value, x: string)
    ensures Offers(show, Dotted(x), defaults, "custom.legacy.key")
  {
    var section := Table(map["legacy.key" := Str(x)]);
    assert TableKey("", "custom") == "custom" && TableKey("custom", "legacy.key") == "custom.legacy.key";
    assert Yields(show, Str(x), "custom.legacy.key", "custom.legacy.key", x);
    assert Yields(show, section, "custom", "custom.legacy.key", x);
    assert Yields(show, Dotted(x), "", "custom.legacy.key", x);
  }

  lemma DottedIsOpen(x: string, q: Path, value: Value)
    requires q == SPLIT_PATH
    ensures SetValueAtPath(Dotted(x), q, value).error.None?
  {
    assert q[1..] == ["legacy", "key"];
    FreshTableAccepts(q[1..][1..], value);
    assert ChildOrEmpty(Dotted(x), "custom") == Table(map["legacy.key" := Str(x)]);
  }

  /**
    For one: with `legacy.key` in the `custom` section, `LILY_CUSTOM_LEGACY_KEY` is applied, but
    writes a new setting and leaves the old one as it was.
    */
  lemma DottedKeyExample(show: Printer, defaults: Value, c: Settings, x: string, raw: string)
    requires IsLegacyMapping(show, Dotted(x), defaults, c.candidates) && c.allowLegacy
    ensures var v := Variable(LegacyName("custom.legacy.key"), raw);
            var r := ApplyAll(Overlay(Dotted(x), map[], []), SortEnvironment([v]), c);
            && v.name == "LILY_CUSTOM_LEGACY_KEY" && r.Ok?
            && Lookup(r.value.root, DOTTED_PATH) == Some(Str(x)) && Lookup(r.value.root, SPLIT_PATH) == Some(Str(raw))
  {
    var key := "custom.legacy.key";
    var v := Variable(LegacyName(key), raw);
    DottedName();
    DottedPaths(DOTTED_PATH, SPLIT_PATH);
    DottedTarget(show, defaults, c, x);
    LegacyMappingIsGood(show, Dotted(x), defaults, c.candidates);
    DottedApplied(c, v, x, SPLIT_PATH);
    DottedSettingIsMissed(Dotted(x), c, v, DOTTED_PATH);
    DottedHolds(x);
  }

  lemma DottedHolds(x: string)
    ensures Lookup(Dotted(x), DOTTED_PATH) == Some(Str(x))
  {
    assert DOTTED_PATH[1..] == ["legacy.key"] && DOTTED_PATH[1..][1..] == [];
  }

  lemma DottedName()
    ensures LegacyName("custom.legacy.key") == "LILY_CUSTOM_LEGACY_KEY"
    ensures IsLegacyOnly(LegacyName("custom.legacy.key"))
  {
    var name := LegacyName("custom.legacy.key");
    assert name == "LILY_CUSTOM_LEGACY_KEY";
    assert !IsCanonical(name) by { assert name[..6][5] == 'C' && "LILY__"[5] == '_'; }
    assert name[7] == 'S' && "LILY_CONFIG_PATH"[7] == 'N' && "LILY_CONFIG_MODE"[7] == 'N';
  }

  lemma DottedTarget(show: Printer, defaults: Value, c: Settings, x: string)
    requires IsLegacyMapping(show, Dotted(x), defaults, c.candidates) && c.allowLegacy
    ensures TargetOf(LegacyName("custom.legacy.key"), c.candidates, c.allowLegacy) ==
            At(Split("custom.legacy.key"), false)
  {
    var keys: set<string> :| AreLeafKeys(show, Dotted(x), defaults, keys) && MapsKeys(keys, c.candidates);
    DottedOffers(show, defaults, x);
    DottedName();
    LegacyNameReaches(keys, c.candidates, "custom.legacy.key");
  }

  lemma DottedApplied(c: Settings, v: Variable, x: string, q: Path)
    requires q == SPLIT_PATH && !HasIndex(q) && TargetOf(v.name, c.candidates, c.allowLegacy) == At(q, false)
    ensures var r := ApplyAll(Overlay(Dotted(x), map[], []), SortEnvironment([v]), c);
            r.Ok? && Lookup(r.value.root, q) == Some(Str(v.raw))
  {
    OneIsSorted(v);
    DottedIsOpen(x, q, Str(v.raw));
    SetThenGet(Dotted(x), q, Str(v.raw));
    assert [v][1..] == [];
  }
}
