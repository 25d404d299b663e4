/** Flattening a configuration tree to dotted keys, and reading a dotted key back. */
module ConfigFlatten {
  import opened Wrappers
  import opened Text
  import opened ConfigTree

  /** How the TOML library prints a scalar that is not a string. */
  type Printer = Value -> string

  predicate IsScalar(v: Value) { !v.Table? && !v.Array? }

  function ValueToString(show: Printer, v: Value): string {
    if v.Str? then v.text else show(v)
  }

  function LeafText(show: Printer, v: Value): string {
    if v.Array? then "[]" else ValueToString(show, v)
  }

  function TableKey(prefix: string, key: string): string {
    if prefix == "" then key else prefix + "." + key
  }

  function ArrayKey(prefix: string, index: nat): string {
    prefix + "." + Decimal(index)
  }

  /** The tree, flattened under `prefix`, offers the entry `k := text`. */
  ghost predicate Yields(show: Printer, v: Value, prefix: string, k: string, text: string)
    decreases v
  {
    match v
    case Table(t) => exists key :: key in t && Yields(show, t[key], TableKey(prefix, key), k, text)
    case Array(a) =>
      || (a == [] && prefix != "" && k == prefix && text == "[]")
      || exists i :: 0 <= i < |a| && Yields(show, a[i], ArrayKey(prefix, i), k, text)
    case _ => prefix != "" && k == prefix && text == ValueToString(show, v)
  }

  ghost predicate YieldsKey(show: Printer, v: Value, prefix: string, k: string) {
    exists text :: Yields(show, v, prefix, k, text)
  }

  /** `after` is `before` with the entries of the tree written over it, in some order. */
  ghost predicate Flattened(show: Printer, v: Value, prefix: string,
                            before: map<string, string>, after: map<string, string>)
  {
    && (forall k :: k in before || YieldsKey(show, v, prefix, k) <==> k in after)
    && (forall k :: k in after ==>
          || Yields(show, v, prefix, k, after[k])
          || (k in before && after[k] == before[k] && !YieldsKey(show, v, prefix, k)))
  }

  // ---------------------------------------------------------------- the recursive walk

  /** As `Flattened`, for the entries of a table under the keys in `keys`. */
  ghost predicate TablePart(show: Printer, t: map<string, Value>, keys: set<string>, prefix: string,
                            k: string, text: string)
  {
    exists key :: key in keys && key in t && Yields(show, t[key], TableKey(prefix, key), k, text)
  }

  ghost predicate TableKeyPart(show: Printer, t: map<string, Value>, keys: set<string>, prefix: string, k: string) {
    exists text :: TablePart(show, t, keys, prefix, k, text)
  }

  ghost predicate TableFlattened(show: Printer, t: map<string, Value>, keys: set<string>, prefix: string,
                                 before: map<string, string>, after: map<string, string>) {
    && (forall k :: k in before || TableKeyPart(show, t, keys, prefix, k) <==> k in after)
    && (forall k :: k in after ==>
          TablePart(show, t, keys, prefix, k, after[k])
          || (k in before && after[k] == before[k] && !TableKeyPart(show, t, keys, prefix, k)))
  }

  lemma TableGrows(show: Printer, t: map<string, Value>, keys: set<string>, key: string, prefix: string,
                   before: map<string, string>, middle: map<string, string>, after: map<string, string>)
    requires key in t && TableFlattened(show, t, keys, prefix, before, middle)
    requires Flattened(show, t[key], TableKey(prefix, key), middle, after)
    ensures TableFlattened(show, t, keys + {key}, prefix, before, after)
  {
    forall k, text ensures TablePart(show, t, keys + {key}, prefix, k, text) <==>
                           TablePart(show, t, keys, prefix, k, text) ||
                             Yields(show, t[key], TableKey(prefix, key), k, text) {
    }
    forall k ensures TableKeyPart(show, t, keys + {key}, prefix, k) <==>
                     TableKeyPart(show, t, keys, prefix, k) || YieldsKey(show, t[key], TableKey(prefix, key), k) {
    }
  }

  ghost predicate ArrayPart(show: Printer, a: seq<Value>, n: nat, prefix: string, k: string, text: string) {
    exists i :: 0 <= i < n && i < |a| && Yields(show, a[i], ArrayKey(prefix, i), k, text)
  }

  ghost predicate ArrayKeyPart(show: Printer, a: seq<Value>, n: nat, prefix: string, k: string) {
    exists text :: ArrayPart(show, a, n, prefix, k, text)
  }

  ghost predicate ArrayFlattened(show: Printer, a: seq<Value>, n: nat, prefix: string,
                                 before: map<string, string>, after: map<string, string>) {
    && (forall k :: k in before || ArrayKeyPart(show, a, n, prefix, k) <==> k in after)
    && (forall k :: k in after ==>
          ArrayPart(show, a, n, prefix, k, after[k])
          || (k in before && after[k] == before[k] && !ArrayKeyPart(show, a, n, prefix, k)))
  }

  lemma ArrayPartSplits(show: Printer, a: seq<Value>, n: nat, prefix: string, k: string, text: string)
    requires n < |a|
    ensures ArrayPart(show, a, n + 1, prefix, k, text) <==>
            ArrayPart(show, a, n, prefix, k, text) || Yields(show, a[n], ArrayKey(prefix, n), k, text)
  {
  }

  lemma ArrayKeyPartSplits(show: Printer, a: seq<Value>, n: nat, prefix: string, k: string)
    requires n < |a|
    ensures ArrayKeyPart(show, a, n + 1, prefix, k) <==>
            ArrayKeyPart(show, a, n, prefix, k) || YieldsKey(show, a[n], ArrayKey(prefix, n), k)
  {
    var m := n + 1;
    if ArrayKeyPart(show, a, m, prefix, k) {
      var text :| ArrayPart(show, a, m, prefix, k, text);
      ArrayPartSplits(show, a, n, prefix, k, text);
    }
    if ArrayKeyPart(show, a, n, prefix, k) {
      var text :| ArrayPart(show, a, n, prefix, k, text);
      ArrayPartSplits(show, a, n, prefix, k, text);
    }
    if YieldsKey(show, a[n], ArrayKey(prefix, n), k) {
      var text :| Yields(show, a[n], ArrayKey(prefix, n), k, text);
      ArrayPartSplits(show, a, n, prefix, k, text);
    }
  }

  lemma ArrayGrows(show: Printer, a: seq<Value>, n: nat, prefix: string,
                   before: map<string, string>, middle: map<string, string>, after: map<string, string>)
    requires n < |a| && ArrayFlattened(show, a, n, prefix, before, middle)
    requires Flattened(show, a[n], ArrayKey(prefix, n), middle, after)
    ensures ArrayFlattened(show, a, n + 1, prefix, before, after)
  {
    var m := n + 1;
    forall k ensures k in before || ArrayKeyPart(show, a, m, prefix, k) <==> k in after {
      ArrayKeyPartSplits(show, a, n, prefix, k);
    }
    forall k | k in after
      ensures ArrayPart(show, a, m, prefix, k, after[k])
           || (k in before && after[k] == before[k] && !ArrayKeyPart(show, a, m, prefix, k))
    {
      ArrayKeyPartSplits(show, a, n, prefix, k);
      ArrayPartSplits(show, a, n, prefix, k, after[k]);
    }
  }

  /** Adds the entries of the tree to the output, visiting tables in any key order. */
  method FlattenValue(show: Printer, v: Value, prefix: string, output: map<string, string>)
      returns (output': map<string, string>)
    ensures Flattened(show, v, prefix, output, output')
    decreases v
  {
    output' := output;
    match v {
      case Table(t) =>
        var unseen := t.Keys;
        ghost var seen: set<string> := {};
        while unseen != {}
          invariant unseen + seen == t.Keys
          invariant TableFlattened(show, t, seen, prefix, output, output')
          decreases unseen
        {
          var key :| key in unseen;
          ghost var middle := output';
          output' := FlattenValue(show, t[key], TableKey(prefix, key), output');
          TableGrows(show, t, seen, key, prefix, output, middle, output');
          unseen, seen := unseen - {key}, seen + {key};
        }
        TableDone(show, t, prefix, output, output');
      case Array(a) =>
        for i := 0 to |a|
          invariant ArrayFlattened(show, a, i, prefix, output, output')
        {
          ghost var middle := output';
          output' := FlattenValue(show, a[i], ArrayKey(prefix, i), output');
          ArrayGrows(show, a, i, prefix, output, middle, output');
        }
        if a == [] && prefix != "" {
          output' := output'[prefix := "[]"];
        }
        ArrayDone(show, a, prefix, output, output');
      case _ =>
        if prefix != "" {
          output' := output'[prefix := ValueToString(show, v)];
        }
        ScalarDone(show, v, prefix, output, output');
    }
  }

  lemma TableDone(show: Printer, t: map<string, Value>, prefix: string,
                  before: map<string, string>, after: map<string, string>)
    requires TableFlattened(show, t, t.Keys, prefix, before, after)
    ensures Flattened(show, Table(t), prefix, before, after)
  {
    var v := Table(t);
    forall k, text ensures Yields(show, v, prefix, k, text) <==> TablePart(show, t, t.Keys, prefix, k, text) { }
    forall k ensures YieldsKey(show, v, prefix, k) <==> TableKeyPart(show, t, t.Keys, prefix, k) {
      if YieldsKey(show, v, prefix, k) {
        var text :| Yields(show, v, prefix, k, text);
        assert TablePart(show, t, t.Keys, prefix, k, text);
      }
      if text :| TablePart(show, t, t.Keys, prefix, k, text) {
        assert Yields(show, v, prefix, k, text);
      }
    }
  }

  lemma ArrayDone(show: Printer, a: seq<Value>, prefix: string, before: map<string, string>, after: map<string, string>)
    requires a != [] ==> ArrayFlattened(show, a, |a|, prefix, before, after)
    requires a == [] ==> after == if prefix == "" then before else before[prefix := "[]"]
    ensures Flattened(show, Array(a), prefix, before, after)
  {
    var v := Array(a);
    if a == [] {
      forall k, text ensures Yields(show, v, prefix, k, text) <==> prefix != "" && k == prefix && text == "[]" { }
      assert prefix != "" ==> Yields(show, v, prefix, prefix, "[]");
    } else {
      forall k, text ensures Yields(show, v, prefix, k, text) <==> ArrayPart(show, a, |a|, prefix, k, text) { }
      forall k ensures YieldsKey(show, v, prefix, k) <==> ArrayKeyPart(show, a, |a|, prefix, k) {
        if YieldsKey(show, v, prefix, k) {
          var text :| Yields(show, v, prefix, k, text);
          assert ArrayPart(show, a, |a|, prefix, k, text);
        }
        if text :| ArrayPart(show, a, |a|, prefix, k, text) {
          assert Yields(show, v, prefix, k, text);
        }
      }
    }
  }

  lemma ScalarDone(show: Printer, v: Value, prefix: string, before: map<string, string>, after: map<string, string>)
    requires IsScalar(v)
    requires after == if prefix == "" then before else before[prefix := ValueToString(show, v)]
    ensures Flattened(show, v, prefix, before, after)
  {
    assert prefix != "" ==> Yields(show, v, prefix, prefix, ValueToString(show, v));
  }

  // ---------------------------------------------------------------- agreement with the tree

  predicate GoodKey(key: string) { key != "" && DotFree(key) }

  /** Every table key is non-empty and dot-free, and arrays fit the address space. */
  ghost predicate WellKeyed(v: Value)
    decreases v
  {
    match v
    case Table(t) => forall key :: key in t ==> GoodKey(key) && WellKeyed(t[key])
    case Array(a) => |a| <= USIZE_MAX && forall i :: 0 <= i < |a| ==> WellKeyed(a[i])
    case _ => true
  }

  /** The path, with array indices in plain decimal, ends at a scalar or at an empty array. */
  ghost predicate LeafPath(v: Value, p: Path)
    decreases |p|
  {
    if p == [] then IsScalar(v) || v == Array([]) else
      match v
      case Table(t) => p[0] in t && LeafPath(t[p[0]], p[1..])
      case Array(a) => exists i :: 0 <= i < |a| && p[0] == Decimal(i) && LeafPath(a[i], p[1..])
      case _ => false
  }

  lemma ArrayChild(a: seq<Value>, i: nat)
    requires i < |a| <= USIZE_MAX
    ensures Child(Array(a), Decimal(i)) == Some(a[i])
  {
    ParseDecimal(i);
  }

  /** A leaf path can be looked up, reaches a leaf, and has only dot-free segments. */
  lemma {:induction false} LeafPathResolves(v: Value, p: Path)
    requires WellKeyed(v) && LeafPath(v, p)
    ensures Lookup(v, p).Some? && (IsScalar(Lookup(v, p).value) || Lookup(v, p).value == Array([]))
    ensures forall i :: 0 <= i < |p| ==> DotFree(p[i])
    decreases |p|
  {
    if p != [] {
      if v.Table? {
        LeafPathResolves(v.entries[p[0]], p[1..]);
      } else {
        var i :| 0 <= i < |v.values| && p[0] == Decimal(i) && LeafPath(v.values[i], p[1..]);
        ArrayChild(v.values, i);
        NoDotInDecimal(i);
        LeafPathResolves(v.values[i], p[1..]);
      }
      forall i | 0 <= i < |p| ensures DotFree(p[i]) {
        if i > 0 { assert p[i] == p[1..][i - 1]; }
      }
    }
  }

  function Extend(prefix: string, p: Path): string {
    if p == [] then prefix else prefix + ['.'] + Join(p)
  }

  lemma ExtendStep(prefix: string, p: Path)
    requires p != []
    ensures Extend(prefix + "." + p[0], p[1..]) == Extend(prefix, p)
  {
  }

  lemma {:induction false} YieldsHasPath(show: Printer, v: Value, prefix: string, k: string, text: string)
      returns (p: Path)
    requires prefix != "" && WellKeyed(v) && Yields(show, v, prefix, k, text)
    ensures LeafPath(v, p) && k == Extend(prefix, p) && Lookup(v, p).Some? && text == LeafText(show, Lookup(v, p).value)
    decreases v
  {
    match v {
      case Table(t) =>
        var key :| key in t && Yields(show, t[key], TableKey(prefix, key), k, text);
        var rest := YieldsHasPath(show, t[key], TableKey(prefix, key), k, text);
        p := [key] + rest;
        ExtendStep(prefix, p);
      case Array(a) =>
        if a == [] {
          p := [];
        } else {
          var i :| 0 <= i < |a| && Yields(show, a[i], ArrayKey(prefix, i), k, text);
          var rest := YieldsHasPath(show, a[i], ArrayKey(prefix, i), k, text);
          p := [Decimal(i)] + rest;
          assert p[1..] == rest;
          ArrayChild(a, i);
          ExtendStep(prefix, p);
        }
      case _ =>
        p := [];
    }
  }

  lemma {:induction false} PathYields(show: Printer, v: Value, prefix: string, p: Path)
    requires prefix != "" && WellKeyed(v) && LeafPath(v, p)
    ensures Lookup(v, p).Some? && Yields(show, v, prefix, Extend(prefix, p), LeafText(show, Lookup(v, p).value))
    decreases |p|
  {
    if p != [] {
      ExtendStep(prefix, p);
      if v.Table? {
        PathYields(show, v.entries[p[0]], TableKey(prefix, p[0]), p[1..]);
      } else {
        var i :| 0 <= i < |v.values| && p[0] == Decimal(i) && LeafPath(v.values[i], p[1..]);
        ArrayChild(v.values, i);
        PathYields(show, v.values[i], ArrayKey(prefix, i), p[1..]);
      }
    }
  }

  lemma RootEntryHasPath(show: Printer, t: map<string, Value>, k: string, text: string) returns (p: Path)
    requires WellKeyed(Table(t)) && Yields(show, Table(t), "", k, text)
    ensures NamesLeaf(show, Table(t), p, k, text)
  {
    var key :| key in t && Yields(show, t[key], TableKey("", key), k, text);
    var rest := YieldsHasPath(show, t[key], key, k, text);
    p := [key] + rest;
    assert p[1..] == rest;
  }

  lemma RootPathHasEntry(show: Printer, t: map<string, Value>, p: Path, k: string, text: string)
    requires WellKeyed(Table(t)) && NamesLeaf(show, Table(t), p, k, text)
    ensures Yields(show, Table(t), "", k, text)
  {
    PathYields(show, t[p[0]], p[0], p[1..]);
    assert Extend(p[0], p[1..]) == Join(p);
    assert Yields(show, t[p[0]], TableKey("", p[0]), k, text);
  }

  ghost predicate NamesLeaf(show: Printer, root: Value, p: Path, k: string, text: string) {
    && p != [] && LeafPath(root, p) && k == Join(p)
    && Lookup(root, p).Some? && text == LeafText(show, Lookup(root, p).value)
  }

  /**
    Flattening a well-keyed table: the keys are exactly the dotted paths of scalars and empty
    arrays, no two of those paths share a name, and looking up the split key finds the leaf
    whose text the entry holds.
    */
  lemma FlattenAgreesWithLookup(show: Printer, root: Value, flat: map<string, string>)
    requires root.Table? && WellKeyed(root) && Flattened(show, root, "", map[], flat)
    ensures forall p :: p != [] && LeafPath(root, p) ==> Join(p) in flat && Split(Join(p)) == p
    ensures forall k :: k in flat ==>
              && LeafPath(root, Split(k)) && Join(Split(k)) == k
              && Lookup(root, Split(k)).Some? && flat[k] == LeafText(show, Lookup(root, Split(k)).value)
    ensures forall p, text :: p != [] && LeafPath(root, p) && Lookup(root, p) == Some(Str(text)) ==>
              flat[Join(p)] == text
    ensures forall p :: p != [] && LeafPath(root, p) && Lookup(root, p) == Some(Array([])) ==> flat[Join(p)] == "[]"
    ensures forall p, v :: p != [] && LeafPath(root, p) && Lookup(root, p) == Some(v) && IsScalar(v) && !v.Str? ==>
              flat[Join(p)] == show(v)
  {
    forall p | p != [] && LeafPath(root, p) ensures Join(p) in flat && Split(Join(p)) == p {
      LeafPathResolves(root, p);
      SplitJoin(p);
      var text := LeafText(show, Lookup(root, p).value);
      assert NamesLeaf(show, root, p, Join(p), text);
      RootPathHasEntry(show, root.entries, p, Join(p), text);
      assert YieldsKey(show, root, "", Join(p));
    }
    forall k | k in flat
      ensures LeafPath(root, Split(k)) && Join(Split(k)) == k
      ensures Lookup(root, Split(k)).Some? && flat[k] == LeafText(show, Lookup(root, Split(k)).value)
    {
      var p := RootEntryHasPath(show, root.entries, k, flat[k]);
      LeafPathResolves(root, p);
      SplitJoin(p);
    }
  }
}
