/**
  Resolving configuration references: all reference leaves of the tree are collected first, and
  then each is overwritten with its resolved text.
  */
module ConfigResolve {
  import opened Wrappers
  import opened Text
  import opened ConfigReferences
  import opened ConfigTree

  datatype Mode = Development | Test | Production

  /** What went wrong and where. */
  datatype ResolveError =
    | TopologyIdentity(path: Path)
    | BackplaneBundle
    | Malformed(path: Path)
    | Unresolved(path: Path)
    | LeaseExpired(path: Path)
    | SetFailed(error: SetError)

  /** Secret providers and file reads: the answer may depend on the place as well as on the reference. */
  type Resolver = (Path, ConfigReference) -> Option<string>

  predicate IsTopologyIdentityPath(p: Path) {
    && |p| == 5 && p[0] == "rabbitmq" && p[1] == "topology" && p[2] == "queues"
    && p[4] in ["name", "exchange_name", "routing_key", "dead_letter_exchange", "dead_letter_routing_key"]
  }

  predicate IsBackplaneBundlePath(p: Path) {
    p == ["websocket", "backplane", "custom_ca_bundle"]
  }

  predicate ContainsOpening(s: string) {
    exists i :: 0 <= i < |s| - 1 && s[i] == '$' && s[i + 1] == '{'
  }

  /** What is wrong with a string leaf, if anything. */
  function LeafFault(text: string, p: Path, mode: Mode): Option<ResolveError> {
    if ParseConfigReference(text).Some? then
      if IsTopologyIdentityPath(p) then Some(TopologyIdentity(p))
      else if IsBackplaneBundlePath(p) then Some(BackplaneBundle)
      else None
    else if mode == Production && ContainsOpening(text) then Some(Malformed(p))
    else None
  }

  // ---------------------------------------------------------------- string leaves

  /** The string `text` stands at the absolute path `p` of a tree rooted at path `at`. */
  ghost predicate TextAt(v: Value, at: Path, p: Path, text: string)
    decreases v
  {
    match v
    case Str(t) => p == at && text == t
    case Table(t) => exists key :: key in t && TextAt(t[key], at + [key], p, text)
    case Array(a) => exists i :: 0 <= i < |a| && TextAt(a[i], at + [Decimal(i)], p, text)
    case _ => false
  }

  lemma {:induction false} TextIsBelow(v: Value, at: Path, p: Path, text: string)
    requires TextAt(v, at, p, text)
    ensures |at| <= |p| && p[..|at|] == at
    ensures (v.Table? || v.Array?) ==> |at| < |p|
    decreases v
  {
    match v
    case Str(_) =>
    case Table(t) =>
      var key :| key in t && TextAt(t[key], at + [key], p, text);
      TextIsBelow(t[key], at + [key], p, text);
      assert p[..|at|] == p[..|at| + 1][..|at|];
    case Array(a) =>
      var i :| 0 <= i < |a| && TextAt(a[i], at + [Decimal(i)], p, text);
      TextIsBelow(a[i], at + [Decimal(i)], p, text);
      assert p[..|at|] == p[..|at| + 1][..|at|];
  }

  /** The leaf that is at fault, or the references to resolve, of part of a tree. */
  ghost predicate Faulty(v: Value, at: Path, mode: Mode) {
    exists p, text :: TextAt(v, at, p, text) && LeafFault(text, p, mode).Some?
  }

  type Found = seq<(Path, ConfigReference)>

  ghost predicate IsReference(v: Value, at: Path, p: Path, ref: ConfigReference) {
    exists text :: TextAt(v, at, p, text) && ParseConfigReference(text) == Some(ref)
  }

  /** The names that queues, exchanges and routes are known by, and the certificate bundle of the backplane. */
  ghost predicate IsProtectedPlace(p: Path) {
    || p == ["websocket", "backplane", "custom_ca_bundle"]
    || exists queue :: p in [["rabbitmq", "topology", "queues", queue, "name"],
                             ["rabbitmq", "topology", "queues", queue, "exchange_name"],
                             ["rabbitmq", "topology", "queues", queue, "routing_key"],
                             ["rabbitmq", "topology", "queues", queue, "dead_letter_exchange"],
                             ["rabbitmq", "topology", "queues", queue, "dead_letter_routing_key"]]
  }

  lemma ProtectedExactly(p: Path)
    ensures IsProtectedPlace(p) <==> IsTopologyIdentityPath(p) || IsBackplaneBundlePath(p)
  {
    if IsTopologyIdentityPath(p) {
      assert p == ["rabbitmq", "topology", "queues", p[3], p[4]];
    }
  }

  /**
    A tree is free of faults exactly when no reference stands in a protected place and, in
    production, every text that opens a reference anywhere is one.
    */
  lemma FaultFreeExactly(v: Value, at: Path, mode: Mode)
    ensures !Faulty(v, at, mode) <==> ProtectedAreLiteral(v, at) && (mode == Production ==> OpenedAreReferences(v, at))
  {
    if Faulty(v, at, mode) {
      var p, text :| TextAt(v, at, p, text) && LeafFault(text, p, mode).Some?;
      ProtectedExactly(p);
      OpensExactly(text);
      if ParseConfigReference(text).Some? {
        assert IsReference(v, at, p, ParseConfigReference(text).value);
        assert !ProtectedAreLiteral(v, at);
      } else {
        assert !OpenedAreReferences(v, at);
      }
    } else {
      forall p, ref | IsReference(v, at, p, ref) ensures !IsProtectedPlace(p) {
        var text :| TextAt(v, at, p, text) && ParseConfigReference(text) == Some(ref);
        assert LeafFault(text, p, mode).None?;
        ProtectedExactly(p);
      }
      forall p, text | mode == Production && TextAt(v, at, p, text) && Opens(text)
        ensures ParseConfigReference(text).Some?
      {
        assert LeafFault(text, p, mode).None?;
        OpensExactly(text);
      }
    }
  }

  ghost predicate ProtectedAreLiteral(v: Value, at: Path) {
    forall p, ref :: IsReference(v, at, p, ref) ==> !IsProtectedPlace(p)
  }

  /** Somewhere in the text a reference is opened. */
  ghost predicate Opens(text: string) { exists before, after :: text == before + "${" + after }

  lemma OpensExactly(text: string)
    ensures Opens(text) <==> ContainsOpening(text)
  {
    if Opens(text) {
      var before, after :| text == before + "${" + after;
      assert text[|before|] == '$' && text[|before| + 1] == '{';
    }
    if ContainsOpening(text) {
      var i :| 0 <= i < |text| - 1 && text[i] == '$' && text[i + 1] == '{';
      assert text == text[..i] + "${" + text[i + 2..];
    }
  }

  ghost predicate OpenedAreReferences(v: Value, at: Path) {
    forall p, text :: TextAt(v, at, p, text) && Opens(text) ==> ParseConfigReference(text).Some?
  }

  /** `found` lists exactly the references of the tree, each place once. */
  ghost predicate Lists(v: Value, at: Path, found: Found) {
    && (forall p, ref :: (p, ref) in found <==> IsReference(v, at, p, ref))
    && (forall i, j :: 0 <= i < j < |found| ==> found[i].0 != found[j].0)
  }

  // ---------------------------------------------------------------- collecting

  ghost predicate TableLists(t: map<string, Value>, keys: set<string>, at: Path, found: Found) {
    && (forall p, ref :: (p, ref) in found <==> TableReference(t, keys, at, p, ref))
    && (forall i, j :: 0 <= i < j < |found| ==> found[i].0 != found[j].0)
  }

  ghost predicate TableReference(t: map<string, Value>, keys: set<string>, at: Path, p: Path, ref: ConfigReference) {
    exists key :: key in keys && key in t && IsReference(t[key], at + [key], p, ref)
  }

  ghost predicate ArrayReference(a: seq<Value>, n: nat, at: Path, p: Path, ref: ConfigReference) {
    exists i :: 0 <= i < n && i < |a| && IsReference(a[i], at + [Decimal(i)], p, ref)
  }

  ghost predicate ArrayLists(a: seq<Value>, n: nat, at: Path, found: Found) {
    && (forall p, ref :: (p, ref) in found <==> ArrayReference(a, n, at, p, ref))
    && (forall i, j :: 0 <= i < j < |found| ==> found[i].0 != found[j].0)
  }

  lemma ReferenceSegment(v: Value, at: Path, segment: string, p: Path, ref: ConfigReference)
    requires IsReference(v, at + [segment], p, ref)
    ensures |p| > |at| && p[|at|] == segment
  {
    var text :| TextAt(v, at + [segment], p, text) && ParseConfigReference(text) == Some(ref);
    TextIsBelow(v, at + [segment], p, text);
    assert p[|at|] == p[..|at| + 1][|at|];
  }

  lemma DisjointListsJoin(a: Found, b: Found)
    requires forall i, j :: 0 <= i < j < |a| ==> a[i].0 != a[j].0
    requires forall i, j :: 0 <= i < j < |b| ==> b[i].0 != b[j].0
    requires forall i, j :: 0 <= i < |a| && 0 <= j < |b| ==> a[i].0 != b[j].0
    ensures forall i, j :: 0 <= i < j < |a + b| ==> (a + b)[i].0 != (a + b)[j].0
  {
  }

  lemma TableListsGrow(t: map<string, Value>, keys: set<string>, key: string, at: Path, found: Found, more: Found)
    requires key in t && key !in keys && TableLists(t, keys, at, found) && Lists(t[key], at + [key], more)
    ensures TableLists(t, keys + {key}, at, found + more)
  {
    forall i, j | 0 <= i < |found| && 0 <= j < |more| ensures found[i].0 != more[j].0 {
      assert (found[i].0, found[i].1) in found && (more[j].0, more[j].1) in more;
      assert TableReference(t, keys, at, found[i].0, found[i].1);
      var other :| other in keys && other in t && IsReference(t[other], at + [other], found[i].0, found[i].1);
      ReferenceSegment(t[other], at, other, found[i].0, found[i].1);
      ReferenceSegment(t[key], at, key, more[j].0, more[j].1);
    }
    DisjointListsJoin(found, more);
    forall p, ref ensures (p, ref) in found + more <==> TableReference(t, keys + {key}, at, p, ref) {
      assert TableReference(t, keys + {key}, at, p, ref) <==>
             TableReference(t, keys, at, p, ref) || IsReference(t[key], at + [key], p, ref);
    }
  }

  lemma ArrayListsGrow(a: seq<Value>, n: nat, at: Path, found: Found, more: Found)
    requires n < |a| && ArrayLists(a, n, at, found) && Lists(a[n], at + [Decimal(n)], more)
    ensures ArrayLists(a, n + 1, at, found + more)
  {
    forall i, j | 0 <= i < |found| && 0 <= j < |more| ensures found[i].0 != more[j].0 {
      assert (found[i].0, found[i].1) in found && (more[j].0, more[j].1) in more;
      assert ArrayReference(a, n, at, found[i].0, found[i].1);
      var m :| 0 <= m < n && m < |a| && IsReference(a[m], at + [Decimal(m)], found[i].0, found[i].1);
      ReferenceSegment(a[m], at, Decimal(m), found[i].0, found[i].1);
      ReferenceSegment(a[n], at, Decimal(n), more[j].0, more[j].1);
      DecimalRoundTrip(m);
      DecimalRoundTrip(n);
    }
    DisjointListsJoin(found, more);
    forall p, ref ensures (p, ref) in found + more <==> ArrayReference(a, n + 1, at, p, ref) {
      assert ArrayReference(a, n + 1, at, p, ref) <==>
             ArrayReference(a, n, at, p, ref) || IsReference(a[n], at + [Decimal(n)], p, ref);
    }
  }

  /** Collecting below `at` either appends the references there or reports a leaf that is at fault. */
  ghost predicate Collected(v: Value, at: Path, mode: Mode, before: Found, after: Found, r: Result<(), ResolveError>) {
    && (r.Ok? ==> !Faulty(v, at, mode) && before <= after && Lists(v, at, after[|before|..]))
    && (r.Err? ==> HasFault(v, at, mode, r.error))
  }

  ghost predicate HasFault(v: Value, at: Path, mode: Mode, e: ResolveError) {
    exists p, text :: TextAt(v, at, p, text) && LeafFault(text, p, mode) == Some(e)
  }

  /** Visits the tree, tables in any key order, and appends the references found. */
  method CollectConfigReferences(v: Value, at: Path, references: Found, mode: Mode)
    returns (references': Found, r: Result<(), ResolveError>)
    ensures Collected(v, at, mode, references, references', r)
    decreases v, 1
  {
    match v
    case Table(_) => references', r := CollectInTable(v, at, references, mode);
    case Array(_) => references', r := CollectInArray(v, at, references, mode);
    case Str(text) => references', r := CollectInString(text, at, references, mode);
    case _ =>
      references', r := references, Ok(());
      assert references'[|references|..] == [];
  }

  method CollectInTable(v: Value, at: Path, references: Found, mode: Mode)
    returns (references': Found, r: Result<(), ResolveError>)
    requires v.Table?
    ensures Collected(v, at, mode, references, references', r)
    decreases v, 0
  {
    var t := v.entries;
    references' := references;
    var unseen := t.Keys;
    ghost var seen: set<string> := {};
    while unseen != {}
      invariant unseen + seen == t.Keys && unseen !! seen
      invariant references <= references' && TableLists(t, seen, at, references'[|references|..])
      invariant forall key :: key in seen ==> !Faulty(t[key], at + [key], mode)
      decreases unseen
    {
      var key :| key in unseen;
      ghost var before := references';
      references', r := CollectConfigReferences(t[key], at + [key], references', mode);
      if r.Err? {
        FaultInTable(t, key, at, mode, r.error);
        return;
      }
      TableListsGrow(t, seen, key, at, before[|references|..], references'[|before|..]);
      assert references'[|references|..] == before[|references|..] + references'[|before|..];
      unseen, seen := unseen - {key}, seen + {key};
    }
    TableCollected(t, at, references'[|references|..], mode);
    r := Ok(());
  }

  method CollectInArray(v: Value, at: Path, references: Found, mode: Mode)
    returns (references': Found, r: Result<(), ResolveError>)
    requires v.Array?
    ensures Collected(v, at, mode, references, references', r)
    decreases v, 0
  {
    var a := v.values;
    references' := references;
    for i := 0 to |a|
      invariant ArrayUpTo(a, i, at, mode, references, references')
    {
      ghost var before := references';
      references', r := CollectConfigReferences(a[i], at + [Decimal(i)], references', mode);
      if r.Err? {
        FaultInArray(a, i, at, mode, r.error);
        return;
      }
      ArrayAdvances(a, i, at, mode, references, before, references');
    }
    ArrayCollected(a, at, references'[|references|..], mode);
    r := Ok(());
  }

  /** The first `n` elements hold no fault, and their references were appended. */
  ghost predicate ArrayUpTo(a: seq<Value>, n: nat, at: Path, mode: Mode, before: Found, after: Found) {
    && before <= after && ArrayLists(a, n, at, after[|before|..])
    && forall j :: 0 <= j < n && j < |a| ==> !Faulty(a[j], at + [Decimal(j)], mode)
  }

  lemma ArrayAdvances(a: seq<Value>, n: nat, at: Path, mode: Mode, before: Found, middle: Found, after: Found)
    requires n < |a| && ArrayUpTo(a, n, at, mode, before, middle)
    requires Collected(a[n], at + [Decimal(n)], mode, middle, after, Ok(()))
    ensures ArrayUpTo(a, n + 1, at, mode, before, after)
  {
    ArrayListsGrow(a, n, at, middle[|before|..], after[|middle|..]);
    AppendedSince(before, middle, after);
  }

  lemma AppendedSince(before: Found, middle: Found, after: Found)
    requires before <= middle <= after
    ensures before <= after && after[|before|..] == middle[|before|..] + after[|middle|..]
  {
  }

  method CollectInString(text: string, at: Path, references: Found, mode: Mode)
    returns (references': Found, r: Result<(), ResolveError>)
    ensures Collected(Str(text), at, mode, references, references', r)
  {
    StringLeaf(text, at);
    assert TextAt(Str(text), at, at, text);
    references' := references;
    assert references'[|references|..] == [];
    var parsed := ParseConfigReference(text);
    if parsed.Some? {
      if IsTopologyIdentityPath(at) {
        return references', Err(TopologyIdentity(at));
      }
      if IsBackplaneBundlePath(at) {
        return references', Err(BackplaneBundle);
      }
      references' := references' + [(at, parsed.value)];
      assert references'[|references|..] == [(at, parsed.value)];
    } else if mode == Production && ContainsOpening(text) {
      return references', Err(Malformed(at));
    }
    r := Ok(());
  }

  lemma StringLeaf(text: string, at: Path)
    ensures forall p, t :: TextAt(Str(text), at, p, t) <==> p == at && t == text
    ensures forall p, ref :: IsReference(Str(text), at, p, ref) <==> p == at && ParseConfigReference(text) == Some(ref)
    ensures forall mode :: Faulty(Str(text), at, mode) <==> LeafFault(text, at, mode).Some?
  {
  }

  lemma FaultInTable(t: map<string, Value>, key: string, at: Path, mode: Mode, e: ResolveError)
    requires key in t && HasFault(t[key], at + [key], mode, e)
    ensures HasFault(Table(t), at, mode, e)
  {
  }

  lemma FaultInArray(a: seq<Value>, i: nat, at: Path, mode: Mode, e: ResolveError)
    requires i < |a| && HasFault(a[i], at + [Decimal(i)], mode, e)
    ensures HasFault(Array(a), at, mode, e)
  {
  }

  lemma TableCollected(t: map<string, Value>, at: Path, found: Found, mode: Mode)
    requires TableLists(t, t.Keys, at, found) && forall key :: key in t ==> !Faulty(t[key], at + [key], mode)
    ensures Lists(Table(t), at, found) && !Faulty(Table(t), at, mode)
  {
  }

  lemma ArrayCollected(a: seq<Value>, at: Path, found: Found, mode: Mode)
    requires ArrayLists(a, |a|, at, found) && forall i :: 0 <= i < |a| ==> !Faulty(a[i], at + [Decimal(i)], mode)
    ensures Lists(Array(a), at, found) && !Faulty(Array(a), at, mode)
  {
  }

  // ---------------------------------------------------------------- substituting in one pass

  /** One pass over the original tree: reference leaves become their resolved text, nothing else changes. */
  function Substitute(v: Value, at: Path, resolve: Resolver): Value
    decreases v
  {
    match v
    case Str(text) =>
      (match ParseConfigReference(text)
       case Some(ref) => (match resolve(at, ref) case Some(x) => Str(x) case None => v)
       case None => v)
    case Table(t) => Table(map key | key in t :: Substitute(t[key], at + [key], resolve))
    case Array(a) => Array(seq(|a|, i requires 0 <= i < |a| => Substitute(a[i], at + [Decimal(i)], resolve)))
    case _ => v
  }

  ghost predicate AllResolve(v: Value, at: Path, resolve: Resolver) {
    forall p, ref :: IsReference(v, at, p, ref) ==> resolve(p, ref).Some?
  }

  /** Arrays fit the address space. */
  ghost predicate Sized(v: Value)
    decreases v
  {
    match v
    case Table(t) => forall key :: key in t ==> Sized(t[key])
    case Array(a) => |a| <= USIZE_MAX && forall i :: 0 <= i < |a| ==> Sized(a[i])
    case _ => true
  }

  /** A tree without references is left as it is. */
  lemma {:induction false} NothingToSubstitute(v: Value, at: Path, resolve: Resolver)
    requires forall p, ref :: !IsReference(v, at, p, ref)
    ensures Substitute(v, at, resolve) == v
    decreases v
  {
    match v
    case Str(text) =>
      var parsed := ParseConfigReference(text);
      if parsed.Some? {
        ReferenceHere(text, at, parsed.value);
        assert false;
      }
    case Table(t) =>
      forall key | key in t ensures Substitute(t[key], at + [key], resolve) == t[key] {
        forall p, ref ensures !IsReference(t[key], at + [key], p, ref) {
          if IsReference(t[key], at + [key], p, ref) { ReferenceInTable(t, key, at, p, ref); }
        }
        NothingToSubstitute(t[key], at + [key], resolve);
      }
    case Array(a) =>
      forall i | 0 <= i < |a| ensures Substitute(a[i], at + [Decimal(i)], resolve) == a[i] {
        forall p, ref ensures !IsReference(a[i], at + [Decimal(i)], p, ref) {
          if IsReference(a[i], at + [Decimal(i)], p, ref) { ReferenceInArray(a, i, at, p, ref); }
        }
        NothingToSubstitute(a[i], at + [Decimal(i)], resolve);
      }
    case _ =>
  }

  lemma ReferenceHere(text: string, at: Path, ref: ConfigReference)
    requires ParseConfigReference(text) == Some(ref)
    ensures IsReference(Str(text), at, at, ref)
  {
  }

  lemma ReferenceInTable(t: map<string, Value>, key: string, at: Path, p: Path, ref: ConfigReference)
    requires key in t && IsReference(t[key], at + [key], p, ref)
    ensures IsReference(Table(t), at, p, ref)
  {
  }

  lemma ReferenceInArray(a: seq<Value>, i: nat, at: Path, p: Path, ref: ConfigReference)
    requires i < |a| && IsReference(a[i], at + [Decimal(i)], p, ref)
    ensures IsReference(Array(a), at, p, ref)
  {
  }

  // ---------------------------------------------------------------- substituting one by one

  /** The original tree with the string leaves at the paths in `done` replaced. */
  ghost function Patched(v: Value, at: Path, done: map<Path, string>): Value
    decreases v
  {
    match v
    case Str(text) => if at in done then Str(done[at]) else v
    case Table(t) => Table(map key | key in t :: Patched(t[key], at + [key], done))
    case Array(a) => Array(seq(|a|, i requires 0 <= i < |a| => Patched(a[i], at + [Decimal(i)], done)))
    case _ => v
  }

  lemma {:induction false} PatchedNowhere(v: Value, at: Path)
    ensures Patched(v, at, map[]) == v
    decreases v
  {
    match v
    case Table(t) => forall key | key in t { PatchedNowhere(t[key], at + [key]); }
    case Array(a) => forall i | 0 <= i < |a| { PatchedNowhere(a[i], at + [Decimal(i)]); }
    case _ =>
  }

  predicate Below(at: Path, p: Path) { |at| <= |p| && p[..|at|] == at }

  lemma BelowStep(at: Path, segment: string, p: Path)
    ensures Below(at + [segment], p) <==> |p| > |at| && Below(at, p) && p[|at|] == segment
  {
  }

  /** Patching a place outside a subtree does not change the subtree. */
  lemma {:induction false} PatchElsewhere(v: Value, at: Path, done: map<Path, string>, p: Path, x: string)
    requires !Below(at, p)
    ensures Patched(v, at, done[p := x]) == Patched(v, at, done)
    decreases v
  {
    match v
    case Table(t) =>
      forall key | key in t ensures Patched(t[key], at + [key], done[p := x]) == Patched(t[key], at + [key], done) {
        BelowStep(at, key, p);
        PatchElsewhere(t[key], at + [key], done, p, x);
      }
    case Array(a) =>
      forall i | 0 <= i < |a|
        ensures Patched(a[i], at + [Decimal(i)], done[p := x]) == Patched(a[i], at + [Decimal(i)], done)
      {
        BelowStep(at, Decimal(i), p);
        PatchElsewhere(a[i], at + [Decimal(i)], done, p, x);
      }
    case _ =>
  }

  /** The child of a container below which the leaf lies. */
  lemma TextInTable(t: map<string, Value>, at: Path, q: Path, text: string)
    requires TextAt(Table(t), at, at + q, text)
    ensures q != [] && q[0] in t && TextAt(t[q[0]], at + [q[0]], at + [q[0]] + q[1..], text)
  {
    var key :| key in t && TextAt(t[key], at + [key], at + q, text);
    TextIsBelow(t[key], at + [key], at + q, text);
    assert (at + q)[..|at| + 1][|at|] == key;
    assert at + [q[0]] + q[1..] == at + q;
  }

  lemma TextInArray(a: seq<Value>, at: Path, q: Path, text: string) returns (i: nat)
    requires TextAt(Array(a), at, at + q, text)
    ensures q != [] && i < |a| && q[0] == Decimal(i) && TextAt(a[i], at + [q[0]], at + [q[0]] + q[1..], text)
  {
    i :| 0 <= i < |a| && TextAt(a[i], at + [Decimal(i)], at + q, text);
    TextIsBelow(a[i], at + [Decimal(i)], at + q, text);
    assert (at + q)[..|at| + 1][|at|] == Decimal(i);
    assert at + [q[0]] + q[1..] == at + q;
  }

  lemma LeafHere(v: Value, at: Path, text: string)
    requires TextAt(v, at, at, text)
    ensures v.Str?
  {
    TextIsBelow(v, at, at, text);
  }

  lemma PatchTableEntry(t: map<string, Value>, at: Path, done: map<Path, string>, q: Path, x: string)
    requires q != [] && q[0] in t
    ensures var p := at + q;
            Patched(Table(t), at, done[p := x]) ==
            Table(Patched(Table(t), at, done).entries[q[0] := Patched(t[q[0]], at + [q[0]], done[p := x])])
  {
    var p := at + q;
    forall key | key in t && key != q[0]
      ensures Patched(t[key], at + [key], done[p := x]) == Patched(t[key], at + [key], done)
    {
      BelowStep(at, key, p);
      PatchElsewhere(t[key], at + [key], done, p, x);
    }
  }

  lemma PatchArrayEntry(a: seq<Value>, at: Path, done: map<Path, string>, q: Path, i: nat, x: string)
    requires q != [] && i < |a| && q[0] == Decimal(i)
    ensures var p := at + q;
            Patched(Array(a), at, done[p := x]) ==
            Array(Patched(Array(a), at, done).values[i := Patched(a[i], at + [q[0]], done[p := x])])
  {
    var p := at + q;
    DecimalRoundTrip(i);
    forall j | 0 <= j < |a| && j != i
      ensures Patched(a[j], at + [Decimal(j)], done[p := x]) == Patched(a[j], at + [Decimal(j)], done)
    {
      DecimalRoundTrip(j);
      BelowStep(at, Decimal(j), p);
      PatchElsewhere(a[j], at + [Decimal(j)], done, p, x);
    }
  }

  /** Overwriting one string leaf of the patched tree is one more patch, and never fails. */
  lemma {:induction false} SetIsPatch(v: Value, at: Path, done: map<Path, string>, q: Path, text: string, x: string)
    requires Sized(v) && q != [] && TextAt(v, at, at + q, text)
    ensures SetInner(Patched(v, at, done), q, Str(x)) == SetResult(Patched(v, at, done[at + q := x]), None)
    decreases v, 0
  {
    if v.Table? {
      var t := v.entries;
      TextInTable(t, at, q, text);
      PatchTableEntry(t, at, done, q, x);
      SetIsPatchBelow(t[q[0]], at, done, q, text, x);
    } else {
      assert |at + q| > |at|;
      var i := TextInArray(v.values, at, q, text);
      ParseDecimal(i);
      PatchArrayEntry(v.values, at, done, q, i, x);
      SetIsPatchBelow(v.values[i], at, done, q, text, x);
    }
  }

  lemma {:induction false} SetIsPatchBelow(c: Value, at: Path, done: map<Path, string>, q: Path,
                                           text: string, x: string)
    requires Sized(c) && q != [] && TextAt(c, at + [q[0]], at + [q[0]] + q[1..], text)
    ensures |q| == 1 ==> Patched(c, at + [q[0]], done[at + q := x]) == Str(x)
    ensures |q| > 1 ==> SetInner(Patched(c, at + [q[0]], done), q[1..], Str(x)) ==
                        SetResult(Patched(c, at + [q[0]], done[at + q := x]), None)
    decreases c, 1
  {
    assert at + [q[0]] + q[1..] == at + q;
    if |q| == 1 {
      assert at + [q[0]] == at + q;
      LeafHere(c, at + [q[0]], text);
    } else {
      SetIsPatch(c, at + [q[0]], done, q[1..], text, x);
    }
  }

  /** A place holds one text only. */
  lemma {:induction false} OneTextPerPlace(v: Value, at: Path, p: Path, s: string, t: string)
    requires TextAt(v, at, p, s) && TextAt(v, at, p, t)
    ensures s == t
    decreases v
  {
    TextIsBelow(v, at, p, s);
    if v.Table? || v.Array? {
      var q := p[|at|..];
      assert p == at + q;
      if v.Table? {
        TextInTable(v.entries, at, q, s);
        TextInTable(v.entries, at, q, t);
        OneTextPerPlace(v.entries[q[0]], at + [q[0]], at + [q[0]] + q[1..], s, t);
      } else {
        var i := TextInArray(v.values, at, q, s);
        var j := TextInArray(v.values, at, q, t);
        DecimalRoundTrip(i);
        DecimalRoundTrip(j);
        OneTextPerPlace(v.values[i], at + [q[0]], at + [q[0]] + q[1..], s, t);
      }
    }
  }

  /** The patches are the resolved references of the tree and nothing else. */
  ghost predicate PatchesReferences(v: Value, at: Path, done: map<Path, string>, resolve: Resolver) {
    forall p, text :: TextAt(v, at, p, text) ==>
      match ParseConfigReference(text)
      case Some(ref) => p in done && resolve(p, ref) == Some(done[p])
      case None => p !in done
  }

  lemma {:induction false} FullyPatched(v: Value, at: Path, done: map<Path, string>, resolve: Resolver)
    requires PatchesReferences(v, at, done, resolve)
    ensures Patched(v, at, done) == Substitute(v, at, resolve)
    decreases v
  {
    match v
    case Str(text) => assert TextAt(v, at, at, text);
    case Table(t) =>
      forall key | key in t ensures Patched(t[key], at + [key], done) == Substitute(t[key], at + [key], resolve) {
        forall p, text | TextAt(t[key], at + [key], p, text) ensures TextAt(v, at, p, text) { }
        FullyPatched(t[key], at + [key], done, resolve);
      }
    case Array(a) =>
      forall i | 0 <= i < |a|
        ensures Patched(a[i], at + [Decimal(i)], done) == Substitute(a[i], at + [Decimal(i)], resolve)
      {
        forall p, text | TextAt(a[i], at + [Decimal(i)], p, text) ensures TextAt(v, at, p, text) { }
        FullyPatched(a[i], at + [Decimal(i)], done, resolve);
      }
    case _ =>
  }

  /** The patches made for the first `n` references found. */
  ghost predicate PatchesFound(found: Found, n: nat, done: map<Path, string>, resolve: Resolver) {
    && n <= |found|
    && (forall i :: 0 <= i < n ==> found[i].0 in done && resolve(found[i].0, found[i].1) == Some(done[found[i].0]))
    && (forall p :: p in done ==> exists i :: 0 <= i < n && found[i].0 == p)
  }

  lemma FoundReferencePatched(v: Value, found: Found, done: map<Path, string>, resolve: Resolver,
                              p: Path, ref: ConfigReference)
    requires Lists(v, [], found) && PatchesFound(found, |found|, done, resolve) && IsReference(v, [], p, ref)
    ensures p in done && resolve(p, ref) == Some(done[p])
  {
  }

  lemma PlainTextUnpatched(v: Value, found: Found, done: map<Path, string>, resolve: Resolver, p: Path, text: string)
    requires Lists(v, [], found) && PatchesFound(found, |found|, done, resolve)
    requires TextAt(v, [], p, text) && ParseConfigReference(text).None?
    ensures p !in done
  {
    if p in done {
      var i :| 0 <= i < |found| && found[i].0 == p;
      assert (found[i].0, found[i].1) in found;
      var other :| TextAt(v, [], p, other) && ParseConfigReference(other) == Some(found[i].1);
      OneTextPerPlace(v, [], p, text, other);
      assert false;
    }
  }

  lemma AllFoundPatched(v: Value, found: Found, done: map<Path, string>, resolve: Resolver)
    requires Lists(v, [], found) && PatchesFound(found, |found|, done, resolve)
    ensures PatchesReferences(v, [], done, resolve) && AllResolve(v, [], resolve)
  {
    forall p, ref | IsReference(v, [], p, ref) ensures resolve(p, ref).Some? {
      FoundReferencePatched(v, found, done, resolve, p, ref);
    }
    forall p, text | TextAt(v, [], p, text)
      ensures match ParseConfigReference(text)
              case Some(ref) => p in done && resolve(p, ref) == Some(done[p])
              case None => p !in done
    {
      var parsed := ParseConfigReference(text);
      if parsed.Some? {
        assert IsReference(v, [], p, parsed.value);
        FoundReferencePatched(v, found, done, resolve, p, parsed.value);
      } else {
        PlainTextUnpatched(v, found, done, resolve, p, text);
      }
    }
  }

  lemma FoundIsText(root: Value, found: Found, i: nat) returns (text: string)
    requires Lists(root, [], found) && i < |found|
    ensures found[i].0 == [] <==> root.Str?
    ensures TextAt(root, [], [] + found[i].0, text)
    ensures IsReference(root, [], found[i].0, found[i].1)
  {
    assert (found[i].0, found[i].1) in found;
    text :| TextAt(root, [], found[i].0, text) && ParseConfigReference(text) == Some(found[i].1);
    TextIsBelow(root, [], found[i].0, text);
    assert [] + found[i].0 == found[i].0;
  }

  lemma FoundIsSet(root: Value, found: Found, i: nat, done: map<Path, string>, x: string)
    requires !root.Str? && Sized(root) && Lists(root, [], found) && i < |found|
    ensures SetValueAtPath(Patched(root, [], done), found[i].0, Str(x)) ==
            SetResult(Patched(root, [], done[found[i].0 := x]), None)
  {
    var p := found[i].0;
    var text := FoundIsText(root, found, i);
    SetIsPatch(root, [], done, p, text, x);
    assert [] + p == p;
  }

  lemma FoundGrows(found: Found, i: nat, done: map<Path, string>, resolve: Resolver, x: string,
                   done': map<Path, string>)
    requires i < |found| && forall j, k :: 0 <= j < k < |found| ==> found[j].0 != found[k].0
    requires PatchesFound(found, i, done, resolve) && resolve(found[i].0, found[i].1) == Some(x)
    requires done' == done[found[i].0 := x]
    ensures PatchesFound(found, i + 1, done', resolve)
  {
  }

  /** The whole configuration is one reference, which has no path to be written at. */
  predicate IsBareReference(root: Value) { root.Str? && ParseConfigReference(root.text).Some? }

  lemma BareReferenceFound(root: Value, found: Found)
    requires Lists(root, [], found) && IsBareReference(root)
    ensures found != []
  {
    ReferenceHere(root.text, [], ParseConfigReference(root.text).value);
  }
}
