/**
  Resolving the references of a configuration as the configuration service runs it: secrets with
  their leases, files, and a record for every value that was bound.
  */
module ConfigBindings {
  import opened Wrappers
  import opened Sequences
  import opened Text
  import opened ConfigReferences
  import opened ConfigTree
  import opened ConfigFlatten
  import opened ConfigResolve
  import StringOrder
  import StringSorting

  /** What a secret provider says; `lease` is the time at which the value expires. */
  datatype Answer = Answer(text: string, version: Option<string>, lease: Option<nat>)

  /** Secret provider, file reads and the clock; each may answer differently at every place. */
  datatype Sources = Sources(
    secret: (Path, string) -> Option<Answer>,
    file: (Path, string) -> Option<string>,
    provider: string,
    now: Path -> nat)

  datatype Binding = Binding(
    configKey: string, secretKey: string, provider: string, version: Option<string>, lease: Option<nat>)

  predicate IsExpired(src: Sources, p: Path, a: Answer) { a.lease.Some? && a.lease.value <= src.now(p) }

  function AnswerFor(src: Sources, p: Path, ref: ConfigReference): Result<Answer, ResolveError> {
    match ref
    case Secret(key) =>
      (match src.secret(p, key)
       case None => Err(Unresolved(p))
       case Some(a) => if IsExpired(src, p, a) then Err(LeaseExpired(p)) else Ok(a))
    case File(path) =>
      (match src.file(p, path)
       case None => Err(Unresolved(p))
       case Some(text) => Ok(Answer(text, None, None)))
  }

  function Texts(src: Sources): Resolver {
    (p: Path, ref: ConfigReference) => match AnswerFor(src, p, ref) case Ok(a) => Some(a.text) case Err(_) => None
  }

  function ConfigKey(p: Path): string { if p == [] then "" else Join(p) }

  /** The record of one bound value. */
  function BindingOf(src: Sources, p: Path, ref: ConfigReference): Binding {
    var a := AnswerFor(src, p, ref);
    Binding(ConfigKey(p),
            match ref case Secret(key) => key case File(path) => path,
            if ref.Secret? then src.provider else "file",
            if a.Ok? then a.value.version else None,
            if a.Ok? then a.value.lease else None)
  }

  function Bound(src: Sources): ((Path, ConfigReference)) -> seq<Binding> {
    (x: (Path, ConfigReference)) => [BindingOf(src, x.0, x.1)]
  }

  predicate ByConfigKey(a: Binding, b: Binding) { StringOrder.Less(a.configKey, b.configKey) }

  lemma ByConfigKeyIsOrder()
    ensures WeakOrder(ByConfigKey)
  {
    StringSorting.LessIsOrder();
  }

  /** One record per reference of the tree, sorted by configuration key. */
  ghost predicate RecordsBindings(root: Value, src: Sources, bindings: seq<Binding>) {
    SortedBy(ByConfigKey, bindings) && exists found :: Records(root, src, bindings, found)
  }

  ghost predicate Records(root: Value, src: Sources, bindings: seq<Binding>, found: Found) {
    Lists(root, [], found) && multiset(bindings) == multiset(FlatMap(Bound(src), found))
  }

  // ---------------------------------------------------------------- the records are determined

  lemma {:induction false} TextPathIsDotFree(v: Value, at: Path, p: Path, text: string)
    requires WellKeyed(v) && TextAt(v, at, p, text) && forall i :: 0 <= i < |at| ==> DotFree(at[i])
    ensures forall i :: 0 <= i < |p| ==> DotFree(p[i])
    decreases v
  {
    match v
    case Table(t) =>
      var key :| key in t && TextAt(t[key], at + [key], p, text);
      assert GoodKey(key);
      TextPathIsDotFree(t[key], at + [key], p, text);
    case Array(a) =>
      var i :| 0 <= i < |a| && TextAt(a[i], at + [Decimal(i)], p, text);
      NoDotInDecimal(i);
      TextPathIsDotFree(a[i], at + [Decimal(i)], p, text);
    case _ =>
  }

  /** Different references have different configuration keys. */
  lemma KeysDiffer(root: Value, found: Found, x: (Path, ConfigReference), y: (Path, ConfigReference))
    requires root.Table? && WellKeyed(root) && Lists(root, [], found) && x in found && y in found && x != y
    ensures ConfigKey(x.0) != ConfigKey(y.0)
  {
    var i :| 0 <= i < |found| && found[i] == x;
    var j :| 0 <= j < |found| && found[j] == y;
    KeySplits(root, found, i);
    KeySplits(root, found, j);
  }

  lemma KeySplits(root: Value, found: Found, i: nat)
    requires root.Table? && WellKeyed(root) && Lists(root, [], found) && i < |found|
    ensures found[i].0 != [] && Split(ConfigKey(found[i].0)) == found[i].0
  {
    var text := FoundIsText(root, found, i);
    assert [] + found[i].0 == found[i].0;
    TextPathIsDotFree(root, [], found[i].0, text);
    SplitJoin(found[i].0);
  }

  lemma ListsPermute(v: Value, a: Found, b: Found)
    requires Lists(v, [], a) && Lists(v, [], b)
    ensures multiset(a) == multiset(b)
  {
    assert Distinct(a) && Distinct(b);
    DistinctByCount(a);
    DistinctByCount(b);
    forall x: (Path, ConfigReference) ensures multiset(a)[x] == multiset(b)[x] {
      assert x == (x.0, x.1);
      assert x in a <==> IsReference(v, [], x.0, x.1);
      assert x in b <==> IsReference(v, [], x.0, x.1);
      assert x in multiset(a) <==> x in a;
      assert x in multiset(b) <==> x in b;
    }
  }

  lemma RecordsComparable(root: Value, src: Sources, bindings: seq<Binding>, found: Found)
    requires root.Table? && WellKeyed(root) && Records(root, src, bindings, found)
    ensures Comparable(ByConfigKey, bindings)
  {
    forall a, b | a in bindings && b in bindings && a != b ensures ByConfigKey(a, b) || ByConfigKey(b, a) {
      var x := RecordOf(root, src, bindings, found, a);
      var y := RecordOf(root, src, bindings, found, b);
      KeysDiffer(root, found, x, y);
      StringOrder.LessTotal(a.configKey, b.configKey);
    }
  }

  lemma RecordOf(root: Value, src: Sources, bindings: seq<Binding>, found: Found, a: Binding)
    returns (x: (Path, ConfigReference))
    requires Records(root, src, bindings, found) && a in bindings
    ensures x in found && a == BindingOf(src, x.0, x.1)
  {
    assert a in multiset(bindings);
    assert a in FlatMap(Bound(src), found);
    InFlatMap(Bound(src), found, a);
    var i :| 0 <= i < |found| && a in Bound(src)(found[i]);
    x := found[i];
  }

  /** In a configuration with dot-free keys the records do not depend on the order of collection. */
  lemma BindingsAreDetermined(root: Value, src: Sources, a: seq<Binding>, b: seq<Binding>)
    requires root.Table? && WellKeyed(root) && RecordsBindings(root, src, a) && RecordsBindings(root, src, b)
    ensures a == b
  {
    var f :| Records(root, src, a, f);
    var g :| Records(root, src, b, g);
    ListsPermute(root, f, g);
    FlatMapPermutes(Bound(src), f, g);
    RecordsComparable(root, src, a, f);
    ByConfigKeyIsOrder();
    SortedIsUnique(ByConfigKey, a, b);
  }

  // ---------------------------------------------------------------- resolving

  /** There is an answer to the reference, and its lease has not expired. */
  predicate Answered(src: Sources, p: Path, ref: ConfigReference) {
    match ref
    case Secret(key) =>
      && src.secret(p, key).Some?
      && (src.secret(p, key).value.lease.None? || src.secret(p, key).value.lease.value > src.now(p))
    case File(file) => src.file(p, file).Some?
  }

  /** Every secret and every file referred to stands in the tree at the place of its reference. */
  ghost predicate HoldsAnswers(root: Value, src: Sources, root': Value) {
    && (forall p, key :: IsReference(root, [], p, Secret(key)) ==>
          src.secret(p, key).Some? && Lookup(root', p) == Some(Str(src.secret(p, key).value.text)))
    && (forall p, file :: IsReference(root, [], p, File(file)) ==>
          src.file(p, file).Some? && Lookup(root', p) == Some(Str(src.file(p, file).value)))
  }

  /** Every other string, and every other scalar, stands where it was. */
  ghost predicate KeepsRest(root: Value, root': Value) {
    && (forall p, text :: TextAt(root, [], p, text) && ParseConfigReference(text).None? ==>
          Lookup(root', p) == Some(Str(text)))
    && (forall p, v :: LeadsTo(root, p, v) && IsScalar(v) && !v.Str? ==> Lookup(root', p) == Some(v))
  }

  /** What was bound is on record: where, from whom, which version and until when. */
  ghost predicate OnRecord(root: Value, src: Sources, bindings: seq<Binding>) {
    && (forall p, key :: IsReference(root, [], p, Secret(key)) ==>
          && p != [] && src.secret(p, key).Some?
          && var a := src.secret(p, key).value; Binding(Join(p), key, src.provider, a.version, a.lease) in bindings)
    && (forall p, file :: IsReference(root, [], p, File(file)) ==>
          p != [] && Binding(Join(p), file, "file", None, None) in bindings)
  }

  lemma AnsweredExactly(src: Sources, p: Path, ref: ConfigReference)
    ensures Answered(src, p, ref) <==> Texts(src)(p, ref).Some?
  {
  }

  lemma AllAnsweredExactly(root: Value, src: Sources)
    ensures AllResolve(root, [], Texts(src)) <==> AllAnswered(root, src)
  {
    forall p, ref ensures Answered(src, p, ref) <==> Texts(src)(p, ref).Some? { AnsweredExactly(src, p, ref); }
  }

  ghost predicate AllAnswered(root: Value, src: Sources) {
    forall p, ref :: IsReference(root, [], p, ref) ==> Answered(src, p, ref)
  }

  /** One step along a plain path. */
  ghost predicate StepsTo(v: Value, segment: string, c: Value) {
    || (v.Table? && segment in v.entries && v.entries[segment] == c)
    || (v.Array? && exists i :: 0 <= i < |v.values| && segment == Decimal(i) && v.values[i] == c)
  }

  lemma StepSubstituted(v: Value, at: Path, segment: string, c: Value, resolve: Resolver)
    requires Sized(v) && StepsTo(v, segment, c)
    ensures c < v && Sized(c)
    ensures Child(Substitute(v, at, resolve), segment) == Some(Substitute(c, at + [segment], resolve))
  {
    if v.Array? {
      var i :| 0 <= i < |v.values| && segment == Decimal(i) && v.values[i] == c;
      ParseDecimal(i);
    }
  }

  /** Following the path, with array indices in plain decimal, leads to this node. */
  ghost predicate LeadsTo(v: Value, q: Path, c: Value)
    decreases |q|
  {
    if q == [] then c == v else exists b :: StepsTo(v, q[0], b) && LeadsTo(b, q[1..], c)
  }

  lemma FirstSegment(at: Path, q: Path)
    requires q != []
    ensures at + [q[0]] + q[1..] == at + q
  {
  }

  lemma LookupStep(v: Value, q: Path, b: Value)
    requires q != [] && Child(v, q[0]) == Some(b)
    ensures Lookup(v, q) == Lookup(b, q[1..])
  {
  }

  /** Substituting goes to every node, and reads it at the node's own place. */
  lemma {:induction false} NodeSubstituted(v: Value, at: Path, q: Path, c: Value, resolve: Resolver)
    requires Sized(v) && LeadsTo(v, q, c)
    ensures Lookup(Substitute(v, at, resolve), q) == Some(Substitute(c, at + q, resolve))
    decreases |q|
  {
    if q == [] {
      assert at + q == at;
    } else {
      var b :| StepsTo(v, q[0], b) && LeadsTo(b, q[1..], c);
      StepSubstituted(v, at, q[0], b, resolve);
      LookupStep(Substitute(v, at, resolve), q, Substitute(b, at + [q[0]], resolve));
      NodeSubstituted(b, at + [q[0]], q[1..], c, resolve);
      FirstSegment(at, q);
    }
  }

  lemma {:induction false} TextIsReached(v: Value, at: Path, q: Path, text: string)
    requires TextAt(v, at, at + q, text)
    ensures LeadsTo(v, q, Str(text))
    decreases v
  {
    if v.Table? {
      TextInTable(v.entries, at, q, text);
      TextIsReached(v.entries[q[0]], at + [q[0]], q[1..], text);
      assert StepsTo(v, q[0], v.entries[q[0]]);
    } else if v.Array? {
      var i := TextInArray(v.values, at, q, text);
      TextIsReached(v.values[i], at + [q[0]], q[1..], text);
      assert StepsTo(v, q[0], v.values[i]);
    } else {
      assert at + q == at && q == [];
    }
  }

  lemma TextSubstituted(root: Value, p: Path, text: string, resolve: Resolver)
    requires Sized(root) && TextAt(root, [], p, text)
    ensures Lookup(Substitute(root, [], resolve), p) == Some(Substitute(Str(text), p, resolve))
  {
    assert [] + p == p;
    TextIsReached(root, [], p, text);
    NodeSubstituted(root, [], p, Str(text), resolve);
  }

  lemma ReferenceSubstituted(root: Value, src: Sources, p: Path, ref: ConfigReference)
    requires Sized(root) && IsReference(root, [], p, ref) && Answered(src, p, ref)
    ensures Texts(src)(p, ref).Some?
    ensures Lookup(Substitute(root, [], Texts(src)), p) == Some(Str(Texts(src)(p, ref).value))
  {
    AnsweredExactly(src, p, ref);
    var text :| TextAt(root, [], p, text) && ParseConfigReference(text) == Some(ref);
    TextSubstituted(root, p, text, Texts(src));
  }

  lemma SubstitutionHoldsAnswers(root: Value, src: Sources)
    requires Sized(root) && AllAnswered(root, src)
    ensures HoldsAnswers(root, src, Substitute(root, [], Texts(src)))
    ensures KeepsRest(root, Substitute(root, [], Texts(src)))
  {
    forall p, key | IsReference(root, [], p, Secret(key))
      ensures src.secret(p, key).Some?
      ensures Lookup(Substitute(root, [], Texts(src)), p) == Some(Str(src.secret(p, key).value.text))
    {
      assert Answered(src, p, Secret(key));
      ReferenceSubstituted(root, src, p, Secret(key));
    }
    forall p, file | IsReference(root, [], p, File(file))
      ensures src.file(p, file).Some?
      ensures Lookup(Substitute(root, [], Texts(src)), p) == Some(Str(src.file(p, file).value))
    {
      assert Answered(src, p, File(file));
      ReferenceSubstituted(root, src, p, File(file));
    }
    forall p, text | TextAt(root, [], p, text) && ParseConfigReference(text).None?
      ensures Lookup(Substitute(root, [], Texts(src)), p) == Some(Str(text))
    {
      TextSubstituted(root, p, text, Texts(src));
    }
    forall p, v | LeadsTo(root, p, v) && IsScalar(v) && !v.Str?
      ensures Lookup(Substitute(root, [], Texts(src)), p) == Some(v)
    {
      NodeSubstituted(root, [], p, v, Texts(src));
    }
  }

  lemma ReferenceIsRecorded(root: Value, src: Sources, bindings: seq<Binding>, p: Path, ref: ConfigReference)
    requires RecordsBindings(root, src, bindings) && IsReference(root, [], p, ref)
    ensures BindingOf(src, p, ref) in bindings
  {
    var found :| Records(root, src, bindings, found);
    assert (p, ref) in found;
    var i :| 0 <= i < |found| && found[i] == (p, ref);
    assert BindingOf(src, p, ref) in Bound(src)(found[i]);
    InFlatMap(Bound(src), found, BindingOf(src, p, ref));
    assert BindingOf(src, p, ref) in multiset(bindings);
  }

  lemma ReferencesAreRecorded(root: Value, src: Sources, bindings: seq<Binding>)
    requires RecordsBindings(root, src, bindings) && AllAnswered(root, src) && !IsBareReference(root)
    ensures OnRecord(root, src, bindings)
  {
    forall p, ref | IsReference(root, [], p, ref) ensures p != [] && BindingOf(src, p, ref) in bindings {
      NeverAtTop(root, p, ref);
      ReferenceIsRecorded(root, src, bindings, p, ref);
    }
    forall p, key | IsReference(root, [], p, Secret(key))
      ensures src.secret(p, key).Some?
      ensures var a := src.secret(p, key).value; Binding(Join(p), key, src.provider, a.version, a.lease) in bindings
    {
      assert Answered(src, p, Secret(key)) && BindingOf(src, p, Secret(key)) in bindings;
    }
    forall p, file | IsReference(root, [], p, File(file))
      ensures Binding(Join(p), file, "file", None, None) in bindings
    {
      assert Answered(src, p, File(file)) && BindingOf(src, p, File(file)) in bindings;
    }
  }

  lemma NeverAtTop(root: Value, p: Path, ref: ConfigReference)
    requires IsReference(root, [], p, ref) && !IsBareReference(root)
    ensures p != []
  {
    var text :| TextAt(root, [], p, text) && ParseConfigReference(text) == Some(ref);
    TextIsBelow(root, [], p, text);
  }

  /** A reference without a usable answer, or a bare reference. */
  ghost predicate Unbound(root: Value, src: Sources, e: ResolveError) {
    || (exists p, ref :: IsReference(root, [], p, ref) && !Answered(src, p, ref) && IsRefusal(src, p, ref, e))
    || (IsBareReference(root) && e == SetFailed(EmptyPath))
  }

  /** No answer is one error, an expired lease another. */
  predicate IsRefusal(src: Sources, p: Path, ref: ConfigReference, e: ResolveError) {
    e == if ref.Secret? && src.secret(p, ref.key).Some? then LeaseExpired(p) else Unresolved(p)
  }

  /** A leaf at fault, or a reference that could not be bound. */
  ghost predicate Explains(root: Value, mode: Mode, src: Sources, e: ResolveError) {
    HasFault(root, [], mode, e) || Unbound(root, src, e)
  }

  lemma UnboundFails(root: Value, src: Sources, e: ResolveError)
    requires Unbound(root, src, e)
    ensures !AllResolve(root, [], Texts(src)) || IsBareReference(root)
  {
    if p, ref :| IsReference(root, [], p, ref) && !Answered(src, p, ref) && IsRefusal(src, p, ref, e) {
      AnsweredExactly(src, p, ref);
    }
  }

  lemma RecordAdded(src: Sources, found: Found, i: nat)
    requires i < |found|
    ensures FlatMap(Bound(src), found[..i + 1]) ==
            FlatMap(Bound(src), found[..i]) + [BindingOf(src, found[i].0, found[i].1)]
  {
    assert found[..i + 1][..i] == found[..i];
  }

  /** The tree and the records after the first `i` references. */
  ghost predicate Midway(root: Value, src: Sources, found: Found, i: nat, done: map<Path, string>, tree: Value,
                         bindings: seq<Binding>)
  {
    && i <= |found| && (root.Str? ==> i == 0)
    && tree == Patched(root, [], done) && PatchesFound(found, i, done, Texts(src))
    && bindings == FlatMap(Bound(src), found[..i])
  }

  /** Asks the secret provider or reads the file, and makes the record of it. */
  method Obtain(src: Sources, path: Path, reference: ConfigReference)
    returns (r: Result<(string, Binding), ResolveError>)
    ensures r.Ok? <==> Answered(src, path, reference)
    ensures r.Ok? ==> Texts(src)(path, reference) == Some(r.value.0) && r.value.1 == BindingOf(src, path, reference)
    ensures r.Err? ==> IsRefusal(src, path, reference, r.error)
  {
    match reference
    case Secret(key) =>
      var resolved := src.secret(path, key);
      if resolved.None? {
        return Err(Unresolved(path));
      }
      if resolved.value.lease.Some? && resolved.value.lease.value <= src.now(path) {
        return Err(LeaseExpired(path));
      }
      var record := Binding(ConfigKey(path), key, src.provider, resolved.value.version, resolved.value.lease);
      r := Ok((resolved.value.text, record));
    case File(file) =>
      var content := src.file(path, file);
      if content.None? {
        return Err(Unresolved(path));
      }
      r := Ok((content.value, Binding(ConfigKey(path), file, "file", None, None)));
  }

  lemma UnansweredIsUnbound(root: Value, src: Sources, p: Path, ref: ConfigReference, e: ResolveError)
    requires IsReference(root, [], p, ref) && !Answered(src, p, ref) && IsRefusal(src, p, ref, e)
    ensures Unbound(root, src, e)
  {
  }

  /** Binds one reference: its answer is written at its place and recorded. */
  method BindNext(root: Value, src: Sources, found: Found, i: nat, ghost done: map<Path, string>, tree: Value,
                  bindings: seq<Binding>)
    returns (r: Result<(Value, seq<Binding>), ResolveError>, ghost done': map<Path, string>)
    requires Sized(root) && Lists(root, [], found) && i < |found| && Midway(root, src, found, i, done, tree, bindings)
    ensures r.Ok? ==> Midway(root, src, found, i + 1, done', r.value.0, r.value.1)
    ensures r.Err? ==> Unbound(root, src, r.error)
  {
    var (path, reference) := found[i];
    done' := done;
    ghost var leaf := FoundIsText(root, found, i);
    var answer := Obtain(src, path, reference);
    if answer.Err? {
      UnansweredIsUnbound(root, src, path, reference, answer.error);
      return Err(answer.error), done';
    }
    var (text, binding) := answer.value;
    var written := SetValueAtPath(tree, path, Str(text));
    if written.error.Some? {
      if !root.Str? { FoundIsSet(root, found, i, done, text); }
      StringLeaf(root.text, []);
      r := Err(SetFailed(written.error.value));
      return;
    }
    done' := done[path := text];
    FoundIsSet(root, found, i, done, text);
    FoundGrows(found, i, done, Texts(src), text, done');
    RecordAdded(src, found, i);
    r := Ok((written.tree, bindings + [binding]));
  }

  /** Collecting first and then writing one reference after the other equals a single pass over the original tree. */
  method BindAll(root: Value, mode: Mode, src: Sources)
    returns (root': Value, r: Result<seq<Binding>, ResolveError>)
    requires Sized(root)
    ensures r.Ok? <==> !Faulty(root, [], mode) && AllResolve(root, [], Texts(src)) && !IsBareReference(root)
    ensures r.Ok? ==> root' == Substitute(root, [], Texts(src)) && RecordsBindings(root, src, r.value)
    ensures r.Err? ==> Explains(root, mode, src, r.error)
  {
    root' := root;
    var references, collected := CollectConfigReferences(root, [], [], mode);
    if collected.Err? {
      return root', Err(collected.error);
    }
    assert references[0..] == references;
    ghost var done: map<Path, string> := map[];
    var bindings: seq<Binding> := [];
    PatchedNowhere(root, []);
    for i := 0 to |references|
      invariant Midway(root, src, references, i, done, root', bindings)
    {
      var step;
      step, done := BindNext(root, src, references, i, done, root', bindings);
      if step.Err? {
        UnboundFails(root, src, step.error);
        return root', Err(step.error);
      }
      root', bindings := step.value.0, step.value.1;
    }
    AllBound(root, src, references, done, bindings);
    r := Ok(SortBy(ByConfigKey, bindings));
  }

  /**
    Resolution succeeds exactly when no leaf is at fault, every reference has an answer whose
    lease has not expired, and the tree is more than a bare reference. Then every secret and every
    file stands where it was referred to, every other string and scalar where it was, and the
    records are one per reference, sorted.
    */
  method ResolveConfigReferences(root: Value, mode: Mode, src: Sources)
    returns (root': Value, r: Result<seq<Binding>, ResolveError>)
    requires Sized(root)
    ensures r.Ok? <==> !Faulty(root, [], mode) && AllAnswered(root, src) && !IsBareReference(root)
    ensures r.Ok? ==> HoldsAnswers(root, src, root') && KeepsRest(root, root')
    ensures r.Ok? ==> root' == Substitute(root, [], Texts(src))
    ensures r.Ok? ==> OnRecord(root, src, r.value) && RecordsBindings(root, src, r.value)
    ensures r.Err? ==> Explains(root, mode, src, r.error)
  {
    root', r := BindAll(root, mode, src);
    AllAnsweredExactly(root, src);
    if r.Ok? {
      SubstitutionHoldsAnswers(root, src);
      ReferencesAreRecorded(root, src, r.value);
    }
  }

  /** When every reference found was written, nothing else is left to do. */
  lemma AllBound(root: Value, src: Sources, found: Found, done: map<Path, string>, bindings: seq<Binding>)
    requires Lists(root, [], found) && PatchesFound(found, |found|, done, Texts(src)) && (root.Str? ==> found == [])
    requires bindings == FlatMap(Bound(src), found[..|found|])
    ensures AllResolve(root, [], Texts(src)) && Patched(root, [], done) == Substitute(root, [], Texts(src))
    ensures RecordsBindings(root, src, SortBy(ByConfigKey, bindings)) && !IsBareReference(root)
  {
    AllFoundPatched(root, found, done, Texts(src));
    FullyPatched(root, [], done, Texts(src));
    AllRecorded(root, src, found, bindings);
    if IsBareReference(root) { BareReferenceFound(root, found); }
  }

  lemma AllRecorded(root: Value, src: Sources, found: Found, bindings: seq<Binding>)
    requires Lists(root, [], found) && bindings == FlatMap(Bound(src), found[..|found|])
    ensures RecordsBindings(root, src, SortBy(ByConfigKey, bindings))
  {
    assert found[..|found|] == found;
    ByConfigKeyIsOrder();
    SortBySorts(ByConfigKey, bindings);
    assert Records(root, src, SortBy(ByConfigKey, bindings), found);
  }
}
