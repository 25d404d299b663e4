/**
  Startup analysis of the dependency-injection registry: resolving concrete ids and trait
  aliases, rejecting invalid graphs, and planning the eager start of the singletons.
  */
module ServiceRegistry {
  import opened Wrappers
  import opened Sequences
  import opened DependencyGraph
  import StringOrder

  type TypeId = nat

  datatype Lifetime = Singleton | Scoped | Transient

  datatype Service = Service(
    typeId: TypeId,
    typeName: string,
    traitTypeId: Option<TypeId>,
    lifetime: Lifetime,
    dependencies: seq<TypeId>)

  datatype InjectionError =
    | AmbiguousRegistration(typeId: TypeId, services: seq<string>)
    | MissingDependency(service: string, dependencyTypeId: TypeId)
    | LifetimeMismatch(service: string, serviceLifetime: Lifetime, dependency: string, dependencyLifetime: Lifetime)
    | CircularDependency(cycle: seq<string>)

  /** The pairwise lifetime table: only a singleton holding a scoped service is refused. */
  predicate Compatible(service: Lifetime, dependency: Lifetime) {
    match (service, dependency)
    case (Singleton, Singleton) => true
    case (Singleton, Transient) => true
    case (Scoped, _) => true
    case (Transient, _) => true
    case (Singleton, Scoped) => false
  }

  // ---------------------------------------------------------------- what a registry means

  /** Service `i` answers requests for `id`, under its own type or under its trait. */
  ghost predicate Resolves(m: seq<Service>, id: TypeId, i: nat) {
    i < |m| && (m[i].typeId == id || m[i].traitTypeId == Some(id))
  }

  ghost predicate Unambiguous(m: seq<Service>) {
    && (forall i: nat, j: nat :: i < j < |m| ==> m[i].typeId != m[j].typeId)
    && (forall i: nat, j: nat :: i < |m| && j < |m| ==> m[i].traitTypeId != Some(m[j].typeId))
    && (forall i: nat, j: nat :: i < j < |m| && m[i].traitTypeId.Some? ==> m[i].traitTypeId != m[j].traitTypeId)
  }

  ghost predicate Resolved(m: seq<Service>, id: TypeId) {
    exists i: nat :: Resolves(m, id, i)
  }

  /** Every implementation the dependency can mean is compatible with the service's lifetime. */
  ghost predicate NotCaptive(m: seq<Service>, v: nat, id: TypeId)
    requires v < |m|
  {
    forall i: nat :: Resolves(m, id, i) ==> Compatible(m[v].lifetime, m[i].lifetime)
  }

  ghost predicate DependencyFine(m: seq<Service>, v: nat, id: TypeId)
    requires v < |m|
  {
    Resolved(m, id) && NotCaptive(m, v, id)
  }

  ghost predicate DependsOn(m: seq<Service>, v: nat, d: nat) {
    v < |m| && exists id :: id in m[v].dependencies && Resolves(m, id, d)
  }

  /** Each service in the chain depends directly on the next. */
  ghost predicate IsChain(m: seq<Service>, c: seq<nat>) {
    forall i :: 0 <= i < |c| - 1 ==> DependsOn(m, c[i], c[i + 1])
  }

  ghost predicate Circular(m: seq<Service>, c: seq<nat>) {
    c != [] && IsChain(m, c) && DependsOn(m, c[|c| - 1], c[0])
  }

  ghost predicate AllDependenciesFine(m: seq<Service>) {
    forall v: nat, id :: v < |m| && id in m[v].dependencies ==> DependencyFine(m, v, id)
  }

  ghost predicate Accepts(m: seq<Service>) {
    Unambiguous(m) && AllDependenciesFine(m) && forall c :: !Circular(m, c)
  }

  ghost predicate Reaches(m: seq<Service>, from: TypeId, to: TypeId) {
    exists c: seq<nat> :: |c| >= 2 && IsChain(m, c) && c[0] < |m| && c[|c| - 1] < |m|
      && m[c[0]].typeId == from && m[c[|c| - 1]].typeId == to
  }

  ghost predicate IsSingleton(m: seq<Service>, id: TypeId) {
    exists i: nat :: i < |m| && m[i].typeId == id && m[i].lifetime.Singleton?
  }

  /**
    A startup plan: exactly the singletons, each once, and whatever a singleton needs through
    any chain of services, transients included, before it.
    */
  ghost predicate IsStartupPlan(m: seq<Service>, plan: seq<TypeId>) {
    && Distinct(plan)
    && (forall id :: id in plan <==> IsSingleton(m, id))
    && (forall i, j :: 0 <= i < |plan| && 0 <= j < |plan| && Reaches(m, plan[i], plan[j]) ==> j < i)
  }

  // ---------------------------------------------------------------- what an error means

  function SortedNames(a: string, b: string): seq<string> {
    if a == b then [a] else if StringOrder.Less(b, a) then [b, a] else [a, b]
  }

  /** No earlier dependency, in registration and then declaration order, is at fault. */
  ghost predicate EarlierFine(m: seq<Service>, v: nat, k: nat) {
    && v < |m| && k <= |m[v].dependencies|
    && (forall u: nat, id :: u < v && id in m[u].dependencies ==> DependencyFine(m, u, id))
    && (forall l :: 0 <= l < k ==> DependencyFine(m, v, m[v].dependencies[l]))
  }

  ghost predicate FirstMissing(m: seq<Service>, e: InjectionError, v: nat, k: nat) {
    && EarlierFine(m, v, k) && k < |m[v].dependencies| && !Resolved(m, m[v].dependencies[k])
    && e == MissingDependency(m[v].typeName, m[v].dependencies[k])
  }

  ghost predicate FirstCaptive(m: seq<Service>, e: InjectionError, v: nat, k: nat, d: nat) {
    && EarlierFine(m, v, k) && k < |m[v].dependencies| && Resolves(m, m[v].dependencies[k], d)
    && m[v].lifetime.Singleton? && m[d].lifetime.Scoped?
    && e == LifetimeMismatch(m[v].typeName, m[v].lifetime, m[d].typeName, m[d].lifetime)
  }

  ghost predicate Clash(m: seq<Service>, id: TypeId, i: nat, j: nat) {
    && Resolves(m, id, i) && Resolves(m, id, j)
    && (i == j ==> m[i].typeId == id && m[i].traitTypeId == Some(id))
  }

  ghost predicate NamesCycle(m: seq<Service>, names: seq<string>, c: seq<nat>) {
    && Circular(m, c) && Distinct(c) && |names| == |c| + 1
    && (forall i :: 0 <= i < |c| ==> c[i] < |m| && names[i] == m[c[i]].typeName)
    && names[|c|] == names[0]
  }

  ghost predicate Explains(m: seq<Service>, e: InjectionError) {
    match e
    case AmbiguousRegistration(id, services) =>
      exists i: nat, j: nat :: Clash(m, id, i, j) && services == SortedNames(m[i].typeName, m[j].typeName)
    case MissingDependency(_, _) =>
      Unambiguous(m) && exists v: nat, k: nat :: FirstMissing(m, e, v, k)
    case LifetimeMismatch(_, _, _, _) =>
      Unambiguous(m) && exists v: nat, k: nat, d: nat :: FirstCaptive(m, e, v, k, d)
    case CircularDependency(names) =>
      Unambiguous(m) && AllDependenciesFine(m) && exists c :: NamesCycle(m, names, c)
  }

  /** An explained error is never raised against an acceptable registry. */
  lemma ExplainedIsRejected(m: seq<Service>, e: InjectionError)
    requires Explains(m, e)
    ensures !Accepts(m)
  {
    match e
    case AmbiguousRegistration(id, services) =>
      var i: nat, j: nat :| Clash(m, id, i, j) && services == SortedNames(m[i].typeName, m[j].typeName);
    case MissingDependency(_, _) =>
      var v: nat, k: nat :| FirstMissing(m, e, v, k);
      assert m[v].dependencies[k] in m[v].dependencies;
    case LifetimeMismatch(_, _, _, _) =>
      var v: nat, k: nat, d: nat :| FirstCaptive(m, e, v, k, d);
      assert m[v].dependencies[k] in m[v].dependencies;
    case CircularDependency(names) =>
      var c :| NamesCycle(m, names, c);
      assert Circular(m, c);
  }

  // ---------------------------------------------------------------- registration

  /** The names are listed in order, each once, and they are the two given. */
  lemma SortedNamesListBoth(a: string, b: string)
    ensures var names := SortedNames(a, b);
            && (forall i, j :: 0 <= i < j < |names| ==> StringOrder.Less(names[i], names[j]))
            && (forall x :: x in names <==> x == a || x == b)
    ensures SortedNames(a, b) == SortedNames(b, a)
  {
    StringOrder.LessTotal(a, b);
    if StringOrder.Less(a, b) && StringOrder.Less(b, a) {
      StringOrder.LessTransitive(a, b, a);
      StringOrder.LessIrreflexive(a);
    }
  }

  method RegisterResolvableType(registrations: map<TypeId, nat>, m: seq<Service>, id: TypeId, index: nat)
    returns (registrations': map<TypeId, nat>, r: Result<(), InjectionError>)
    requires index < |m| && forall x :: x in registrations ==> registrations[x] < |m|
    ensures registrations' == registrations[id := index]
    ensures r.Ok? <==> id !in registrations
    ensures r.Err? ==>
              r.error == AmbiguousRegistration(id, SortedNames(m[registrations[id]].typeName, m[index].typeName))
  {
    registrations' := registrations[id := index];
    if id in registrations {
      var names := SortedNames(m[registrations[id]].typeName, m[index].typeName);
      return registrations', Err(AmbiguousRegistration(id, names));
    }
    r := Ok(());
  }

  /** The table after the first `n` concrete ids and the first `t` traits. */
  ghost predicate Table(m: seq<Service>, reg: map<TypeId, nat>, n: nat, t: nat) {
    && n <= |m| && t <= |m|
    && (forall id :: id in reg ==>
          (reg[id] < n && m[reg[id]].typeId == id) || (reg[id] < t && m[reg[id]].traitTypeId == Some(id)))
    && (forall i: nat :: i < n ==> m[i].typeId in reg && reg[m[i].typeId] == i)
    && (forall i: nat :: i < t && m[i].traitTypeId.Some? ==>
          m[i].traitTypeId.value in reg && reg[m[i].traitTypeId.value] == i)
    && (forall i: nat, j: nat :: i < t && j < n ==> m[i].traitTypeId != Some(m[j].typeId))
  }

  lemma FullTable(m: seq<Service>, reg: map<TypeId, nat>)
    requires Table(m, reg, |m|, |m|)
    ensures Unambiguous(m)
    ensures forall id, i: nat :: Resolves(m, id, i) <==> id in reg && reg[id] == i
  {
  }

  lemma ConcreteAdded(m: seq<Service>, reg: map<TypeId, nat>, n: nat)
    requires Table(m, reg, n, 0) && n < |m|
    ensures m[n].typeId !in reg ==> Table(m, reg[m[n].typeId := n], n + 1, 0)
    ensures m[n].typeId in reg ==> Clash(m, m[n].typeId, reg[m[n].typeId], n)
  {
  }

  lemma TraitAdded(m: seq<Service>, reg: map<TypeId, nat>, t: nat, id: TypeId)
    requires Table(m, reg, |m|, t) && t < |m| && m[t].traitTypeId == Some(id)
    ensures id !in reg ==> Table(m, reg[id := t], |m|, t + 1)
    ensures id in reg ==> Clash(m, id, reg[id], t)
  {
  }

  lemma ClashExplains(m: seq<Service>, id: TypeId, i: nat, j: nat)
    requires Clash(m, id, i, j)
    ensures Explains(m, AmbiguousRegistration(id, SortedNames(m[i].typeName, m[j].typeName)))
  {
  }

  method RegisterConcrete(m: seq<Service>) returns (reg: map<TypeId, nat>, r: Result<(), InjectionError>)
    ensures r.Ok? ==> Table(m, reg, |m|, 0)
    ensures r.Err? ==> r.error.AmbiguousRegistration? && Explains(m, r.error)
  {
    reg := map[];
    for index := 0 to |m|
      invariant Table(m, reg, index, 0)
    {
      var id := m[index].typeId;
      ConcreteAdded(m, reg, index);
      if id in reg { ClashExplains(m, id, reg[id], index); }
      reg, r := RegisterResolvableType(reg, m, id, index);
      if r.Err? { return; }
    }
    r := Ok(());
  }

  /** Registers the trait of one service, if it has one. */
  method RegisterTrait(m: seq<Service>, reg: map<TypeId, nat>, t: nat)
    returns (reg': map<TypeId, nat>, r: Result<(), InjectionError>)
    requires Table(m, reg, |m|, t) && t < |m|
    ensures r.Ok? ==> Table(m, reg', |m|, t + 1)
    ensures r.Err? ==> r.error.AmbiguousRegistration? && Explains(m, r.error)
  {
    if m[t].traitTypeId.None? {
      return reg, Ok(());
    }
    var id := m[t].traitTypeId.value;
    TraitAdded(m, reg, t, id);
    if id in reg { ClashExplains(m, id, reg[id], t); }
    reg', r := RegisterResolvableType(reg, m, id, t);
  }

  method RegisterAll(m: seq<Service>) returns (reg: map<TypeId, nat>, r: Result<(), InjectionError>)
    ensures r.Ok? ==> Table(m, reg, |m|, |m|)
    ensures r.Err? ==> r.error.AmbiguousRegistration? && Explains(m, r.error)
  {
    reg, r := RegisterConcrete(m);
    if r.Err? { return; }
    for index := 0 to |m|
      invariant Table(m, reg, |m|, index)
    {
      reg, r := RegisterTrait(m, reg, index);
      if r.Err? { return; }
    }
    r := Ok(());
  }

  // ---------------------------------------------------------------- edges

  /** `row` lists, once each, what the first `k` dependencies of service `v` resolve to. */
  ghost predicate Row(m: seq<Service>, reg: map<TypeId, nat>, v: nat, k: nat, row: seq<nat>) {
    && v < |m| && k <= |m[v].dependencies| && Distinct(row)
    && (forall d :: d in row ==> exists id :: id in m[v].dependencies[..k] && id in reg && reg[id] == d)
    && (forall id :: id in m[v].dependencies[..k] ==> id in reg && reg[id] in row)
  }

  ghost predicate IsGraphOf(m: seq<Service>, g: Graph) {
    && |g| == |m| && WellFormed(g)
    && (forall v: nat :: v < |g| ==> Distinct(g[v]))
    && (forall v: nat, d: nat :: Edge(g, v, d) <==> DependsOn(m, v, d))
  }

  lemma RowsAreGraph(m: seq<Service>, reg: map<TypeId, nat>, g: Graph)
    requires Table(m, reg, |m|, |m|) && |g| == |m|
    requires forall v: nat :: v < |g| ==> Row(m, reg, v, |m[v].dependencies|, g[v])
    ensures IsGraphOf(m, g)
  {
    FullTable(m, reg);
    forall v: nat, d: nat ensures Edge(g, v, d) <==> DependsOn(m, v, d) {
      if v < |g| {
        var deps := m[v].dependencies;
        assert Row(m, reg, v, |deps|, g[v]) && deps[..|deps|] == deps;
        if Edge(g, v, d) {
          var id :| id in deps && id in reg && reg[id] == d;
          assert Resolves(m, id, d);
        }
        if DependsOn(m, v, d) {
          var id :| id in deps && Resolves(m, id, d);
          assert reg[id] in g[v];
        }
      }
    }
    forall v: nat, d: nat | v < |g| && d in g[v] ensures d < |g| {
      assert Edge(g, v, d);
    }
  }

  method BuildRow(m: seq<Service>, reg: map<TypeId, nat>, v: nat) returns (row: seq<nat>, r: Result<(), InjectionError>)
    requires Table(m, reg, |m|, |m|) && EarlierFine(m, v, 0)
    ensures r.Ok? ==> Row(m, reg, v, |m[v].dependencies|, row) && EarlierFine(m, v, |m[v].dependencies|)
    ensures r.Err? ==> Explains(m, r.error)
  {
    FullTable(m, reg);
    row := [];
    r := Ok(());
    var deps := m[v].dependencies;
    for k := 0 to |deps|
      invariant Row(m, reg, v, k, row) && EarlierFine(m, v, k) && r.Ok?
    {
      var id := deps[k];
      assert deps[..k + 1] == deps[..k] + [id];
      if id !in reg {
        r := Err(MissingDependency(m[v].typeName, id));
        assert FirstMissing(m, r.error, v, k);
        return;
      }
      var d := reg[id];
      assert Resolves(m, id, d);
      if !Compatible(m[v].lifetime, m[d].lifetime) {
        r := Err(LifetimeMismatch(m[v].typeName, m[v].lifetime, m[d].typeName, m[d].lifetime));
        assert FirstCaptive(m, r.error, v, k, d);
        return;
      }
      assert DependencyFine(m, v, id);
      if d !in row {
        row := row + [d];
      }
    }
  }

  /** The rows of the first `v` services, none of whose dependencies is at fault. */
  ghost predicate RowsSoFar(m: seq<Service>, reg: map<TypeId, nat>, v: nat, g: Graph) {
    && |g| == v <= |m|
    && (forall u: nat :: u < v ==> Row(m, reg, u, |m[u].dependencies|, g[u]))
    && (forall u: nat, id :: u < v && id in m[u].dependencies ==> DependencyFine(m, u, id))
  }

  lemma RowAdded(m: seq<Service>, reg: map<TypeId, nat>, v: nat, g: Graph, row: seq<nat>)
    requires RowsSoFar(m, reg, v, g) && v < |m|
    requires Row(m, reg, v, |m[v].dependencies|, row) && EarlierFine(m, v, |m[v].dependencies|)
    ensures RowsSoFar(m, reg, v + 1, g + [row])
  {
    forall id | id in m[v].dependencies ensures DependencyFine(m, v, id) {
      var l :| 0 <= l < |m[v].dependencies| && m[v].dependencies[l] == id;
    }
  }

  method BuildGraph(m: seq<Service>, reg: map<TypeId, nat>) returns (g: Graph, r: Result<(), InjectionError>)
    requires Table(m, reg, |m|, |m|)
    ensures r.Ok? ==> IsGraphOf(m, g) && AllDependenciesFine(m)
    ensures r.Err? ==> Explains(m, r.error)
  {
    g := [];
    for v := 0 to |m|
      invariant RowsSoFar(m, reg, v, g)
    {
      var row;
      row, r := BuildRow(m, reg, v);
      if r.Err? { return; }
      RowAdded(m, reg, v, g, row);
      g := g + [row];
    }
    RowsAreGraph(m, reg, g);
    r := Ok(());
  }

  // ---------------------------------------------------------------- the plan

  lemma ChainIsPath(m: seq<Service>, g: Graph, c: seq<nat>)
    requires IsGraphOf(m, g)
    ensures IsChain(m, c) <==> IsPath(g, c)
    ensures Circular(m, c) <==> IsCycle(g, c)
  {
  }

  predicate InRange(n: nat, order: seq<nat>) {
    forall i :: 0 <= i < |order| ==> order[i] < n
  }

  function Singletons(m: seq<Service>, order: seq<nat>): seq<TypeId>
    requires InRange(|m|, order)
  {
    if order == [] then [] else
      var last := |order| - 1;
      Singletons(m, order[..last]) + if m[order[last]].lifetime.Singleton? then [m[order[last]].typeId] else []
  }

  /** The k-th planned singleton sits at the order position with exactly k singletons before it. */
  lemma {:induction false} PlannedAt(m: seq<Service>, order: seq<nat>, k: nat) returns (p: nat)
    requires InRange(|m|, order)
    requires k < |Singletons(m, order)|
    ensures p < |order| && m[order[p]].lifetime.Singleton?
    ensures m[order[p]].typeId == Singletons(m, order)[k] && |Singletons(m, order[..p])| == k
  {
    var last := |order| - 1;
    var before := Singletons(m, order[..last]);
    if k < |before| {
      p := PlannedAt(m, order[..last], k);
      assert order[..last][..p] == order[..p];
    } else {
      p := last;
    }
  }

  lemma {:induction false} CountGrows(m: seq<Service>, order: seq<nat>, p: nat, q: nat)
    requires InRange(|m|, order)
    requires p < q <= |order|
    ensures Singletons(m, order[..p]) <= Singletons(m, order[..q])
    ensures m[order[p]].lifetime.Singleton? ==>
              |Singletons(m, order[..p])| < |Singletons(m, order[..q])|
              && Singletons(m, order[..q])[|Singletons(m, order[..p])|] == m[order[p]].typeId
  {
    assert order[..q][..q - 1] == order[..q - 1];
    if p < q - 1 { CountGrows(m, order, p, q - 1); }
  }

  lemma PlanListsSingletons(m: seq<Service>, g: Graph, order: seq<nat>)
    requires Unambiguous(m) && |g| == |m| && Covers(g, order) && DependenciesFirst(g, order)
    ensures InRange(|m|, order)
    ensures Distinct(Singletons(m, order)) && forall id :: id in Singletons(m, order) <==> IsSingleton(m, id)
  {
    var plan := Singletons(m, order);
    forall i: nat, j: nat | i < j < |plan| ensures plan[i] != plan[j] {
      var p := PlannedAt(m, order, i);
      var q := PlannedAt(m, order, j);
    }
    forall id ensures id in plan <==> IsSingleton(m, id) {
      if id in plan {
        var k :| 0 <= k < |plan| && plan[k] == id;
        var p := PlannedAt(m, order, k);
      }
      if IsSingleton(m, id) {
        var v: nat :| v < |m| && m[v].typeId == id && m[v].lifetime.Singleton?;
        assert v in order;
        var p :| 0 <= p < |order| && order[p] == v;
        CountGrows(m, order, p, |order|);
        assert order[..|order|] == order;
      }
    }
  }

  lemma PlanRespectsChains(m: seq<Service>, g: Graph, order: seq<nat>, i: nat, j: nat)
    requires Unambiguous(m) && IsGraphOf(m, g) && Covers(g, order) && DependenciesFirst(g, order)
    requires InRange(|m|, order)
    requires i < |Singletons(m, order)| && j < |Singletons(m, order)|
    requires Reaches(m, Singletons(m, order)[i], Singletons(m, order)[j])
    ensures j < i
  {
    var plan := Singletons(m, order);
    var p := PlannedAt(m, order, i);
    var q := PlannedAt(m, order, j);
    var c: seq<nat> :| |c| >= 2 && IsChain(m, c) && c[0] < |m| && c[|c| - 1] < |m|
      && m[c[0]].typeId == plan[i] && m[c[|c| - 1]].typeId == plan[j];
    ChainIsPath(m, g, c);
    assert c[0] == order[p] && c[|c| - 1] == order[q];
    assert Edge(g, c[0], c[1]);
    var s: nat :| s < p && order[s] == c[1];
    SuffixIsPath(g, c, 1);
    var t := PathGoesBack(g, order, c[1..], s);
    assert t == q;
    CountGrows(m, order, q, p);
  }

  /** The plan takes the singletons from the order in which the first ready service comes first. */
  ghost predicate PlannedFrom(m: seq<Service>, g: Graph, order: seq<nat>, plan: seq<TypeId>) {
    && IsGraphOf(m, g) && Covers(g, order) && DependenciesFirst(g, order) && InReleaseOrder(g, order)
    && InRange(|m|, order) && plan == Singletons(m, order)
  }

  ghost predicate IsDeterminedPlan(m: seq<Service>, plan: seq<TypeId>) {
    exists g, order :: PlannedFrom(m, g, order, plan)
  }

  /** A registry has only one such plan: ties between ready services go by registration order. */
  lemma PlanIsDetermined(m: seq<Service>, p: seq<TypeId>, q: seq<TypeId>)
    requires IsDeterminedPlan(m, p) && IsDeterminedPlan(m, q)
    ensures p == q
  {
    var g, a :| PlannedFrom(m, g, a, p);
    var h, b :| PlannedFrom(m, h, b, q);
    forall v: nat, d: nat ensures Edge(g, v, d) <==> Edge(h, v, d) {
      assert Edge(g, v, d) <==> DependsOn(m, v, d);
    }
    SameEdges(g, h, a);
    ReleaseOrderIsUnique(h, a, b);
  }

  lemma NoServices(m: seq<Service>)
    requires m == []
    ensures Accepts(m) && IsStartupPlan(m, []) && IsDeterminedPlan(m, [])
  {
    assert forall c :: !Circular(m, c);
    var g: Graph, order: seq<nat> := [], [];
    assert InLine(g, order, order, []);
    assert PlannedFrom(m, g, order, []);
  }

  /**
    Analysis succeeds exactly on the acceptable registries and then returns a startup plan, the
    one that the registration order determines; otherwise its error names a genuine fault.
    */
  method AnalyzeServiceGraph(m: seq<Service>) returns (r: Result<seq<TypeId>, InjectionError>)
    ensures r.Ok? <==> Accepts(m)
    ensures r.Ok? ==> IsStartupPlan(m, r.value) && IsDeterminedPlan(m, r.value)
    ensures r.Err? ==> Explains(m, r.error)
  {
    if m == [] {
      NoServices(m);
      return Ok([]);
    }
    var reg, registered := RegisterAll(m);
    if registered.Err? {
      ExplainedIsRejected(m, registered.error);
      return Err(registered.error);
    }
    FullTable(m, reg);
    var g, built := BuildGraph(m, reg);
    if built.Err? {
      ExplainedIsRejected(m, built.error);
      return Err(built.error);
    }
    var found := FindDependencyCycle(g);
    if found.Some? {
      var c := found.value;
      ChainIsPath(m, g, c);
      CycleInRange(g, c);
      var names := seq(|c|, i requires 0 <= i < |c| => m[c[i]].typeName);
      names := names + [names[0]];
      r := Err(CircularDependency(names));
      assert NamesCycle(m, names, c);
      ExplainedIsRejected(m, r.error);
      return;
    }
    forall c ensures !Circular(m, c) {
      ChainIsPath(m, g, c);
    }
    var order := KahnOrder(g);
    PlanListsSingletons(m, g, order);
    var plan := Singletons(m, order);
    forall i: nat, j: nat | i < |plan| && j < |plan| && Reaches(m, plan[i], plan[j]) ensures j < i {
      PlanRespectsChains(m, g, order, i, j);
    }
    assert PlannedFrom(m, g, order, plan);
    r := Ok(plan);
  }

  lemma CycleInRange(g: Graph, c: seq<nat>)
    requires IsCycle(g, c)
    ensures forall i :: 0 <= i < |c| ==> c[i] < |g|
  {
    forall i | 0 <= i < |c| ensures c[i] < |g| {
      if i < |c| - 1 { assert Edge(g, c[i], c[i + 1]); }
    }
  }

  // ---------------------------------------------------------------- the lifetime rule is not transitive

  /** In an accepted registry a singleton can reach a scoped service only through a transient that holds it. */
  lemma {:induction false} CaptiveOnlyThroughTransient(m: seq<Service>, c: seq<nat>) returns (i: nat)
    requires Accepts(m) && IsChain(m, c) && |c| >= 2
    requires c[0] < |m| && c[|c| - 1] < |m| && !m[c[0]].lifetime.Scoped? && m[c[|c| - 1]].lifetime.Scoped?
    ensures i < |c| - 1 && c[i] < |m| && c[i + 1] < |m| && m[c[i]].lifetime.Transient? && m[c[i + 1]].lifetime.Scoped?
    decreases |c|
  {
    assert DependsOn(m, c[0], c[1]);
    var id :| id in m[c[0]].dependencies && Resolves(m, id, c[1]);
    assert DependencyFine(m, c[0], id);
    if m[c[1]].lifetime.Scoped? {
      i := 0;
    } else {
      var rest := c[1..];
      forall k | 0 <= k < |rest| - 1 ensures DependsOn(m, rest[k], rest[k + 1]) {
        assert DependsOn(m, c[k + 1], c[k + 2]);
      }
      var j := CaptiveOnlyThroughTransient(m, rest);
      i := j + 1;
    }
  }

  /** Some chain leads from service `v` to a scoped service. */
  ghost predicate ReachesScoped(m: seq<Service>, v: nat) {
    exists c: seq<nat> :: |c| >= 2 && IsChain(m, c) && c[0] == v && c[|c| - 1] < |m| && m[c[|c| - 1]].lifetime.Scoped?
  }

  /** A transient with a scoped service among its direct dependencies. */
  ghost predicate HoldsScoped(m: seq<Service>, t: nat) {
    t < |m| && m[t].lifetime.Transient? && exists d: nat :: d < |m| && DependsOn(m, t, d) && m[d].lifetime.Scoped?
  }

  ghost predicate ReachesHolder(m: seq<Service>, v: nat) {
    exists c: seq<nat> :: |c| >= 2 && IsChain(m, c) && c[0] == v && HoldsScoped(m, c[|c| - 1])
  }

  lemma LeakPassesHolder(m: seq<Service>, v: nat)
    requires Accepts(m) && v < |m| && m[v].lifetime.Singleton? && ReachesScoped(m, v)
    ensures ReachesHolder(m, v)
  {
    var c: seq<nat> :| |c| >= 2 && IsChain(m, c) && c[0] == v && c[|c| - 1] < |m| && m[c[|c| - 1]].lifetime.Scoped?;
    var i := CaptiveOnlyThroughTransient(m, c);
    var to := c[..i + 1];
    assert DependsOn(m, c[i], c[i + 1]);
    assert HoldsScoped(m, to[|to| - 1]);
    assert IsChain(m, to) by {
      forall k | 0 <= k < |to| - 1 ensures DependsOn(m, to[k], to[k + 1]) { assert DependsOn(m, c[k], c[k + 1]); }
    }
  }

  lemma HolderLeaks(m: seq<Service>, v: nat)
    requires ReachesHolder(m, v)
    ensures ReachesScoped(m, v)
  {
    var c: seq<nat> :| |c| >= 2 && IsChain(m, c) && c[0] == v && HoldsScoped(m, c[|c| - 1]);
    var d: nat :| d < |m| && DependsOn(m, c[|c| - 1], d) && m[d].lifetime.Scoped?;
    var on := c + [d];
    assert IsChain(m, on) by {
      forall k | 0 <= k < |on| - 1 ensures DependsOn(m, on[k], on[k + 1]) {
        if k < |c| - 1 { assert DependsOn(m, c[k], c[k + 1]); }
      }
    }
  }

  /**
    The lifetime rule lets a scoped service leak into a singleton exactly when the singleton
    reaches, through any chain, a transient that depends directly on a scoped service.
    */
  lemma LeaksExactly(m: seq<Service>, v: nat)
    requires Accepts(m) && v < |m| && m[v].lifetime.Singleton?
    ensures ReachesScoped(m, v) <==> ReachesHolder(m, v)
  {
    if ReachesScoped(m, v) { LeakPassesHolder(m, v); }
    if ReachesHolder(m, v) { HolderLeaks(m, v); }
  }

  const LEAKY := [
    Service(0, "owner", None, Singleton, [1]),
    Service(1, "helper", None, Transient, [2]),
    Service(2, "session", None, Scoped, [])]

  lemma LeakyEdges(m: seq<Service>, v: nat, d: nat)
    requires m == LEAKY
    ensures DependsOn(m, v, d) <==> (v == 0 && d == 1) || (v == 1 && d == 2)
  {
    if v == 0 && d == 1 { assert 1 in m[0].dependencies && Resolves(m, 1, 1); }
    if v == 1 && d == 2 { assert 2 in m[1].dependencies && Resolves(m, 2, 2); }
  }

  lemma LeakyIsAcyclic(m: seq<Service>, c: seq<nat>)
    requires m == LEAKY
    ensures !Circular(m, c)
  {
    if Circular(m, c) {
      var last := |c| - 1;
      LeakyClimbs(m, c, last);
      LeakyEdges(m, c[last], c[0]);
    }
  }

  lemma {:induction false} LeakyClimbs(m: seq<Service>, c: seq<nat>, i: nat)
    requires m == LEAKY && IsChain(m, c) && i < |c|
    ensures c[0] <= c[i]
  {
    if i > 0 {
      LeakyClimbs(m, c, i - 1);
      assert DependsOn(m, c[i - 1], c[i]);
      LeakyEdges(m, c[i - 1], c[i]);
    }
  }

  lemma LeakyIsFine(m: seq<Service>)
    requires m == LEAKY
    ensures Unambiguous(m) && AllDependenciesFine(m)
  {
    assert Resolves(m, 1, 1) && Resolves(m, 2, 2);
  }

  /** Such registries are accepted: a singleton over a transient over a scoped service. */
  lemma LeakIsAccepted(m: seq<Service>)
    requires m == LEAKY
    ensures Accepts(m) && Reaches(m, 0, 2) && m[0].lifetime.Singleton? && m[2].lifetime.Scoped?
  {
    LeakyIsFine(m);
    forall c ensures !Circular(m, c) { LeakyIsAcyclic(m, c); }
    var c: seq<nat> := [0, 1, 2];
    LeakyEdges(m, 0, 1);
    LeakyEdges(m, 1, 2);
    assert IsChain(m, c);
  }
}
