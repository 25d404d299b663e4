/**
  Dependency graphs of the service registry: the three-colour cycle finder and the
  Kahn ordering that the registry runs after it.
  A graph is an adjacency list: `g[v]` are the dependencies of node `v`.
  */
module DependencyGraph {
  import opened Wrappers
  import opened Sequences

  type Graph = seq<seq<nat>>

  ghost predicate WellFormed(g: Graph) {
    forall v: nat, d: nat :: v < |g| && d in g[v] ==> d < |g|
  }

  ghost predicate Edge(g: Graph, v: nat, d: nat) {
    v < |g| && d in g[v]
  }

  ghost predicate IsPath(g: Graph, p: seq<nat>) {
    forall i :: 0 <= i < |p| - 1 ==> Edge(g, p[i], p[i + 1])
  }

  ghost predicate IsCycle(g: Graph, c: seq<nat>) {
    c != [] && IsPath(g, c) && Edge(g, c[|c| - 1], c[0])
  }

  ghost predicate Acyclic(g: Graph) {
    forall c :: !IsCycle(g, c)
  }

  /** Every node listed comes after all of its dependencies, and none is listed twice. */
  ghost predicate DependenciesFirst(g: Graph, order: seq<nat>) {
    && Distinct(order)
    && forall i :: 0 <= i < |order| ==> order[i] < |g| && forall d :: d in g[order[i]] ==> d in order[..i]
  }

  ghost predicate Covers(g: Graph, order: seq<nat>) {
    forall v: nat :: v < |g| ==> v in order
  }

  // ---------------------------------------------------------------- acyclicity

  lemma SuffixIsPath(g: Graph, p: seq<nat>, start: nat)
    requires start <= |p| && IsPath(g, p)
    ensures IsPath(g, p[start..])
  {
  }

  lemma PositionDecreases(g: Graph, order: seq<nat>, i: nat, j: nat)
    requires DependenciesFirst(g, order)
    requires i < |order| && j < |order| && Edge(g, order[i], order[j])
    ensures j < i
  {
  }

  lemma {:induction false} PathGoesBack(g: Graph, order: seq<nat>, p: seq<nat>, i: nat) returns (j: nat)
    requires DependenciesFirst(g, order) && p != [] && IsPath(g, p)
    requires i < |order| && order[i] == p[0]
    ensures j <= i && order[j] == p[|p| - 1]
  {
    if |p| == 1 {
      j := i;
    } else {
      assert Edge(g, p[0], p[1]);
      var k :| 0 <= k < i && order[k] == p[1];
      SuffixIsPath(g, p, 1);
      j := PathGoesBack(g, order, p[1..], k);
    }
  }

  /** A dependencies-first listing of the whole graph rules out every directed cycle. */
  lemma OrderedImpliesAcyclic(g: Graph, order: seq<nat>)
    requires DependenciesFirst(g, order) && Covers(g, order)
    ensures Acyclic(g)
  {
    forall c ensures !IsCycle(g, c) {
      if IsCycle(g, c) {
        var v := c[0];
        assert v < |g| by { if |c| > 1 { assert Edge(g, c[0], c[1]); } }
        assert v in order;
        var i :| 0 <= i < |order| && order[i] == v;
        var j := PathGoesBack(g, order, c, i);
        PositionDecreases(g, order, j, i);
      }
    }
  }

  ghost predicate HasDependencyIn(g: Graph, v: nat, nodes: set<nat>) {
    exists d: nat :: d in nodes && Edge(g, v, d)
  }

  /** Walking inside a set in which nobody is without a successor must close a cycle. */
  lemma {:induction false} WalkCloses(g: Graph, nodes: set<nat>, p: seq<nat>) returns (c: seq<nat>)
    requires p != [] && IsPath(g, p) && (forall v :: v in p ==> v in nodes)
    requires forall v: nat {:trigger HasDependencyIn(g, v, nodes)} :: v in nodes ==> HasDependencyIn(g, v, nodes)
    ensures IsCycle(g, c)
    decreases nodes - Elements(p)
  {
    assert HasDependencyIn(g, p[|p| - 1], nodes);
    var d: nat :| d in nodes && Edge(g, p[|p| - 1], d);
    if d in p {
      var i :| 0 <= i < |p| && p[i] == d;
      c := p[i..];
      SuffixIsPath(g, p, i);
    } else {
      var longer := p + [d];
      assert Elements(longer) == Elements(p) + {d};
      assert IsPath(g, longer) by {
        forall i | 0 <= i < |longer| - 1 ensures Edge(g, longer[i], longer[i + 1]) {
          if i < |p| - 1 { assert Edge(g, p[i], p[i + 1]); }
        }
      }
      c := WalkCloses(g, nodes, longer);
    }
  }

  /** In an acyclic graph every non-empty set of nodes has one with no dependency inside the set. */
  lemma AcyclicHasSink(g: Graph, nodes: set<nat>) returns (v: nat)
    requires Acyclic(g) && nodes != {}
    ensures v in nodes && !HasDependencyIn(g, v, nodes)
  {
    v :| v in nodes;
    if forall u: nat :: u in nodes ==> HasDependencyIn(g, u, nodes) {
      var c := WalkCloses(g, nodes, [v]);
      assert false;
    }
    v :| v in nodes && !HasDependencyIn(g, v, nodes);
  }

  // ---------------------------------------------------------------- three-colour search

  datatype Colour = White | Grey | Black

  ghost function Whites(states: seq<Colour>): set<nat> {
    set v: nat | v < |states| && states[v] == White
  }

  /** Grey nodes are the current path; black nodes are finished after all their dependencies. */
  ghost predicate Search(g: Graph, states: seq<Colour>, stack: seq<nat>, finished: seq<nat>) {
    && |states| == |g|
    && Distinct(stack) && IsPath(g, stack)
    && (forall v: nat :: v in stack ==> v < |g|)
    && (forall v: nat :: v < |g| ==> (states[v] == Grey <==> v in stack))
    && (forall v: nat :: v < |g| ==> (states[v] == Black <==> v in finished))
    && DependenciesFirst(g, finished)
  }

  function Position(stack: seq<nat>, node: nat): (r: Option<nat>)
    ensures r.None? <==> node !in stack
    ensures r.Some? ==> r.value < |stack| && stack[r.value] == node
  {
    if stack == [] then None
    else if stack[0] == node then Some(0)
    else match Position(stack[1..], node) case Some(i) => Some(i + 1) case None => None
  }

  ghost predicate IsSimpleCycle(g: Graph, c: seq<nat>) {
    IsCycle(g, c) && Distinct(c)
  }

  lemma PushKeepsSearch(g: Graph, states: seq<Colour>, stack: seq<nat>, finished: seq<nat>, v: nat)
    requires Search(g, states, stack, finished) && v < |g| && states[v] == White
    requires stack != [] ==> Edge(g, stack[|stack| - 1], v)
    ensures Search(g, states[v := Grey], stack + [v], finished)
    ensures Whites(states[v := Grey]) < Whites(states)
  {
    assert v in Whites(states) && v !in Whites(states[v := Grey]);
  }

  lemma FinishKeepsSearch(g: Graph, states: seq<Colour>, stack: seq<nat>, finished: seq<nat>, v: nat)
    requires Search(g, states, stack + [v], finished) && v < |g|
    requires forall d :: d in g[v] ==> d in finished
    ensures Search(g, states[v := Black], stack, finished + [v])
  {
    var s, s' := stack, stack + [v];
    assert v in s';
    assert forall i :: 0 <= i < |s| ==> s'[i] == s[i];
    assert s'[|s|] == v;
    assert forall i :: 0 <= i < |s| - 1 ==> Edge(g, s'[i], s'[i + 1]);
    assert forall i :: 0 <= i < |finished| ==> (finished + [v])[..i] == finished[..i];
    assert (finished + [v])[..|finished|] == finished;
    assert forall u :: u in s ==> u in s';
    assert states[v] == Grey;
  }

  lemma ClosingEdge(g: Graph, stack: seq<nat>, start: nat)
    requires start < |stack| && Distinct(stack) && IsPath(g, stack)
    requires Edge(g, stack[|stack| - 1], stack[start])
    ensures IsSimpleCycle(g, stack[start..])
  {
  }

  /** The recursive step: explores `current`, leaving the stack as found unless a cycle turned up. */
  method Visit(current: nat, g: Graph, states: array<Colour>, stack: seq<nat>, ghost finished: seq<nat>)
    returns (cycle: Option<seq<nat>>, ghost finished': seq<nat>)
    requires WellFormed(g) && Search(g, states[..], stack, finished)
    requires current < |g| && states[current] == White
    requires stack != [] ==> Edge(g, stack[|stack| - 1], current)
    modifies states
    ensures cycle.Some? ==> IsSimpleCycle(g, cycle.value)
    ensures cycle.None? ==> Search(g, states[..], stack, finished') && finished <= finished' && current in finished'
    decreases Whites(states[..])
  {
    finished' := finished;
    PushKeepsSearch(g, states[..], stack, finished, current);
    ghost var entry := states[..];
    states[current] := Grey;
    assert states[..] == entry[current := Grey];
    var path := stack + [current];
    for k := 0 to |g[current]|
      invariant Search(g, states[..], path, finished')
      invariant finished <= finished'
      invariant forall m :: 0 <= m < k ==> g[current][m] in finished'
      invariant Whites(states[..]) < Whites(entry)
    {
      var dependency := g[current][k];
      assert dependency in g[current];
      match states[dependency]
      case White =>
        ghost var before := states[..];
        assert path[|path| - 1] == current;
        cycle, finished' := Visit(dependency, g, states, path, finished');
        if cycle.Some? { return; }
        assert Whites(states[..]) <= Whites(before);
      case Grey =>
        var start := match Position(path, dependency) case Some(i) => i case None => 0;
        assert path[start] == dependency;
        ClosingEdge(g, path, start);
        return Some(path[start..]), finished';
      case Black =>
    }
    FinishKeepsSearch(g, states[..], stack, finished', current);
    ghost var last := states[..];
    states[current] := Black;
    assert states[..] == last[current := Black];
    finished' := finished' + [current];
    cycle := None;
  }

  /** Reports no cycle exactly when the graph has none; what it reports is a simple cycle. */
  method FindDependencyCycle(g: Graph) returns (cycle: Option<seq<nat>>)
    requires WellFormed(g)
    ensures cycle.None? <==> Acyclic(g)
    ensures cycle.Some? ==> IsSimpleCycle(g, cycle.value)
  {
    var states := new Colour[|g|](_ => White);
    ghost var finished: seq<nat> := [];
    for index := 0 to |g|
      invariant Search(g, states[..], [], finished)
      invariant forall v :: 0 <= v < index ==> v in finished
    {
      if states[index] == White {
        cycle, finished := Visit(index, g, states, [], finished);
        if cycle.Some? { return; }
      }
    }
    OrderedImpliesAcyclic(g, finished);
    cycle := None;
  }

  // ---------------------------------------------------------------- Kahn's algorithm

  ghost function Pending(g: Graph, v: nat, emitted: set<nat>): set<nat>
    requires v < |g|
  {
    set d | d in g[v] && d !in emitted
  }

  ghost predicate Ascending(s: seq<nat>) {
    forall i, j :: 0 <= i < j < |s| ==> s[i] < s[j]
  }

  lemma AscendingAppend(s: seq<nat>, n: nat)
    requires Ascending(s) && forall x: nat :: x in s ==> x < n
    ensures Ascending(s + [n])
  {
    forall i | 0 <= i < |s| ensures s[i] < n { assert s[i] in s; }
  }

  ghost predicate IsReverse(g: Graph, rev: seq<seq<nat>>) {
    && |rev| == |g|
    && forall d: nat :: d < |g| ==>
         Ascending(rev[d]) && forall v: nat :: v in rev[d] <==> Edge(g, v, d)
  }

  ghost predicate PartialReverse(g: Graph, rev: seq<seq<nat>>, n: nat, k: nat)
    requires n < |g| && k <= |g[n]|
  {
    && |rev| == |g|
    && forall d: nat :: d < |g| ==>
         Ascending(rev[d]) && forall v: nat :: v in rev[d] <==> (v < n && d in g[v]) || (v == n && d in g[n][..k])
  }

  lemma NextRow(g: Graph, rev: seq<seq<nat>>, n: nat)
    requires n < |g| && PartialReverse(g, rev, n, |g[n]|)
    ensures n + 1 < |g| ==> PartialReverse(g, rev, n + 1, 0)
    ensures n + 1 == |g| ==> IsReverse(g, rev)
  {
  }

  /** Counts dependencies per node and lists the dependents of each node. */
  method ReverseGraph(g: Graph) returns (rev: array<seq<nat>>, degree: array<nat>)
    requires WellFormed(g) && forall v: nat :: v < |g| ==> Distinct(g[v])
    ensures fresh(rev) && fresh(degree)
    ensures IsReverse(g, rev[..])
    ensures degree.Length == |g| && forall v: nat :: v < |g| ==> degree[v] == |g[v]|
  {
    rev := new seq<nat>[|g|](_ => []);
    degree := new nat[|g|](_ => 0);
    for n := 0 to |g|
      invariant n < |g| ==> PartialReverse(g, rev[..], n, 0)
      invariant n == |g| ==> IsReverse(g, rev[..])
      invariant forall v :: 0 <= v < n ==> degree[v] == |g[v]|
    {
      degree[n] := |g[n]|;
      for k := 0 to |g[n]|
        invariant PartialReverse(g, rev[..], n, k)
        invariant forall v :: 0 <= v <= n ==> degree[v] == |g[v]|
      {
        var d := g[n][k];
        assert d in g[n];
        assert d !in g[n][..k];
        AscendingAppend(rev[..][d], n);
        assert g[n][..k + 1] == g[n][..k] + [d];
        rev[d] := rev[d] + [n];
      }
      NextRow(g, rev[..], n);
    }
  }

  /** The loop state of Kahn's algorithm between two pops. */
  ghost predicate Kahn(g: Graph, order: seq<nat>, queue: seq<nat>, degree: seq<nat>) {
    && |degree| == |g|
    && Distinct(order + queue)
    && (forall v: nat :: v in order + queue <==> v < |g| && degree[v] == 0)
    && (forall v: nat :: v < |g| ==> degree[v] == |Pending(g, v, Elements(order))|)
    && DependenciesFirst(g, order)
  }

  /** The same while the dependents `rev` of the node just emitted are being released. */
  ghost predicate Releasing(g: Graph, order: seq<nat>, queue: seq<nat>, degree: seq<nat>, waiting: set<nat>) {
    && order != [] && |degree| == |g|
    && Distinct(order + queue)
    && (forall v: nat :: v in order + queue <==> v < |g| && degree[v] == 0)
    && (forall v: nat :: v < |g| ==>
          degree[v] == |Pending(g, v, Elements(if v in waiting then order[..|order| - 1] else order))|)
    && (forall v: nat :: v in waiting ==> Edge(g, v, order[|order| - 1]))
    && DependenciesFirst(g, order)
  }

  lemma PopKeepsKahn(g: Graph, order: seq<nat>, queue: seq<nat>, degree: seq<nat>, dependents: seq<nat>)
    requires Kahn(g, order, queue, degree) && queue != []
    requires forall v: nat :: v in dependents <==> Edge(g, v, queue[0])
    ensures Releasing(g, order + [queue[0]], queue[1..], degree, Elements(dependents))
  {
    var c := queue[0];
    var order' := order + [c];
    assert order' + queue[1..] == order + queue;
    assert order'[..|order|] == order;
    assert c in order + queue;
    assert Pending(g, c, Elements(order)) == {};
    forall d | d in g[c] ensures d in order {
      assert d !in Pending(g, c, Elements(order));
    }
    assert (order + queue)[|order|] == c;
    assert Distinct(order') by {
      assert forall i :: 0 <= i < |order'| ==> order'[i] == (order + queue)[i];
    }
    assert forall i :: 0 <= i < |order| ==> order'[..i] == order[..i];
    assert Elements(order') == Elements(order) + {c};
    forall v | 0 <= v < |g| && v !in dependents
      ensures Pending(g, v, Elements(order')) == Pending(g, v, Elements(order))
    {
      assert !Edge(g, v, c);
    }
  }

  lemma ReleaseKeeps(g: Graph, order: seq<nat>, queue: seq<nat>, degree: seq<nat>, waiting: set<nat>, v: nat)
    requires Releasing(g, order, queue, degree, waiting) && v in waiting
    ensures v < |degree| && degree[v] > 0
    ensures var degree' := degree[v := degree[v] - 1];
            Releasing(g, order, if degree'[v] == 0 then queue + [v] else queue, degree', waiting - {v})
  {
    var c := order[|order| - 1];
    var before := order[..|order| - 1];
    assert order == before + [c];
    assert c !in before by {
      assert forall i :: 0 <= i < |before| ==> before[i] == (order + queue)[i];
      assert (order + queue)[|before|] == c;
    }
    var p, p' := Pending(g, v, Elements(before)), Pending(g, v, Elements(order));
    assert c in p;
    assert p' == p - {c};
    assert degree[v] > 0;
    var degree' := degree[v := degree[v] - 1];
    assert v !in order + queue;
    if degree'[v] == 0 {
      assert order + (queue + [v]) == (order + queue) + [v];
    }
  }

  lemma LeftoverWaits(g: Graph, order: seq<nat>, degree: seq<nat>, v: nat)
    requires WellFormed(g) && Kahn(g, order, [], degree) && v in Below(|g|) - Elements(order)
    ensures HasDependencyIn(g, v, Below(|g|) - Elements(order))
  {
    assert v !in order + [];
    var d: nat :| d in Pending(g, v, Elements(order));
    assert Edge(g, v, d) && d in Below(|g|) - Elements(order);
  }

  lemma DrainedIsComplete(g: Graph, order: seq<nat>, degree: seq<nat>)
    requires WellFormed(g) && Acyclic(g) && Kahn(g, order, [], degree)
    ensures Covers(g, order) && |order| == |g|
  {
    assert order + [] == order;
    var left := Below(|g|) - Elements(order);
    if left != {} {
      var v := AcyclicHasSink(g, left);
      LeftoverWaits(g, order, degree, v);
      assert false;
    }
    forall v: nat | v < |g| ensures v in order {
      assert v in Below(|g|) && v !in left;
    }
    assert forall v: nat :: v in order ==> v in order + [];
    CoversBelow(order, |g|);
  }

  lemma RoomLeft(g: Graph, s: seq<nat>)
    requires Distinct(s) && forall v: nat :: v in s ==> v < |g|
    ensures |s| <= |g|
  {
    DistinctCardinality(s);
    SubsetCardinality(Elements(s), Below(|g|));
  }

  // ---------------------------------------------------------------- who is emitted first

  /** Node `v` became ready with the node at position `p`, its last dependency; -1 if it has none. */
  ghost predicate ReleasedAt(g: Graph, order: seq<nat>, v: nat, p: int) {
    && v < |g| && -1 <= p < |order|
    && (forall d :: d in g[v] ==> d in order[..p + 1])
    && (p >= 0 ==> order[p] in g[v])
  }

  /** The line holds nodes by the time they became ready, and by index where that is the same. */
  ghost predicate InLine(g: Graph, order: seq<nat>, line: seq<nat>, when: seq<int>) {
    && |when| == |line|
    && (forall i :: 0 <= i < |line| ==> ReleasedAt(g, order, line[i], when[i]))
    && (forall i, j :: 0 <= i < j < |line| ==> when[i] < when[j] || (when[i] == when[j] && line[i] < line[j]))
  }

  /** First ready, first emitted, and ties broken by index. */
  ghost predicate InReleaseOrder(g: Graph, order: seq<nat>) {
    exists when :: InLine(g, order, order, when)
  }

  /** Everybody in the line became ready before the last emission, or with it but before `rest`. */
  ghost predicate Ahead(order: seq<nat>, line: seq<nat>, when: seq<int>, rest: seq<nat>) {
    |when| == |line| && forall i :: 0 <= i < |line| ==>
      when[i] < |order| - 1 || (when[i] == |order| - 1 && forall k :: 0 <= k < |rest| ==> line[i] < rest[k])
  }

  lemma EmittingKeepsLine(g: Graph, order: seq<nat>, queue: seq<nat>, when: seq<int>, rest: seq<nat>)
    requires queue != [] && InLine(g, order, order + queue, when)
    ensures var order' := order + [queue[0]];
            InLine(g, order', order' + queue[1..], when) && Ahead(order', order' + queue[1..], when, rest)
  {
    var order', line := order + [queue[0]], order + queue;
    assert order' + queue[1..] == line;
    forall i | 0 <= i < |line| ensures ReleasedAt(g, order', line[i], when[i]) {
      assert ReleasedAt(g, order, line[i], when[i]);
      assert order'[..when[i] + 1] == order[..when[i] + 1];
    }
  }

  lemma JoiningKeepsLine(g: Graph, order: seq<nat>, line: seq<nat>, when: seq<int>, rest: seq<nat>)
    requires InLine(g, order, line, when) && Ahead(order, line, when, rest) && Ascending(rest) && rest != []
    requires rest[0] < |g| && order != [] && order[|order| - 1] in g[rest[0]] && forall d :: d in g[rest[0]] ==>
      d in order
    ensures InLine(g, order, line + [rest[0]], when + [|order| - 1])
    ensures Ahead(order, line + [rest[0]], when + [|order| - 1], rest[1..])
  {
    assert order[..|order|] == order;
  }

  lemma PassingKeepsAhead(order: seq<nat>, line: seq<nat>, when: seq<int>, rest: seq<nat>)
    requires Ahead(order, line, when, rest) && rest != []
    ensures Ahead(order, line, when, rest[1..])
  {
  }

  lemma SharedPrefix(a: seq<nat>, b: seq<nat>, k: nat)
    requires k <= |a| && k <= |b| && a[..k] == b[..k]
    ensures forall i :: 0 <= i < k ==> a[i] == b[i]
  {
    forall i | 0 <= i < k ensures a[i] == b[i] { assert a[..k][i] == b[..k][i]; }
  }

  lemma ReleasedOnce(g: Graph, a: seq<nat>, b: seq<nat>, k: nat, v: nat, p: int, q: int)
    requires k <= |a| && k <= |b| && a[..k] == b[..k] && Distinct(a) && Distinct(b)
    requires ReleasedAt(g, a, v, p) && ReleasedAt(g, b, v, q) && p < k
    ensures p == q
  {
    SharedPrefix(a, b, k);
  }

  lemma ReadyBeforeEmitted(g: Graph, order: seq<nat>, when: seq<int>, i: nat)
    requires DependenciesFirst(g, order) && InLine(g, order, order, when) && i < |order|
    ensures when[i] < i
  {
    if when[i] >= 0 {
      var d := order[when[i]];
      assert ReleasedAt(g, order, order[i], when[i]);
      assert d in order[..i];
      var j :| 0 <= j < i && order[j] == d;
    }
  }

  /** Two complete release orders that agree so far agree on the next node. */
  lemma NextIsDetermined(g: Graph, a: seq<nat>, wa: seq<int>, b: seq<nat>, wb: seq<int>, k: nat)
    requires DependenciesFirst(g, a) && Covers(g, a) && InLine(g, a, a, wa)
    requires DependenciesFirst(g, b) && Covers(g, b) && InLine(g, b, b, wb)
    requires k < |a| && k < |b| && a[..k] == b[..k]
    ensures a[k] == b[k]
  {
    if a[k] != b[k] {
      var i := LaterIn(a, b, k);
      var j := LaterIn(b, a, k);
      ReadyBeforeEmitted(g, a, wa, k);
      ReadyBeforeEmitted(g, b, wb, k);
      ReleasedOnce(g, a, b, k, a[k], wa[k], wb[j]);
      ReleasedOnce(g, b, a, k, b[k], wb[k], wa[i]);
    }
  }

  lemma LaterIn(a: seq<nat>, b: seq<nat>, k: nat) returns (i: nat)
    requires k < |a| && k < |b| && a[..k] == b[..k] && a[k] != b[k] && Distinct(b) && b[k] in a
    ensures k < i < |a| && a[i] == b[k]
  {
    SharedPrefix(a, b, k);
    i :| 0 <= i < |a| && a[i] == b[k];
  }

  lemma {:induction false} PrefixIsDetermined(g: Graph, a: seq<nat>, wa: seq<int>, b: seq<nat>, wb: seq<int>, k: nat)
    requires DependenciesFirst(g, a) && Covers(g, a) && InLine(g, a, a, wa)
    requires DependenciesFirst(g, b) && Covers(g, b) && InLine(g, b, b, wb)
    requires k <= |a| && k <= |b|
    ensures a[..k] == b[..k]
  {
    if k > 0 {
      PrefixIsDetermined(g, a, wa, b, wb, k - 1);
      NextIsDetermined(g, a, wa, b, wb, k - 1);
      PrefixGrows(a, b, k);
    }
  }

  lemma PrefixGrows(a: seq<nat>, b: seq<nat>, k: nat)
    requires 0 < k <= |a| && k <= |b| && a[..k - 1] == b[..k - 1] && a[k - 1] == b[k - 1]
    ensures a[..k] == b[..k]
  {
    assert a[..k] == a[..k - 1] + [a[k - 1]] && b[..k] == b[..k - 1] + [b[k - 1]];
  }

  /** There is only one complete order in which the first ready is the first emitted. */
  lemma ReleaseOrderIsUnique(g: Graph, a: seq<nat>, b: seq<nat>)
    requires DependenciesFirst(g, a) && Covers(g, a) && InReleaseOrder(g, a)
    requires DependenciesFirst(g, b) && Covers(g, b) && InReleaseOrder(g, b)
    ensures a == b
  {
    var wa :| InLine(g, a, a, wa);
    var wb :| InLine(g, b, b, wb);
    CoversBelow(a, |g|);
    CoversBelow(b, |g|);
    PrefixIsDetermined(g, a, wa, b, wb, |g|);
    assert a[..|g|] == a && b[..|g|] == b;
  }

  /** Only the edges matter, not how the adjacency lists are arranged. */
  lemma SameEdges(g: Graph, h: Graph, order: seq<nat>)
    requires |g| == |h| && forall v: nat, d: nat :: Edge(g, v, d) <==> Edge(h, v, d)
    requires Covers(g, order) && DependenciesFirst(g, order) && InReleaseOrder(g, order)
    ensures Covers(h, order) && DependenciesFirst(h, order) && InReleaseOrder(h, order)
  {
    forall i, d | 0 <= i < |order| && d in h[order[i]] ensures d in order[..i] {
      assert Edge(g, order[i], d);
    }
    var when :| InLine(g, order, order, when);
    forall i | 0 <= i < |order| ensures ReleasedAt(h, order, order[i], when[i]) {
      SameRelease(g, h, order, order[i], when[i]);
    }
    assert InLine(h, order, order, when);
  }

  lemma SameRelease(g: Graph, h: Graph, order: seq<nat>, v: nat, p: int)
    requires |g| == |h| && forall v: nat, d: nat :: Edge(g, v, d) <==> Edge(h, v, d)
    requires ReleasedAt(g, order, v, p)
    ensures ReleasedAt(h, order, v, p)
  {
    assert forall d :: d in g[v] <==> d in h[v] by {
      forall d ensures d in g[v] <==> d in h[v] { assert Edge(g, v, d) <==> Edge(h, v, d); }
    }
  }

  // ---------------------------------------------------------------- Kahn's loops

  ghost function Always(n: nat): seq<int> { seq(n, _ => -1) }

  lemma NothingToWaitFor(g: Graph, queue: seq<nat>)
    requires Ascending(queue) && forall v: nat :: v in queue ==> v < |g| && g[v] == []
    ensures InLine(g, [], queue, Always(|queue|))
  {
    forall i | 0 <= i < |queue| ensures ReleasedAt(g, [], queue[i], -1) {
      assert queue[i] in queue;
    }
  }

  /** The nodes without dependencies, in index order. */
  method InitialQueue(g: Graph, degree: array<nat>) returns (queue: seq<nat>)
    requires degree.Length == |g| && forall v: nat :: v < |g| ==> degree[v] == |g[v]| && Distinct(g[v])
    ensures Kahn(g, [], queue, degree[..])
    ensures InLine(g, [], queue, Always(|queue|))
  {
    queue := [];
    for index := 0 to |g|
      invariant Ascending(queue) && forall v: nat :: v in queue <==> v < index && degree[v] == 0
    {
      if degree[index] == 0 {
        AscendingAppend(queue, index);
        queue := queue + [index];
      }
    }
    assert [] + queue == queue;
    NothingToWaitFor(g, queue);
    forall v: nat | v < |g| ensures degree[v] == |Pending(g, v, {})| {
      assert Pending(g, v, {}) == Elements(g[v]);
      DistinctCardinality(g[v]);
    }
    assert Elements<nat>([]) == {};
  }

  /** Decrements each dependent of the node just emitted and queues those that reach zero. */
  method Release(g: Graph, ghost order: seq<nat>, queue: seq<nat>, degree: array<nat>, dependents: seq<nat>,
                 ghost when: seq<int>)
    returns (queue': seq<nat>, ghost when': seq<int>)
    requires Ascending(dependents) && Releasing(g, order, queue, degree[..], Elements(dependents))
    requires InLine(g, order, order + queue, when) && Ahead(order, order + queue, when, dependents)
    modifies degree
    ensures Kahn(g, order, queue', degree[..])
    ensures InLine(g, order, order + queue', when')
  {
    queue', when' := queue, when;
    assert dependents[0..] == dependents;
    for j := 0 to |dependents|
      invariant Releasing(g, order, queue', degree[..], Elements(dependents[j..]))
      invariant InLine(g, order, order + queue', when') && Ahead(order, order + queue', when', dependents[j..])
    {
      var dependent := dependents[j];
      ghost var was, waiting := degree[..], dependents[j..];
      WaitingShrinks(dependents, j);
      ReleaseKeeps(g, order, queue', was, Elements(waiting), dependent);
      degree[dependent] := degree[dependent] - 1;
      assert degree[..] == was[dependent := was[dependent] - 1];
      if degree[dependent] == 0 {
        ReleasedIsReady(g, order, queue' + [dependent], degree[..], Elements(dependents[j + 1..]), dependent);
        JoiningKeepsLine(g, order, order + queue', when', waiting);
        assert order + (queue' + [dependent]) == (order + queue') + [dependent];
        queue', when' := queue' + [dependent], when' + [|order| - 1];
      } else {
        PassingKeepsAhead(order, order + queue', when', waiting);
      }
    }
  }

  lemma WaitingShrinks(dependents: seq<nat>, j: nat)
    requires Ascending(dependents) && j < |dependents|
    ensures dependents[j..][1..] == dependents[j + 1..] && dependents[j] in Elements(dependents[j..])
    ensures Ascending(dependents[j..])
    ensures Elements(dependents[j..]) - {dependents[j]} == Elements(dependents[j + 1..])
  {
    assert dependents[j..] == [dependents[j]] + dependents[j + 1..];
  }

  /** A node whose count is zero has all of its dependencies emitted. */
  lemma ReleasedIsReady(g: Graph, order: seq<nat>, queue: seq<nat>, degree: seq<nat>, waiting: set<nat>, v: nat)
    requires Releasing(g, order, queue, degree, waiting) && v < |g| && v !in waiting && degree[v] == 0
    ensures forall d :: d in g[v] ==> d in order
  {
    forall d | d in g[v] ensures d in order {
      assert d !in Pending(g, v, Elements(order));
    }
  }

  /**
    On an acyclic graph the order covers every node once, dependencies before dependents, and is
    the one order in which the first ready is the first emitted.
    */
  method KahnOrder(g: Graph) returns (order: seq<nat>)
    requires WellFormed(g) && Acyclic(g) && forall v: nat :: v < |g| ==> Distinct(g[v])
    ensures |order| == |g| && Covers(g, order) && DependenciesFirst(g, order)
    ensures InReleaseOrder(g, order)
  {
    var rev, degree := ReverseGraph(g);
    var queue := InitialQueue(g, degree);
    ghost var reverse, when := rev[..], Always(|queue|);
    order := [];
    assert order + queue == queue;
    while queue != []
      invariant Kahn(g, order, queue, degree[..]) && InLine(g, order, order + queue, when)
      invariant rev[..] == reverse && IsReverse(g, reverse)
      decreases |g| - |order|
    {
      var current := queue[0];
      HeadInRange(g, order, queue, degree[..]);
      PopKeepsKahn(g, order, queue, degree[..], reverse[current]);
      EmittingKeepsLine(g, order, queue, when, reverse[current]);
      order := order + [current];
      queue, when := Release(g, order, queue[1..], degree, rev[current], when);
    }
    assert order + [] == order;
    DrainedIsComplete(g, order, degree[..]);
  }

  lemma HeadInRange(g: Graph, order: seq<nat>, queue: seq<nat>, degree: seq<nat>)
    requires Kahn(g, order, queue, degree) && queue != []
    ensures queue[0] < |g| && |order| < |g|
  {
    assert queue[0] in order + queue;
    RoomLeft(g, order + queue);
  }
}
