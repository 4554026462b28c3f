/** decision_graph: validation and Kahn scheduling in the constructor, and the evaluator with its
    skip, stale and error propagation. Callbacks are arbitrary functions of what they may read,
    clock readings are arbitrary booleans. */
module DecisionGraph {
  import opened DependencyOrder
  import opened Lists
  import opened Wrappers

  datatype Status = Succeeded | Skipped | Error | Stale

  datatype NodeResult = NodeResult(status: Status, output: string, message: string, snapshotId: string)

  datatype Snapshot = Snapshot(id: string, input: string)

  datatype Trace = Trace(id: string, dependencies: seq<string>, result: NodeResult)

  datatype Context = Context(snapshot: Snapshot, dependencies: seq<Trace>)

  /** A callback returns, throws a std::exception with a text, or throws something else. */
  datatype Called<+T> = Returned(value: T) | Threw(what: string) | ThrewUnknown

  datatype Node = Node(
    id: string,
    dependencies: seq<string>,
    evaluate: Option<Context -> Called<NodeResult>>,
    condition: Option<Context -> Called<bool>>,
    requireSuccess: bool)

  // ------------------------------------------------------------- construction

  datatype Fault =
    | EmptyId(node: nat)
    | NoEvaluator(node: nat)
    | DuplicateId(node: nat)
    | MissingDependency(node: nat, dependency: nat)
    | DuplicateDependency(node: nat, dependency: nat)
    | HasCycle

  datatype Graph = Graph(nodes: seq<Node>, deps: Deps, order: seq<nat>)

  datatype Build = Built(graph: Graph) | Refused(fault: Fault)

  /** What the first pass rejects at node i. */
  predicate BadNode(nodes: seq<Node>, i: nat)
    requires i < |nodes|
  {
    nodes[i].id == "" || nodes[i].evaluate.None? || exists j :: 0 <= j < i && nodes[j].id == nodes[i].id
  }

  /** What the second pass rejects at dependency k of node i. */
  predicate BadDependency(nodes: seq<Node>, i: nat, k: nat)
    requires i < |nodes| && k < |nodes[i].dependencies|
  {
    || (forall j :: 0 <= j < |nodes| ==> nodes[j].id != nodes[i].dependencies[k])
    || nodes[i].dependencies[k] in nodes[i].dependencies[..k]
  }

  ghost predicate Resolvable(nodes: seq<Node>) {
    && (forall i :: 0 <= i < |nodes| ==> !BadNode(nodes, i))
    && (forall i, k :: 0 <= i < |nodes| && 0 <= k < |nodes[i].dependencies| ==> !BadDependency(nodes, i, k))
  }

  /** deps names by index what the nodes name by id. */
  ghost predicate Resolves(nodes: seq<Node>, deps: Deps) {
    && |deps| == |nodes|
    && (forall i :: 0 <= i < |nodes| ==> |deps[i]| == |nodes[i].dependencies|)
    && (forall i, k :: 0 <= i < |nodes| && 0 <= k < |deps[i]| ==>
          deps[i][k] < |nodes| && nodes[deps[i][k]].id == nodes[i].dependencies[k])
  }

  ghost predicate FaultHolds(nodes: seq<Node>, fault: Fault) {
    match fault
    case EmptyId(i) => i < |nodes| && nodes[i].id == "" && FirstBad(nodes, i)
    case NoEvaluator(i) => i < |nodes| && nodes[i].evaluate.None? && FirstBad(nodes, i)
    case DuplicateId(i) => i < |nodes| && (exists j :: 0 <= j < i && nodes[j].id == nodes[i].id) && FirstBad(nodes, i)
    case MissingDependency(i, k) =>
      && i < |nodes| && k < |nodes[i].dependencies| && (forall j :: 0 <= j < |nodes| ==> !BadNode(nodes, j))
      && forall j :: 0 <= j < |nodes| ==> nodes[j].id != nodes[i].dependencies[k]
    case DuplicateDependency(i, k) =>
      && i < |nodes| && k < |nodes[i].dependencies| && (forall j :: 0 <= j < |nodes| ==> !BadNode(nodes, j))
      && nodes[i].dependencies[k] in nodes[i].dependencies[..k]
    case HasCycle =>
      && Resolvable(nodes)
      && exists deps: Deps, path :: Resolves(nodes, deps) && Cycle(deps, path)
  }

  ghost predicate FirstBad(nodes: seq<Node>, i: nat)
    requires i < |nodes|
  {
    forall j :: 0 <= j < i ==> !BadNode(nodes, j)
  }

  /** The unordered_map from ids to positions, filled while the ids are checked. */
  method IndexIds(nodes: seq<Node>) returns (indices: map<string, nat>, fault: Option<Fault>)
    ensures fault.Some? ==> FaultHolds(nodes, fault.value)
    ensures fault.None? ==>
              && (forall i :: 0 <= i < |nodes| ==> !BadNode(nodes, i))
              && (forall i :: 0 <= i < |nodes| ==> nodes[i].id in indices && indices[nodes[i].id] == i)
              && (forall id :: id in indices ==> indices[id] < |nodes| && nodes[indices[id]].id == id)
  {
    indices := map[];
    for i := 0 to |nodes|
      invariant forall j :: 0 <= j < i ==> !BadNode(nodes, j)
      invariant forall j :: 0 <= j < i ==> nodes[j].id in indices && indices[nodes[j].id] == j
      invariant forall id :: id in indices ==> indices[id] < i && nodes[indices[id]].id == id
    {
      if nodes[i].id == "" { return indices, Some(EmptyId(i)); }
      if nodes[i].evaluate.None? { return indices, Some(NoEvaluator(i)); }
      if nodes[i].id in indices {
        assert nodes[indices[nodes[i].id]].id == nodes[i].id;
        return indices, Some(DuplicateId(i));
      }
      indices := indices[nodes[i].id := i];
    }
    fault := None;
  }

  /** The predecessors of one node by index. */
  method ResolveNode(nodes: seq<Node>, indices: map<string, nat>, i: nat)
      returns (found: seq<nat>, fault: Option<Fault>)
    requires i < |nodes| && forall j :: 0 <= j < |nodes| ==> !BadNode(nodes, j)
    requires forall j :: 0 <= j < |nodes| ==> nodes[j].id in indices && indices[nodes[j].id] == j
    requires forall id :: id in indices ==> indices[id] < |nodes| && nodes[indices[id]].id == id
    ensures fault.Some? ==> FaultHolds(nodes, fault.value) && !Resolvable(nodes)
    ensures fault.None? ==>
              && |found| == |nodes[i].dependencies|
              && (forall k :: 0 <= k < |found| ==> !BadDependency(nodes, i, k))
              && (forall k :: 0 <= k < |found| ==> found[k] < |nodes| && nodes[found[k]].id == nodes[i].dependencies[k])
  {
    var names := nodes[i].dependencies;
    var seen: set<string> := {};
    found := [];
    for k := 0 to |names|
      invariant |found| == k
      invariant forall name :: name in seen <==> name in names[..k]
      invariant forall m :: 0 <= m < k ==> !BadDependency(nodes, i, m)
      invariant forall m :: 0 <= m < k ==> found[m] < |nodes| && nodes[found[m]].id == names[m]
    {
      if names[k] !in indices {
        assert BadDependency(nodes, i, k);
        return found, Some(MissingDependency(i, k));
      }
      if names[k] in seen {
        assert BadDependency(nodes, i, k);
        return found, Some(DuplicateDependency(i, k));
      }
      assert nodes[indices[names[k]]].id == names[k];
      seen := seen + {names[k]};
      found := found + [indices[names[k]]];
    }
    fault := None;
  }

  /** Resolution is unique, and keeps a node's predecessors distinct. */
  lemma ResolvedUniquely(nodes: seq<Node>, a: Deps, b: Deps)
    requires Resolvable(nodes) && Resolves(nodes, a) && Resolves(nodes, b)
    ensures a == b && WellFormed(a)
    ensures forall i :: 0 <= i < |a| ==> NoDuplicates(a[i])
  {
    forall i, k | 0 <= i < |nodes| && 0 <= k < |a[i]| ensures a[i][k] == b[i][k] {
      assert nodes[a[i][k]].id == nodes[b[i][k]].id;
      assert !BadNode(nodes, a[i][k]) && !BadNode(nodes, b[i][k]);
    }
    forall i | 0 <= i < |nodes| ensures a[i] == b[i] && NoDuplicates(a[i]) {
      forall j, k | 0 <= j < k < |a[i]| ensures a[i][j] != a[i][k] {
        assert !BadDependency(nodes, i, k);
        assert nodes[i].dependencies[j] in nodes[i].dependencies[..k];
      }
    }
  }

  // ------------------------------------------------------------ Kahn's algorithm

  function Pending(ds: seq<nat>, done: set<nat>): nat {
    if ds == [] then 0 else (if ds[0] in done then 0 else 1) + Pending(ds[1..], done)
  }

  lemma {:induction false} PendingAdd(ds: seq<nat>, done: set<nat>, p: nat)
    requires NoDuplicates(ds) && p !in done
    ensures Pending(ds, done + {p}) == Pending(ds, done) - (if p in ds then 1 else 0)
    ensures p in ds ==> Pending(ds, done) > 0
  {
    if ds != [] {
      PendingAdd(ds[1..], done, p);
      assert ds[0] !in ds[1..];
      assert p in ds <==> p == ds[0] || p in ds[1..];
    }
  }

  lemma {:induction false} PendingZero(ds: seq<nat>, done: set<nat>)
    ensures Pending(ds, done) == 0 <==> forall d :: d in ds ==> d in done
  {
    if ds != [] {
      PendingZero(ds[1..], done);
      assert forall d :: d in ds <==> d == ds[0] || d in ds[1..];
    }
  }

  lemma {:induction false} PendingNone(ds: seq<nat>)
    ensures Pending(ds, {}) == |ds|
  {
    if ds != [] { PendingNone(ds[1..]); }
  }

  /** consumers[p] lists, once each, the nodes that wait for p. */
  ghost predicate Inverts(deps: Deps, consumers: seq<seq<nat>>) {
    && |consumers| == |deps|
    && (forall p :: 0 <= p < |deps| ==> NoDuplicates(consumers[p]))
    && (forall p: nat, i: nat {:trigger i in consumers[p]} :: p < |deps| && i in consumers[p] ==>
      i < |deps| && p in deps[i])
    && (forall p: nat, i: nat :: i < |deps| && p in deps[i] ==> p < |deps| && i in consumers[p])
  }

  method Invert(deps: Deps) returns (consumers: seq<seq<nat>>)
    requires WellFormed(deps) && forall i :: 0 <= i < |deps| ==> NoDuplicates(deps[i])
    ensures Inverts(deps, consumers)
  {
    consumers := seq(|deps|, _ => []);
    for i := 0 to |deps|
      invariant |consumers| == |deps|
      invariant forall p :: 0 <= p < |deps| ==> NoDuplicates(consumers[p])
      invariant forall p: nat, j: nat {:trigger j in consumers[p]} :: p < |deps| && j in consumers[p] ==>
          j < i && p in deps[j]
      invariant forall p: nat, j: nat :: j < i && p in deps[j] ==> p < |deps| && j in consumers[p]
    {
      for k := 0 to |deps[i]|
        invariant |consumers| == |deps|
        invariant forall p :: 0 <= p < |deps| ==> NoDuplicates(consumers[p])
        invariant forall p: nat, j: nat {:trigger j in consumers[p]} :: p < |deps| && j in consumers[p] ==>
                    (j < i && p in deps[j]) || (j == i && p in deps[i][..k])
        invariant forall p: nat, j: nat :: j < i && p in deps[j] ==> p < |deps| && j in consumers[p]
        invariant forall p :: p in deps[i][..k] ==> p < |deps| && i in consumers[p]
      {
        var p := deps[i][k];
        assert p !in deps[i][..k] && deps[i][..k + 1] == deps[i][..k] + [p];
        assert i !in consumers[p];
        ghost var before := consumers;
        consumers := consumers[p := consumers[p] + [i]];
        forall q: nat, j: nat | q < |deps| && j in consumers[q]
          ensures (j < i && q in deps[j]) || (j == i && q in deps[i][..k + 1])
        {
          assert j in before[q] || (q == p && j == i);
        }
      }
      assert deps[i][..|deps[i]|] == deps[i];
    }
  }

  /** The nodes that wait for nothing, in order. */
  method Roots(deps: Deps) returns (order: seq<nat>)
    ensures NoDuplicates(order) && forall j :: j in order <==> 0 <= j < |deps| && |deps[j]| == 0
    ensures forall q :: 0 <= q < |order| ==> order[q] < |deps| && |deps[order[q]]| == 0
  {
    order := [];
    for i := 0 to |deps|
      invariant NoDuplicates(order) && (forall j :: j in order <==> 0 <= j < i && |deps[j]| == 0)
      invariant forall q :: 0 <= q < |order| ==> order[q] < |deps| && |deps[order[q]]| == 0
    {
      if |deps[i]| == 0 { order := order + [i]; }
    }
  }

  /** Repeatedly release the nodes whose last predecessor has been scheduled. */
  method Kahn(deps: Deps, consumers: seq<seq<nat>>) returns (order: seq<nat>)
    requires WellFormed(deps) && (forall i :: 0 <= i < |deps| ==> NoDuplicates(deps[i])) && Inverts(deps, consumers)
    ensures |order| == |deps| ==> Schedule(deps, order)
    ensures |order| != |deps| ==> exists path :: Cycle(deps, path) && forall k :: 0 <= k < |path| ==> path[k] !in order
  {
    var n := |deps|;
    var remaining := new nat[n](i requires 0 <= i < n => |deps[i]|);
    order := Roots(deps);
    var cursor := 0;
    ghost var done: set<nat> := {};
    forall i | 0 <= i < n ensures remaining[i] == Pending(deps[i], done) { PendingNone(deps[i]); }
    while cursor < |order|
      invariant Settled(deps, order, cursor, done) && Counts(deps, order, done, remaining)
      decreases n - cursor
    {
      AllBelow(order, n);
      order := ReleaseConsumers(deps, consumers, remaining, order, cursor, done);
      assert order[..cursor + 1] == order[..cursor] + [order[cursor]];
      done := done + {order[cursor]};
      cursor := cursor + 1;
    }
    if |order| != n {
      ghost var path := Unschedulable(deps, order, done);
    }
  }

  /** remaining[i] counts the predecessors of i not yet done; i is listed once it reaches zero. */
  ghost predicate Counts(deps: Deps, order: seq<nat>, done: set<nat>, remaining: array<nat>)
    reads remaining
  {
    && remaining.Length == |deps|
    && (forall i :: 0 <= i < |deps| ==> remaining[i] == Pending(deps[i], done))
    && (forall i :: 0 <= i < |deps| ==> (i in order <==> remaining[i] == 0))
  }

  /** The inner loop: node order[cursor] is done, so each of its consumers waits for one fewer. */
  method ReleaseConsumers(deps: Deps, consumers: seq<seq<nat>>, remaining: array<nat>, listed: seq<nat>,
      cursor: nat, ghost done: set<nat>) returns (order: seq<nat>)
    requires (forall i :: 0 <= i < |deps| ==> NoDuplicates(deps[i])) && Inverts(deps, consumers)
    requires cursor < |listed| && Settled(deps, listed, cursor, done) && Counts(deps, listed, done, remaining)
    modifies remaining
    ensures listed <= order && Settled(deps, order, cursor, done)
    ensures Counts(deps, order, done + {order[cursor]}, remaining)
  {
    var p := listed[cursor];
    var waiting := consumers[p];
    assert p !in done;
    order := listed;
    for idx := 0 to |waiting|
      invariant listed <= order && Settled(deps, order, cursor, done)
      invariant forall i :: 0 <= i < |deps| ==>
                  remaining[i] == Pending(deps[i], if i in waiting[..idx] then done + {p} else done)
      invariant forall i :: 0 <= i < |deps| ==> (i in order <==> remaining[i] == 0)
    {
      var c := waiting[idx];
      assert c in consumers[p] && c !in waiting[..idx] && waiting[..idx + 1] == waiting[..idx] + [c];
      PendingAdd(deps[c], done, p);
      remaining[c] := remaining[c] - 1;
      if remaining[c] == 0 {
        PendingZero(deps[c], done + {p});
        NewlyReady(deps, order, cursor, done, c);
        order := order + [c];
      }
    }
    assert waiting[..|waiting|] == waiting;
    forall i | 0 <= i < |deps| ensures remaining[i] == Pending(deps[i], done + {p}) {
      PendingAdd(deps[i], done, p);
    }
  }

  /** A node whose predecessors are all done or current may be listed next. */
  lemma NewlyReady(deps: Deps, order: seq<nat>, cursor: nat, done: set<nat>, c: nat)
    requires Settled(deps, order, cursor, done) && cursor < |order| && c < |deps| && c !in order
    requires forall d :: d in deps[c] ==> d in done + {order[cursor]}
    ensures Settled(deps, order + [c], cursor, done)
  {
    var longer := order + [c];
    assert longer[..cursor] == order[..cursor] && longer[..|order|] == order;
    forall q, d | 0 <= q < |longer| && d in deps[longer[q]] ensures d in longer[..q] {
      if q < |order| {
        assert longer[..q] == order[..q];
      } else {
        assert d in done ==> d in order[..cursor];
      }
    }
  }

  /** Loop state: what is listed is distinct, what is done is order[..cursor], and predecessors come first. */
  ghost predicate Settled(deps: Deps, order: seq<nat>, cursor: nat, done: set<nat>) {
    && cursor <= |order|
    && NoDuplicates(order)
    && (forall q :: 0 <= q < |order| ==> order[q] < |deps|)
    && (forall d :: d in done <==> d in order[..cursor])
    && (forall q, d :: 0 <= q < |order| && d in deps[order[q]] ==> d in order[..q])
  }

  lemma Unschedulable(deps: Deps, order: seq<nat>, done: set<nat>) returns (path: seq<nat>)
    requires WellFormed(deps) && Settled(deps, order, |order|, done) && |order| != |deps|
    requires forall i :: 0 <= i < |deps| ==> (i in order <==> Pending(deps[i], done) == 0)
    ensures Cycle(deps, path) && forall k :: 0 <= k < |path| ==> path[k] !in order
  {
    assert order[..|order|] == order;
    var stuck := set i | i in Below(|deps|) && i !in order;
    if stuck == {} {
      forall x: nat | x < |deps| ensures x in order { assert x in Below(|deps|); }
      CoversAll(deps, order);
      assert false;
    }
    var start :| start in stuck;
    forall i | i in stuck ensures i < |deps| && Blocked(deps, stuck, i) {
      PendingZero(deps[i], done);
      var d :| d in deps[i] && d !in done;
      assert d in Below(|deps|);
    }
    path := StuckHasCycle(deps, stuck, start);
  }

  lemma CoversAll(deps: Deps, order: seq<nat>)
    requires NoDuplicates(order) && forall q :: 0 <= q < |order| ==> order[q] < |deps|
    requires forall x: nat :: x < |deps| ==> x in order
    ensures |order| == |deps|
  {
    AllBelow(order, |deps|);
    var values := set i | 0 <= i < |order| :: order[i];
    DistinctSize(order, values);
    forall x | x in Below(|deps|) ensures x in values { assert x in order; }
    SubsetSize(Below(|deps|), values);
  }

  // ------------------------------------------------------------- the constructor

  /** A graph is built exactly when every name resolves, nothing is doubled and nothing depends on
      itself; the order kept is then a schedule, and a refusal names a fault that is really there. */
  method Construct(nodes: seq<Node>) returns (built: Build)
    ensures match built
            case Built(g) => g.nodes == nodes && Resolvable(nodes) && Resolves(nodes, g.deps)
                             && Schedule(g.deps, g.order) && Acyclic(g.deps)
            case Refused(fault) => FaultHolds(nodes, fault)
  {
    var indices, fault := IndexIds(nodes);
    if fault.Some? { return Refused(fault.value); }
    var deps: Deps := [];
    for i := 0 to |nodes|
      invariant |deps| == i
      invariant forall j :: 0 <= j < i ==> |deps[j]| == |nodes[j].dependencies|
      invariant forall j, k :: 0 <= j < i && 0 <= k < |deps[j]| ==>
                  deps[j][k] < |nodes| && nodes[deps[j][k]].id == nodes[j].dependencies[k]
      invariant forall j, k :: 0 <= j < i && 0 <= k < |nodes[j].dependencies| ==> !BadDependency(nodes, j, k)
    {
      var found, bad := ResolveNode(nodes, indices, i);
      if bad.Some? { return Refused(bad.value); }
      deps := deps + [found];
    }
    ResolvedUniquely(nodes, deps, deps);
    var consumers := Invert(deps);
    var order := Kahn(deps, consumers);
    if |order| != |nodes| { return Refused(HasCycle); }
    ScheduleRefutesCycles(deps, order);
    built := Built(Graph(nodes, deps, order));
  }

  /** The five refusals and acceptance exclude one another: a resolvable acyclic list is never refused. */
  lemma RefusedOnlyWhenFaulty(nodes: seq<Node>, fault: Fault, deps: Deps)
    requires FaultHolds(nodes, fault)
    ensures !(Resolvable(nodes) && Resolves(nodes, deps) && Acyclic(deps))
  {
    match fault
    case EmptyId(i) => assert BadNode(nodes, i);
    case NoEvaluator(i) => assert BadNode(nodes, i);
    case DuplicateId(i) => assert BadNode(nodes, i);
    case MissingDependency(i, k) => assert BadDependency(nodes, i, k);
    case DuplicateDependency(i, k) => assert BadDependency(nodes, i, k);
    case HasCycle =>
      var other: Deps, path :| Resolves(nodes, other) && Cycle(other, path);
      if Resolves(nodes, deps) { ResolvedUniquely(nodes, deps, other); }
  }

  /** What the constructor asks of the nodes apart from cycles: different, nonempty ids, an evaluator each, and
      dependencies that name nodes, none twice. */
  lemma ResolvableIff(nodes: seq<Node>)
    ensures Resolvable(nodes) <==>
              && (forall i :: 0 <= i < |nodes| ==> nodes[i].id != "" && nodes[i].evaluate != None)
              && (forall i, j :: 0 <= i < j < |nodes| ==> nodes[i].id != nodes[j].id)
              && (forall i, d :: 0 <= i < |nodes| && d in nodes[i].dependencies ==> NamesNode(nodes, d))
              && (forall i :: 0 <= i < |nodes| ==> NoDuplicates(nodes[i].dependencies))
  {
    IdsFine(nodes);
    forall i | 0 <= i < |nodes|
      ensures (forall k :: 0 <= k < |nodes[i].dependencies| ==> !BadDependency(nodes, i, k)) <==>
                (forall d :: d in nodes[i].dependencies ==> NamesNode(nodes, d)) && NoDuplicates(nodes[i].dependencies)
    {
      DependenciesFine(nodes, i);
    }
  }

  ghost predicate NamesNode(nodes: seq<Node>, name: string) {
    exists j :: 0 <= j < |nodes| && nodes[j].id == name
  }

  lemma IdsFine(nodes: seq<Node>)
    ensures (forall i :: 0 <= i < |nodes| ==> !BadNode(nodes, i)) <==>
              && (forall i :: 0 <= i < |nodes| ==> nodes[i].id != "" && nodes[i].evaluate != None)
              && (forall i, j :: 0 <= i < j < |nodes| ==> nodes[i].id != nodes[j].id)
  {
    if forall i :: 0 <= i < |nodes| ==> !BadNode(nodes, i) {
      forall i, j | 0 <= i < j < |nodes| ensures nodes[i].id != nodes[j].id { assert !BadNode(nodes, j); }
      forall i | 0 <= i < |nodes| ensures nodes[i].id != "" && nodes[i].evaluate != None { assert !BadNode(nodes, i); }
    }
  }

  lemma DependenciesFine(nodes: seq<Node>, i: nat)
    requires i < |nodes|
    ensures var names := nodes[i].dependencies;
            (forall k :: 0 <= k < |names| ==> !BadDependency(nodes, i, k)) <==>
              (forall d :: d in names ==> NamesNode(nodes, d)) && NoDuplicates(names)
  {
    var names := nodes[i].dependencies;
    if forall k :: 0 <= k < |names| ==> !BadDependency(nodes, i, k) {
      forall a, b | 0 <= a < b < |names| ensures names[a] != names[b] {
        assert !BadDependency(nodes, i, b) && names[..b][a] == names[a];
      }
      forall d | d in names ensures NamesNode(nodes, d) {
        var k :| 0 <= k < |names| && names[k] == d;
        assert !BadDependency(nodes, i, k);
      }
    }
    if (forall d :: d in names ==> NamesNode(nodes, d)) && NoDuplicates(names) {
      forall k | 0 <= k < |names| ensures !BadDependency(nodes, i, k) {
        assert names[k] in names && NamesNode(nodes, names[k]);
      }
    }
  }
}
