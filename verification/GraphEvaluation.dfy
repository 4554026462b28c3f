/** decision_graph::evaluate: an in-order sweep proved to solve the graph's equations, whose solution
    is unique, so the result depends on neither the schedule nor unrelated nodes. */
module GraphEvaluation {
  import opened DependencyOrder
  import opened Lists
  import opened DecisionGraph
  import opened Wrappers

  /** What the deadline test answers for each node: before its callbacks and after them. */
  datatype Clock = Clock(before: seq<bool>, after: seq<bool>)

  predicate ClockFor(g: Graph, clock: Clock) {
    |clock.before| == |clock.after| == |g.nodes|
  }

  ghost predicate ValidGraph(g: Graph) {
    && Resolvable(g.nodes) && Resolves(g.nodes, g.deps) && Schedule(g.deps, g.order)
  }

  function StaleResult(message: string): NodeResult { NodeResult(Stale, "", message, "") }
  function SkipResult(message: string): NodeResult { NodeResult(Skipped, "", message, "") }
  function FailureResult(message: string): NodeResult { NodeResult(Error, "", message, "") }

  function Stamp(result: NodeResult, snapshotId: string): NodeResult {
    if result.snapshotId == "" then result.(snapshotId := snapshotId) else result
  }

  /** The first dependency that did not succeed decides between stale and skipped. */
  function Blocker(deps: seq<Trace>): (r: Option<NodeResult>)
    ensures r.None? <==> forall d :: d in deps ==> d.result.status.Succeeded?
    ensures r.Some? ==> !r.value.status.Succeeded? && r.value.snapshotId == ""
  {
    if deps == [] then None
    else if deps[0].result.status.Succeeded? then Blocker(deps[1..])
    else if deps[0].result.status.Stale? then Some(StaleResult("stale dependency: " + deps[0].id))
    else Some(SkipResult("unavailable dependency: " + deps[0].id))
  }

  function Invoke(node: Node, context: Context): NodeResult
    requires node.evaluate.Some?
  {
    var gate := if node.condition.Some? then node.condition.value(context) else Returned(true);
    match gate
    case Threw(what) => FailureResult(what)
    case ThrewUnknown => FailureResult("non-standard exception in graph callback")
    case Returned(go) =>
      if !go then SkipResult("condition is false")
      else
        match node.evaluate.value(context)
        case Threw(what) => FailureResult(what)
        case ThrewUnknown => FailureResult("non-standard exception in graph callback")
        case Returned(result) => result
  }

  /** The two checks a successful callback result still has to pass. */
  function Review(result: NodeResult, late: bool, snapshotId: string): NodeResult {
    var timed := if result.status.Succeeded? && late
      then result.(status := Stale, message := "evaluation deadline expired during callback") else result;
    if timed.status.Succeeded? && timed.snapshotId != "" && timed.snapshotId != snapshotId
    then timed.(status := Stale, message := "output snapshot does not match evaluation snapshot") else timed
  }

  /** One node of the sweep, as a function of what it may see. */
  function NodeTrace(node: Node, snapshot: Snapshot, deps: seq<Trace>, before: bool, after: bool): Trace
    requires node.evaluate.Some?
  {
    var result :=
      if before then StaleResult("evaluation deadline expired")
      else
        var blocked := if node.requireSuccess then Blocker(deps) else None;
        if blocked.Some? then blocked.value
        else Review(Invoke(node, Context(snapshot, deps)), after, snapshot.id);
    Trace(node.id, node.dependencies, Stamp(result, snapshot.id))
  }

  /** The equations of the graph: each node's trace is computed from its predecessors' traces.
      No schedule is mentioned. */
  ghost predicate Solves(g: Graph, snapshot: Snapshot, clock: Clock, m: seq<Trace>) {
    && ValidGraph(g) && ClockFor(g, clock) && |m| == |g.nodes|
    && forall i {:trigger m[i]} :: 0 <= i < |m| ==> NodeSolved(g, snapshot, clock, m, i)
  }

  ghost predicate NodeSolved(g: Graph, snapshot: Snapshot, clock: Clock, m: seq<Trace>, i: nat)
    requires ValidGraph(g) && ClockFor(g, clock) && |m| == |g.nodes| && i < |m|
  {
    Predecessors(g, i);
    assert !BadNode(g.nodes, i);
    m[i] == NodeTrace(g.nodes[i], snapshot, Pick(m, g.deps[i]), clock.before[i], clock.after[i])
  }

  lemma Predecessors(g: Graph, i: nat)
    requires Resolves(g.nodes, g.deps) && i < |g.nodes|
    ensures forall d :: d in g.deps[i] ==> d < |g.nodes|
  {
  }

  datatype Edge = Edge(from: string, to: string)

  function EdgesOf(g: Graph, i: nat): seq<Edge>
    requires Resolves(g.nodes, g.deps) && i < |g.nodes|
  {
    seq(|g.deps[i]|, k requires 0 <= k < |g.deps[i]| => Edge(g.nodes[g.deps[i][k]].id, g.nodes[i].id))
  }

  function Edges(g: Graph, order: seq<nat>): seq<Edge>
    requires Resolves(g.nodes, g.deps) && forall q :: 0 <= q < |order| ==> order[q] < |g.nodes|
  {
    if order == [] then []
    else Edges(g, order[..|order| - 1]) + EdgesOf(g, order[|order| - 1])
  }

  /** A trace of a node does not depend on nodes that are not its predecessors. */
  lemma Undisturbed(g: Graph, snapshot: Snapshot, clock: Clock, m: seq<Trace>, i: nat, index: nat, t: Trace)
    requires ValidGraph(g) && ClockFor(g, clock) && |m| == |g.nodes| && i < |m| && index < |m|
    requires NodeSolved(g, snapshot, clock, m, i) && index != i && index !in g.deps[i]
    ensures NodeSolved(g, snapshot, clock, m[index := t], i)
  {
    Predecessors(g, i);
    forall k | 0 <= k < |g.deps[i]| ensures g.deps[i][k] != index { assert g.deps[i][k] in g.deps[i]; }
    assert Pick(m[index := t], g.deps[i]) == Pick(m, g.deps[i]);
  }

  /** The sweep. Nodes are visited in the stored order, each appends its trace, and traceIndices finds a
      predecessor's trace again. The ghost result lists the same traces by node. */
  method Evaluate(g: Graph, snapshot: Snapshot, clock: Clock)
      returns (nodes: seq<Trace>, edges: seq<Edge>, ghost m: seq<Trace>)
    requires ValidGraph(g) && ClockFor(g, clock) && snapshot.id != ""
    ensures Solves(g, snapshot, clock, m)
    ensures |nodes| == |g.order| && forall q :: 0 <= q < |nodes| ==> nodes[q] == m[g.order[q]]
    ensures edges == Edges(g, g.order)
  {
    var n := |g.nodes|;
    var traceIndices := new nat[n](_ => 0);
    nodes, edges := [], [];
    m := seq(n, _ => Trace("", [], SkipResult("")));
    for cursor := 0 to |g.order|
      invariant |nodes| == cursor && |m| == n && edges == Edges(g, g.order[..cursor])
      invariant Filed(g.order, cursor, traceIndices[..], nodes, m)
      invariant Swept(g, snapshot, clock, m, cursor)
    {
      var index := g.order[cursor];
      assert !BadNode(g.nodes, index);
      var dependencies, found := CollectDependencies(g, index, cursor, traceIndices, nodes, m);
      edges := edges + found;
      assert g.order[..cursor + 1][..cursor] == g.order[..cursor];
      var item := NodeTrace(g.nodes[index], snapshot, dependencies, clock.before[index], clock.after[index]);
      SweptMore(g, snapshot, clock, m, cursor, item);
      FiledMore(g.order, cursor, traceIndices[..], nodes, m, item);
      traceIndices[index] := |nodes|;
      nodes := nodes + [item];
      m := m[index := item];
    }
    assert g.order[..|g.order|] == g.order;
    forall i | 0 <= i < n ensures NodeSolved(g, snapshot, clock, m, i) {
      var p := ScheduleCovers(g.deps, g.order, i);
    }
  }

  /** The traces of the nodes visited are filed under their nodes. */
  ghost predicate Filed(order: seq<nat>, cursor: nat, indices: seq<nat>, nodes: seq<Trace>, m: seq<Trace>) {
    && cursor <= |order| && |nodes| == cursor && |indices| == |m|
    && forall q :: 0 <= q < cursor ==> order[q] < |m| && indices[order[q]] == q && nodes[q] == m[order[q]]
  }

  lemma FiledMore(order: seq<nat>, cursor: nat, indices: seq<nat>, nodes: seq<Trace>, m: seq<Trace>, item: Trace)
    requires Filed(order, cursor, indices, nodes, m) && cursor < |order| && order[cursor] < |m| && NoDuplicates(order)
    ensures Filed(order, cursor + 1, indices[order[cursor] := cursor], nodes + [item], m[order[cursor] := item])
  {
  }

  /** The nodes visited satisfy their equations. */
  ghost predicate Swept(g: Graph, snapshot: Snapshot, clock: Clock, m: seq<Trace>, cursor: nat)
    requires ValidGraph(g) && ClockFor(g, clock) && |m| == |g.nodes| && cursor <= |g.order|
  {
    forall q :: 0 <= q < cursor ==> NodeSolved(g, snapshot, clock, m, g.order[q])
  }

  lemma SweptMore(g: Graph, snapshot: Snapshot, clock: Clock, m: seq<Trace>, cursor: nat, item: Trace)
    requires ValidGraph(g) && ClockFor(g, clock) && |m| == |g.nodes| && cursor < |g.order|
    requires Swept(g, snapshot, clock, m, cursor)
    requires var index := g.order[cursor];
             && g.nodes[index].evaluate.Some? && index !in g.deps[index] && (forall d :: d in g.deps[index] ==> d < |m|)
             && item == NodeTrace(g.nodes[index], snapshot, Pick(m, g.deps[index]), clock.before[index],
               clock.after[index])
    ensures Swept(g, snapshot, clock, m[g.order[cursor] := item], cursor + 1)
  {
    var index := g.order[cursor];
    forall q | 0 <= q < cursor ensures NodeSolved(g, snapshot, clock, m[index := item], g.order[q]) {
      Undisturbed(g, snapshot, clock, m, g.order[q], index, item);
    }
    OwnTrace(g, snapshot, clock, m, index, item);
  }

  lemma OwnTrace(g: Graph, snapshot: Snapshot, clock: Clock, m: seq<Trace>, index: nat, item: Trace)
    requires ValidGraph(g) && ClockFor(g, clock) && |m| == |g.nodes| && index < |m| && index !in g.deps[index]
    requires g.nodes[index].evaluate.Some?
    requires forall d :: d in g.deps[index] ==> d < |m|
    requires item == NodeTrace(g.nodes[index], snapshot, Pick(m, g.deps[index]), clock.before[index],
        clock.after[index])
    ensures NodeSolved(g, snapshot, clock, m[index := item], index)
  {
    forall k | 0 <= k < |g.deps[index]| ensures g.deps[index][k] != index { assert g.deps[index][k] in g.deps[index]; }
    assert Pick(m[index := item], g.deps[index]) == Pick(m, g.deps[index]);
  }

  /** The inner loop: the traces of one node's predecessors, and the edges from them. */
  method CollectDependencies(g: Graph, index: nat, cursor: nat, traceIndices: array<nat>, nodes: seq<Trace>,
      ghost m: seq<Trace>) returns (dependencies: seq<Trace>, edges: seq<Edge>)
    requires ValidGraph(g) && |m| == |g.nodes| == traceIndices.Length
    requires cursor < |g.order| && g.order[cursor] == index && Filed(g.order, cursor, traceIndices[..], nodes, m)
    ensures forall d :: d in g.deps[index] ==> d < |m| && d != index
    ensures dependencies == Pick(m, g.deps[index]) && edges == EdgesOf(g, index)
  {
    Predecessors(g, index);
    dependencies, edges := [], [];
    for k := 0 to |g.deps[index]|
      invariant |dependencies| == |edges| == k
      invariant forall j :: 0 <= j < k ==> dependencies[j] == m[g.deps[index][j]] && edges[j] == EdgesOf(g, index)[j]
    {
      var predecessor := g.deps[index][k];
      assert predecessor in g.deps[index] && predecessor in g.order[..cursor];
      ghost var q :| 0 <= q < cursor && g.order[q] == predecessor;
      dependencies := dependencies + [nodes[traceIndices[predecessor]]];
      edges := edges + [Edge(g.nodes[predecessor].id, g.nodes[index].id)];
    }
    forall d | d in g.deps[index] ensures d != index {
      assert d in g.order[..cursor];
    }
  }

  // ---------------------------------------------------------- what the result means

  /** The equations have one solution: two schedules of the same graph cannot give different results. */
  lemma ScheduleIrrelevant(g: Graph, other: seq<nat>, snapshot: Snapshot, clock: Clock, m: seq<Trace>, k: seq<Trace>)
    requires Solves(g, snapshot, clock, m) && Solves(g.(order := other), snapshot, clock, k)
    ensures m == k
  {
    forall i | 0 <= i < |m| ensures m[i] == k[i] {
      var p := ScheduleCovers(g.deps, g.order, i);
      SameAt(g, clock, g.(order := other), clock, Below(|m|), snapshot, m, k, p);
    }
  }

  /** A set of nodes that contains the predecessors of its members. */
  ghost predicate Closed(deps: Deps, scope: set<nat>) {
    forall i, d :: i in scope && i < |deps| && d in deps[i] ==> d in scope
  }

  /** Same nodes, same dependencies and same clock answers inside the scope. */
  ghost predicate AgreeOn(scope: set<nat>, g: Graph, clock: Clock, h: Graph, other: Clock)
    requires ValidGraph(g) && ClockFor(g, clock) && ValidGraph(h) && ClockFor(h, other) && |g.nodes| == |h.nodes|
  {
    forall i :: 0 <= i < |g.nodes| && i in scope ==>
      && g.nodes[i] == h.nodes[i] && g.deps[i] == h.deps[i]
      && clock.before[i] == other.before[i] && clock.after[i] == other.after[i]
  }

  /** Two evaluations that agree on a predecessor-closed set of nodes give those nodes the same traces. */
  lemma {:induction false} SameAt(g: Graph, clock: Clock, h: Graph, other: Clock, scope: set<nat>, snapshot: Snapshot,
      m: seq<Trace>, k: seq<Trace>, p: nat)
    requires Solves(g, snapshot, clock, m) && Solves(h, snapshot, other, k) && |m| == |k|
    requires Closed(g.deps, scope) && AgreeOn(scope, g, clock, h, other)
    requires p < |g.order| && g.order[p] in scope
    ensures m[g.order[p]] == k[g.order[p]]
    decreases p
  {
    var i := g.order[p];
    assert NodeSolved(g, snapshot, clock, m, i) && NodeSolved(h, snapshot, other, k, i);
    Predecessors(g, i);
    forall j | 0 <= j < |g.deps[i]| ensures m[g.deps[i][j]] == k[g.deps[i][j]] {
      var d := g.deps[i][j];
      assert d in g.deps[i] && d in g.order[..p];
      var q :| 0 <= q < p && g.order[q] == d;
      SameAt(g, clock, h, other, scope, snapshot, m, k, q);
    }
    assert Pick(m, g.deps[i]) == Pick(k, h.deps[i]);
  }

  /** Changing the callbacks, failures or clock answers of nodes outside a predecessor-closed set cannot
      reach into it: an error propagates only downstream. */
  lemma FailureIsolation(g: Graph, clock: Clock, h: Graph, other: Clock, scope: set<nat>, snapshot: Snapshot,
      m: seq<Trace>, k: seq<Trace>, i: nat)
    requires Solves(g, snapshot, clock, m) && Solves(h, snapshot, other, k) && |m| == |k|
    requires Closed(g.deps, scope) && AgreeOn(scope, g, clock, h, other) && i in scope && i < |m|
    ensures m[i] == k[i]
  {
    var p := ScheduleCovers(g.deps, g.order, i);
    SameAt(g, clock, h, other, scope, snapshot, m, k, p);
  }

  /** Whatever callbacks return and whenever the deadline passes, a success belongs to this snapshot. */
  lemma Provenance(g: Graph, snapshot: Snapshot, clock: Clock, m: seq<Trace>, i: nat)
    requires Solves(g, snapshot, clock, m) && i < |m|
    ensures m[i].result.status.Succeeded? ==>
              m[i].result.snapshotId == snapshot.id && !clock.before[i] && !clock.after[i]
    ensures m[i].result.snapshotId == "" ==> snapshot.id == ""
  {
    assert NodeSolved(g, snapshot, clock, m, i);
  }

  /** Exactly when a node succeeds, and what it then carries. */
  lemma SuccessIff(node: Node, snapshot: Snapshot, traces: seq<Trace>, before: bool, after: bool)
    requires node.evaluate.Some? && snapshot.id != ""
    ensures var t := NodeTrace(node, snapshot, traces, before, after);
            var called := node.evaluate.value(Context(snapshot, traces));
            && (t.result.status.Succeeded? <==>
                && !before && !after
                && (node.requireSuccess ==> forall d :: d in traces ==> d.result.status.Succeeded?)
                && (node.condition.Some? ==> node.condition.value(Context(snapshot, traces)) == Returned(true))
                && called.Returned? && called.value.status.Succeeded?
                && (called.value.snapshotId == "" || called.value.snapshotId == snapshot.id))
            && (t.result.status.Succeeded? ==> t.result == called.value.(snapshotId := snapshot.id))
  {
    var result := Invoke(node, Context(snapshot, traces));
    ReviewIff(result, after, snapshot.id);
    InvokeIff(node, Context(snapshot, traces));
  }

  lemma ReviewIff(result: NodeResult, late: bool, snapshotId: string)
    ensures Review(result, late, snapshotId).status.Succeeded? <==>
              result.status.Succeeded? && !late && (result.snapshotId == "" || result.snapshotId == snapshotId)
    ensures Review(result, late, snapshotId).status.Succeeded? ==> Review(result, late, snapshotId) == result
  {
  }

  lemma InvokeIff(node: Node, context: Context)
    requires node.evaluate.Some?
    ensures Invoke(node, context).status.Succeeded? <==>
              && (node.condition.Some? ==> node.condition.value(context) == Returned(true))
              && node.evaluate.value(context).Returned? && node.evaluate.value(context).value.status.Succeeded?
    ensures Invoke(node, context).status.Succeeded? ==> Invoke(node, context) == node.evaluate.value(context).value
  {
  }

  /** What a node's trace must be, case by case and by its inputs alone. */
  ghost predicate TraceCases(node: Node, snapshot: Snapshot, deps: seq<Trace>, before: bool, after: bool, t: Trace)
    requires node.evaluate.Some?
  {
    var blocked := node.requireSuccess && exists d :: d in deps && d.result.status != Succeeded;
    && t.id == node.id && t.dependencies == node.dependencies
    && (before ==> t.result == NodeResult(Stale, "", "evaluation deadline expired", snapshot.id))
    && (!before && blocked ==> exists k :: 0 <= k < |deps| && BlockedBy(deps, k, snapshot.id, t.result))
    && (!before && !blocked ==> CallCases(node, Context(snapshot, deps), after, t.result))
  }

  /** Dependency k is the first, in declared order, that did not succeed, and it decides. */
  ghost predicate BlockedBy(deps: seq<Trace>, k: nat, snapshotId: string, result: NodeResult)
    requires k < |deps|
  {
    && deps[k].result.status != Succeeded && (forall j :: 0 <= j < k ==> deps[j].result.status == Succeeded)
    && result == if deps[k].result.status == Stale
                 then NodeResult(Stale, "", "stale dependency: " + deps[k].id, snapshotId)
                 else NodeResult(Skipped, "", "unavailable dependency: " + deps[k].id, snapshotId)
  }

  /** The callbacks of a node that may run: the condition first, then the evaluator and the checks on what it
      returns; anything but a success is passed on as it is. */
  ghost predicate CallCases(node: Node, context: Context, after: bool, result: NodeResult)
    requires node.evaluate.Some?
  {
    var id := context.snapshot.id;
    match if node.condition.Some? then node.condition.value(context) else Returned(true)
    case Threw(what) => result == NodeResult(Error, "", what, id)
    case ThrewUnknown => result == NodeResult(Error, "", "non-standard exception in graph callback", id)
    case Returned(false) => result == NodeResult(Skipped, "", "condition is false", id)
    case Returned(true) =>
      match node.evaluate.value(context)
      case Threw(what) => result == NodeResult(Error, "", what, id)
      case ThrewUnknown => result == NodeResult(Error, "", "non-standard exception in graph callback", id)
      case Returned(r) =>
        var from := if r.snapshotId == "" then id else r.snapshotId;
        if r.status == Succeeded && after
        then result == NodeResult(Stale, r.output, "evaluation deadline expired during callback", from)
        else if r.status == Succeeded && from != id
        then result == NodeResult(Stale, r.output, "output snapshot does not match evaluation snapshot", from)
        else result == NodeResult(r.status, r.output, r.message, from)
  }

  /** The case table holds of every node of every evaluation. */
  lemma CaseTable(g: Graph, snapshot: Snapshot, clock: Clock, m: seq<Trace>, i: nat)
    requires Solves(g, snapshot, clock, m) && i < |m| && snapshot.id != ""
    ensures (forall d :: d in g.deps[i] ==> d < |m|) && g.nodes[i].evaluate.Some?
    ensures TraceCases(g.nodes[i], snapshot, Pick(m, g.deps[i]), clock.before[i], clock.after[i], m[i])
  {
    assert !BadNode(g.nodes, i) && NodeSolved(g, snapshot, clock, m, i);
    Predecessors(g, i);
    TraceTable(g.nodes[i], snapshot, Pick(m, g.deps[i]), clock.before[i], clock.after[i]);
  }

  lemma TraceTable(node: Node, snapshot: Snapshot, deps: seq<Trace>, before: bool, after: bool)
    requires node.evaluate.Some? && snapshot.id != ""
    ensures TraceCases(node, snapshot, deps, before, after, NodeTrace(node, snapshot, deps, before, after))
  {
    CallTable(node, Context(snapshot, deps), after);
    if d :| node.requireSuccess && !before && d in deps && d.result.status != Succeeded {
      var at :| 0 <= at < |deps| && deps[at] == d;
      var k := FirstBlocker(deps, at);
      assert BlockedBy(deps, k, snapshot.id, NodeTrace(node, snapshot, deps, before, after).result);
    }
  }

  lemma CallTable(node: Node, context: Context, after: bool)
    requires node.evaluate.Some? && context.snapshot.id != ""
    ensures CallCases(node, context, after,
        Stamp(Review(Invoke(node, context), after, context.snapshot.id), context.snapshot.id))
  {
  }

  /** A node that insists on its dependencies takes its status and message from the first one, in declared
      order, that did not succeed; its callbacks are not consulted. */
  lemma BlockedNode(g: Graph, snapshot: Snapshot, clock: Clock, m: seq<Trace>, i: nat, at: nat) returns (k: nat)
    requires Solves(g, snapshot, clock, m) && i < |m| && g.nodes[i].requireSuccess && !clock.before[i]
    requires at < |g.deps[i]| && g.deps[i][at] < |m| && m[g.deps[i][at]].result.status != Succeeded
    ensures k <= at && g.deps[i][k] < |m| && m[g.deps[i][k]].result.status != Succeeded
    ensures forall j :: 0 <= j < k ==> g.deps[i][j] < |m| && m[g.deps[i][j]].result.status == Succeeded
    ensures var first := g.deps[i][k];
            m[i].result ==
              if m[first].result.status == Stale
              then NodeResult(Stale, "", "stale dependency: " + g.nodes[first].id, snapshot.id)
              else NodeResult(Skipped, "", "unavailable dependency: " + g.nodes[first].id, snapshot.id)
  {
    assert NodeSolved(g, snapshot, clock, m, i);
    var traces := Pick(m, g.deps[i]);
    k := FirstBlocker(traces, at);
    assert NodeSolved(g, snapshot, clock, m, g.deps[i][k]);
  }

  lemma {:induction false} FirstBlocker(deps: seq<Trace>, at: nat) returns (k: nat)
    requires at < |deps| && !deps[at].result.status.Succeeded?
    ensures k <= at && !deps[k].result.status.Succeeded?
    ensures forall j :: 0 <= j < k ==> deps[j].result.status.Succeeded?
    ensures Blocker(deps) == Some(if deps[k].result.status.Stale? then StaleResult("stale dependency: " + deps[k].id)
                                  else SkipResult("unavailable dependency: " + deps[k].id))
  {
    if !deps[0].result.status.Succeeded? {
      k := 0;
    } else {
      var rest := FirstBlocker(deps[1..], at - 1);
      k := rest + 1;
    }
  }

  /** a is reached from i by following one or more dependencies. */
  ghost predicate Ancestor(deps: Deps, i: nat, path: seq<nat>) {
    && path != [] && i < |deps| && path[0] in deps[i]
    && (forall k :: 0 <= k < |path| ==> path[k] < |deps|)
    && (forall k :: 0 <= k < |path| - 1 ==> path[k + 1] in deps[path[k]])
  }

  lemma ParentSucceeded(g: Graph, snapshot: Snapshot, clock: Clock, m: seq<Trace>, i: nat, d: nat)
    requires Solves(g, snapshot, clock, m) && i < |m| && d in g.deps[i] && d < |m|
    requires g.nodes[i].requireSuccess && m[i].result.status.Succeeded?
    ensures m[d].result.status.Succeeded? && m[d].result.snapshotId == snapshot.id
  {
    assert NodeSolved(g, snapshot, clock, m, i);
    Predecessors(g, i);
    var traces := Pick(m, g.deps[i]);
    var at :| 0 <= at < |g.deps[i]| && g.deps[i][at] == d;
    assert traces[at] in traces;
    Provenance(g, snapshot, clock, m, d);
  }

  /** When every node insists on its dependencies, a success means that every transitive ancestor
      succeeded too, and on the same snapshot. */
  lemma {:induction false} AncestorsSucceeded(g: Graph, snapshot: Snapshot, clock: Clock, m: seq<Trace>, i: nat,
    path: seq<nat>)
    requires Solves(g, snapshot, clock, m) && i < |m| && m[i].result.status.Succeeded?
    requires forall j :: 0 <= j < |g.nodes| ==> g.nodes[j].requireSuccess
    requires Ancestor(g.deps, i, path)
    ensures forall k :: 0 <= k < |path| ==>
              m[path[k]].result.status.Succeeded? && m[path[k]].result.snapshotId == snapshot.id
    decreases |path|
  {
    ParentSucceeded(g, snapshot, clock, m, i, path[0]);
    if |path| > 1 {
      assert path[1..][0] == path[0 + 1];
      forall k | 0 <= k < |path[1..]| - 1 ensures path[1..][k + 1] in g.deps[path[1..][k]] {
        assert path[k + 1 + 1] in g.deps[path[k + 1]];
      }
      AncestorsSucceeded(g, snapshot, clock, m, path[0], path[1..]);
      forall k | 0 <= k < |path|
        ensures m[path[k]].result.status.Succeeded? && m[path[k]].result.snapshotId == snapshot.id
      {
        if k > 0 { assert path[k] == path[1..][k - 1]; }
      }
    }
  }
}
