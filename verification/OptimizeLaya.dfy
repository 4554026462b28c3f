/** The two graph rewrites of scripts/optimize_laya.py on a mutable graph, with the proof that each keeps
    the meaning of every output for every operator semantics and all feeds. */
module OptimizeLaya {
  import opened OnnxGraph

  // ----------------------------------------------------------- what folding does

  predicate Foldable(node: Node, names: set<string>) {
    && node.opType == "Cast" && |node.inputs| == 1 && |node.outputs| == 1
    && node.inputs[0] in names
    && exists a :: a in node.attributes && a.name == "to" && a.i == FLOAT
  }

  function Keep(nodes: seq<Node>, names: set<string>, folded: bool): seq<Node> {
    if nodes == [] then []
    else (if Foldable(nodes[0], names) == folded then [nodes[0]] else []) + Keep(nodes[1..], names, folded)
  }

  /** The initializer a folded cast is replaced by. */
  function Folded(cast: Tensor -> Tensor, env: Env, node: Node): Initializer
    requires Foldable(node, env.Keys)
  {
    Initializer(node.outputs[0], cast(env[node.inputs[0]]))
  }

  function AllFolded(cast: Tensor -> Tensor, env: Env, nodes: seq<Node>): seq<Initializer> {
    if nodes == [] then []
    else (if Foldable(nodes[0], env.Keys) then [Folded(cast, env, nodes[0])] else [])
         + AllFolded(cast, env, nodes[1..])
  }

  function InputNames(nodes: seq<Node>): set<string> {
    set node, name | node in nodes && name in node.inputs :: name
  }

  function UsedNames(nodes: seq<Node>, model: Model): set<string> {
    InputNames(nodes) + Elements(model.outputs) + Elements(model.inputs)
  }

  function OnlyUsed(initializers: seq<Initializer>, used: set<string>): seq<Initializer> {
    if initializers == [] then []
    else (if initializers[0].name in used then [initializers[0]] else []) + OnlyUsed(initializers[1..], used)
  }

  function Materialized(cast: Tensor -> Tensor, model: Model): Model {
    var env := InitialEnv(model.initializers);
    var nodes := Keep(model.nodes, env.Keys, false);
    model.(nodes := nodes,
           initializers := OnlyUsed(model.initializers + AllFolded(cast, env, model.nodes), UsedNames(nodes, model)))
  }

  // ------------------------------------------------------------ the mutable graph

  class OnnxFile {
    var nodes: seq<Node>
    var initializers: seq<Initializer>
    const inputs: seq<string>
    const outputs: seq<string>

    ghost function Contents(): Model
      reads this
    {
      Model(nodes, initializers, inputs, outputs)
    }

    constructor (model: Model)
      ensures Contents() == model
    {
      nodes, initializers, inputs, outputs := model.nodes, model.initializers, model.inputs, model.outputs;
    }

    /** protobuf remove: the first equal node goes. */
    method Remove(node: Node)
      requires node in nodes
      modifies this`nodes
      ensures nodes == WithoutFirst(old(nodes), node)
    {
      var i := 0;
      while nodes[i] != node
        invariant 0 <= i < |nodes| && node in nodes[i..]
        invariant WithoutFirst(nodes, node) == nodes[..i] + WithoutFirst(nodes[i..], node)
        decreases |nodes| - i
      {
        assert nodes[i..][0] == nodes[i] && nodes[i..][1..] == nodes[i + 1..];
        assert nodes[..i] + ([nodes[i]] + WithoutFirst(nodes[i + 1..], node))
            == nodes[..i + 1] + WithoutFirst(nodes[i + 1..], node);
        i := i + 1;
      }
      assert nodes[i..][0] == node && nodes[i..][1..] == nodes[i + 1..];
      nodes := nodes[..i] + nodes[i + 1..];
    }

    /** Append the converted weights and remember the casts they replace. */
    method FoldCasts(cast: Tensor -> Tensor, known: Env) returns (folded: seq<Node>)
      modifies this`initializers
      ensures folded == Keep(nodes, known.Keys, true)
      ensures initializers == old(initializers) + AllFolded(cast, known, nodes)
    {
      folded := [];
      for i := 0 to |nodes|
        invariant folded == Keep(nodes[..i], known.Keys, true)
        invariant initializers == old(initializers) + AllFolded(cast, known, nodes[..i])
      {
        KeepNext(nodes[..i], nodes[i], known.Keys, true);
        FoldedNext(cast, known, nodes[..i], nodes[i]);
        assert nodes[..i + 1] == nodes[..i] + [nodes[i]];
        if Foldable(nodes[i], known.Keys) {
          initializers := initializers + [Folded(cast, known, nodes[i])];
          folded := folded + [nodes[i]];
        }
      }
      assert nodes[..|nodes|] == nodes;
    }

    method RemoveFolded(folded: seq<Node>, ghost names: set<string>)
      requires folded == Keep(nodes, names, true)
      modifies this`nodes
      ensures nodes == Keep(old(nodes), names, false)
    {
      for k := 0 to |folded|
        invariant Keep(nodes, names, true) == folded[k..]
        invariant Keep(nodes, names, false) == Keep(old(nodes), names, false)
      {
        RemoveFirstKept(nodes, names);
        Remove(folded[k]);
      }
      AllUnfoldable(nodes, names);
    }

    method DropUnused(used: set<string>)
      modifies this`initializers
      ensures initializers == OnlyUsed(old(initializers), used)
    {
      var kept: seq<Initializer> := [];
      for i := 0 to |initializers|
        invariant initializers == old(initializers) && kept == OnlyUsed(initializers[..i], used)
      {
        UsedNext(initializers[..i], initializers[i], used);
        assert initializers[..i + 1] == initializers[..i] + [initializers[i]];
        if initializers[i].name in used { kept := kept + [initializers[i]]; }
      }
      assert initializers[..|initializers|] == initializers;
      initializers := kept;
    }

    /** Fold Cast(initializer, FLOAT) nodes into initializers and drop the initializers nobody uses. */
    method MaterializeFp32Weights(cast: Tensor -> Tensor) returns (count: nat)
      modifies this
      ensures Contents() == Materialized(cast, old(Contents()))
      ensures count + |nodes| == old(|nodes|)
    {
      var known := InitialEnv(initializers);
      KeepCounts(nodes, known.Keys);
      var folded := FoldCasts(cast, known);
      RemoveFolded(folded, known.Keys);
      DropUnused(InputNames(nodes) + Elements(outputs) + Elements(inputs));
      count := |folded|;
    }

    /** Repeated passes over the pending nodes; a pass that moves nothing means there is no order. */
    method TopologicalSort() returns (sorted: bool)
      modifies this`nodes
      ensures sorted ==> multiset(nodes) == multiset(old(nodes)) && Ordered(nodes, Given(Contents()))
      ensures !sorted ==> nodes == old(nodes)
      ensures !sorted ==> forall order :: multiset(order) == multiset(old(nodes)) ==> !Ordered(order, Given(Contents()))
    {
      ghost var given := Given(Contents());
      var ready := Elements(inputs) + Names(initializers);
      var pending, ordered := nodes, [];
      while pending != []
        invariant nodes == old(nodes) && ready == given + Outs(ordered) && Ordered(ordered, given)
        invariant multiset(ordered) + multiset(pending) == multiset(nodes)
        decreases |pending|
      {
        var remaining;
        PassOrdered(pending, ordered, given);
        PassRearranges(pending, ordered, ready);
        PassStuck(pending, ordered, ready);
        ordered, ready, remaining := SortPass(pending, ordered, ready);
        if |remaining| == |pending| {
          forall order | multiset(order) == multiset(nodes) ensures !Ordered(order, given) {
            StuckHasNoOrder(order, ordered, pending, given);
          }
          return false;
        }
        pending := remaining;
      }
      assert multiset(ordered) + multiset(pending) == multiset(ordered);
      nodes := ordered;
      sorted := true;
    }
  }

  /** One pass as a function: a node whose inputs are ready is listed at once, so later nodes of the same
      pass may use its outputs; the others remain. */
  function Pass(pending: seq<Node>, listed: seq<Node>, ready: set<string>): (seq<Node>, set<string>, seq<Node>) {
    if pending == [] then (listed, ready, [])
    else
      var node := pending[|pending| - 1];
      var (ordered, now, remaining) := Pass(pending[..|pending| - 1], listed, ready);
      if Available(node, now) then (ordered + [node], now + Elements(node.outputs), remaining)
      else (ordered, now, remaining + [node])
  }

  method SortPass(pending: seq<Node>, listed: seq<Node>, start: set<string>)
      returns (ordered: seq<Node>, ready: set<string>, remaining: seq<Node>)
    ensures (ordered, ready, remaining) == Pass(pending, listed, start)
  {
    ordered, ready, remaining := listed, start, [];
    for i := 0 to |pending|
      invariant (ordered, ready, remaining) == Pass(pending[..i], listed, start)
    {
      assert pending[..i + 1][..i] == pending[..i];
      if Available(pending[i], ready) {
        ordered := ordered + [pending[i]];
        ready := ready + Elements(pending[i].outputs);
      } else {
        remaining := remaining + [pending[i]];
      }
    }
    assert pending[..|pending|] == pending;
  }

  lemma {:induction false} PassOrdered(pending: seq<Node>, listed: seq<Node>, given: set<string>)
    requires Ordered(listed, given)
    ensures var (ordered, ready, remaining) := Pass(pending, listed, given + Outs(listed));
            Ordered(ordered, given) && ready == given + Outs(ordered)
  {
    if pending != [] {
      PassOrdered(pending[..|pending| - 1], listed, given);
      var (ordered, now, remaining) := Pass(pending[..|pending| - 1], listed, given + Outs(listed));
      if Available(pending[|pending| - 1], now) { OrderedMore(ordered, pending[|pending| - 1], given); }
    }
  }

  lemma {:induction false} PassRearranges(pending: seq<Node>, listed: seq<Node>, ready: set<string>)
    ensures multiset(Pass(pending, listed, ready).0) + multiset(Pass(pending, listed, ready).2)
         == multiset(listed) + multiset(pending)
  {
    if pending != [] {
      var front, node := pending[..|pending| - 1], pending[|pending| - 1];
      PassRearranges(front, listed, ready);
      assert pending == front + [node];
      var before, after := Pass(front, listed, ready), Pass(pending, listed, ready);
      assert multiset(pending) == multiset(front) + multiset{node};
      if Available(node, before.1) {
        assert multiset(after.0) == multiset(before.0) + multiset{node} && after.2 == before.2;
      } else {
        assert after.2 == before.2 + [node] && after.0 == before.0;
      }
      assert multiset(after.0) + multiset(after.2) == (multiset(before.0) + multiset(before.2)) + multiset{node};
    }
  }

  lemma {:induction false} PassStuck(pending: seq<Node>, listed: seq<Node>, start: set<string>)
    ensures var (ordered, ready, remaining) := Pass(pending, listed, start);
            && |remaining| <= |pending|
            && (|remaining| == |pending| ==>
                  && ordered == listed && ready == start
                  && forall j :: 0 <= j < |pending| ==> !Available(pending[j], start))
  {
    if pending != [] { PassStuck(pending[..|pending| - 1], listed, start); }
  }

  // -------------------------------------------------------------- list bookkeeping

  function WithoutFirst(nodes: seq<Node>, node: Node): seq<Node> {
    if nodes == [] then []
    else if nodes[0] == node then nodes[1..]
    else [nodes[0]] + WithoutFirst(nodes[1..], node)
  }

  lemma {:induction false} KeepNext(nodes: seq<Node>, node: Node, names: set<string>, folded: bool)
    ensures Keep(nodes + [node], names, folded)
         == Keep(nodes, names, folded) + if Foldable(node, names) == folded then [node] else []
  {
    if nodes != [] {
      assert (nodes + [node])[1..] == nodes[1..] + [node];
      KeepNext(nodes[1..], node, names, folded);
    }
  }

  lemma {:induction false} FoldedNext(cast: Tensor -> Tensor, env: Env, nodes: seq<Node>, node: Node)
    ensures AllFolded(cast, env, nodes + [node])
         == AllFolded(cast, env, nodes) + if Foldable(node, env.Keys) then [Folded(cast, env, node)] else []
  {
    if nodes != [] {
      assert (nodes + [node])[1..] == nodes[1..] + [node];
      FoldedNext(cast, env, nodes[1..], node);
    }
  }

  lemma {:induction false} UsedNext(initializers: seq<Initializer>, v: Initializer, used: set<string>)
    ensures OnlyUsed(initializers + [v], used) == OnlyUsed(initializers, used) + if v.name in used then [v] else []
  {
    if initializers != [] {
      assert (initializers + [v])[1..] == initializers[1..] + [v];
      UsedNext(initializers[1..], v, used);
    }
  }

  lemma {:induction false} KeepCounts(nodes: seq<Node>, names: set<string>)
    ensures |Keep(nodes, names, true)| + |Keep(nodes, names, false)| == |nodes|
  {
    if nodes != [] { KeepCounts(nodes[1..], names); }
  }

  /** Removing the first foldable node by value removes exactly that one: equal nodes are alike foldable. */
  lemma {:induction false} RemoveFirstKept(nodes: seq<Node>, names: set<string>)
    requires Keep(nodes, names, true) != []
    ensures var node := Keep(nodes, names, true)[0];
            && node in nodes
            && Keep(WithoutFirst(nodes, node), names, true) == Keep(nodes, names, true)[1..]
            && Keep(WithoutFirst(nodes, node), names, false) == Keep(nodes, names, false)
  {
    var node := Keep(nodes, names, true)[0];
    if !Foldable(nodes[0], names) {
      RemoveFirstKept(nodes[1..], names);
      KeptFoldable(nodes[1..], names, true, node);
      assert WithoutFirst(nodes, node)[1..] == WithoutFirst(nodes[1..], node);
    }
  }

  lemma {:induction false} KeptFoldable(nodes: seq<Node>, names: set<string>, folded: bool, node: Node)
    ensures node in Keep(nodes, names, folded) <==> node in nodes && Foldable(node, names) == folded
  {
    if nodes != [] { KeptFoldable(nodes[1..], names, folded, node); }
  }

  lemma {:induction false} AllUnfoldable(nodes: seq<Node>, names: set<string>)
    requires Keep(nodes, names, true) == []
    ensures Keep(nodes, names, false) == nodes
  {
    if nodes != [] {
      AllUnfoldable(nodes[1..], names);
      assert nodes == [nodes[0]] + nodes[1..];
    }
  }

  // ---------------------------------------------------------------- sorting facts

  lemma OrderedMore(ordered: seq<Node>, node: Node, given: set<string>)
    requires Ordered(ordered, given) && Available(node, given + Outs(ordered))
    ensures Ordered(ordered + [node], given) && Outs(ordered + [node]) == Outs(ordered) + Elements(node.outputs)
  {
    var more := ordered + [node];
    assert more[..|ordered|] == ordered;
    assert forall k :: 0 <= k < |ordered| ==> more[..k] == ordered[..k];
  }

  /** When every pending node lacks an input, no arrangement of all nodes is dependency-ordered: its first
      pending node would find its inputs among nodes that are already ordered. */
  lemma StuckHasNoOrder(order: seq<Node>, ordered: seq<Node>, pending: seq<Node>, given: set<string>)
    requires pending != [] && multiset(ordered) + multiset(pending) == multiset(order)
    requires forall j :: 0 <= j < |pending| ==> !Available(pending[j], given + Outs(ordered))
    ensures !Ordered(order, given)
  {
    assert pending[0] in multiset(order);
    var at :| 0 <= at < |order| && order[at] == pending[0];
    var k := FirstPending(order, pending, at);
    forall name | name in Outs(order[..k]) ensures name in Outs(ordered) {
      InOuts(order[..k], name);
      var j :| 0 <= j < k && name in order[..k][j].outputs;
      assert order[j] in multiset(order) && order[j] !in multiset(pending);
      assert order[j] in multiset(ordered);
      var i :| 0 <= i < |ordered| && ordered[i] == order[j];
      InOuts(ordered, name);
    }
    assert !Available(order[k], given + Outs(order[..k]));
  }

  lemma {:induction false} FirstPending(order: seq<Node>, pending: seq<Node>, at: nat) returns (k: nat)
    requires at < |order| && order[at] in pending
    ensures k < |order| && order[k] in pending && forall j :: 0 <= j < k ==> order[j] !in pending
  {
    k := 0;
    while order[k] !in pending
      invariant k <= at && forall j :: 0 <= j < k ==> order[j] !in pending
      decreases at - k
    {
      k := k + 1;
    }
  }
}
