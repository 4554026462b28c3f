/** Dataflow graphs as scripts/optimize_laya.py edits them: a meaning for every operator semantics, the
    constant-folding pass and the multi-pass topological sort. */
module OnnxGraph {
  import opened Wrappers

  type Tensor = seq<real>

  datatype Attribute = Attribute(name: string, i: int)

  datatype Node = Node(opType: string, inputs: seq<string>, outputs: seq<string>, attributes: seq<Attribute>)

  datatype Initializer = Initializer(name: string, value: Tensor)

  datatype Model = Model(nodes: seq<Node>, initializers: seq<Initializer>, inputs: seq<string>, outputs: seq<string>)

  /** onnx.TensorProto.FLOAT */
  const FLOAT := 1

  // ------------------------------------------------------------------- meaning

  type Env = map<string, Tensor>

  /** An operator semantics: any function from a node and its arguments to one tensor per output. */
  type Ops = (Node, seq<Option<Tensor>>) -> seq<Tensor>

  ghost predicate Arities(ops: Ops) {
    forall node, args :: |ops(node, args)| == |node.outputs|
  }

  /** The empty name stands for an omitted argument or result. */
  function Arg(env: Env, name: string): Option<Tensor> {
    if name != "" && name in env then Some(env[name]) else None
  }

  function Args(env: Env, names: seq<string>): (args: seq<Option<Tensor>>)
    ensures |args| == |names| && forall k :: 0 <= k < |names| ==> args[k] == Arg(env, names[k])
  {
    seq(|names|, k requires 0 <= k < |names| => Arg(env, names[k]))
  }

  function Bind(env: Env, names: seq<string>, values: seq<Tensor>): Env
    requires |names| == |values|
    decreases |names|
  {
    if names == [] then env
    else Bind(if names[0] == "" then env else env[names[0] := values[0]], names[1..], values[1..])
  }

  ghost function Execute(ops: Ops, nodes: seq<Node>, env: Env): Env
    requires Arities(ops)
    decreases |nodes|
  {
    if nodes == [] then env
    else
      var last := nodes[|nodes| - 1];
      var before := Execute(ops, nodes[..|nodes| - 1], env);
      Bind(before, last.outputs, ops(last, Args(before, last.inputs)))
  }

  /** A later initializer of the same name wins, as in a Python dict. */
  function InitialEnv(initializers: seq<Initializer>): (env: Env)
    ensures forall name :: name in env <==> name in Names(initializers)
  {
    if initializers == [] then map[]
    else
      var last := initializers[|initializers| - 1];
      InitialEnv(initializers[..|initializers| - 1])[last.name := last.value]
  }

  function Names(initializers: seq<Initializer>): set<string> {
    set v | v in initializers :: v.name
  }

  /** The whole model on given feeds; a feed overrides an initializer of the same name. */
  ghost function Run(ops: Ops, model: Model, feeds: Env): Env
    requires Arities(ops)
  {
    Execute(ops, model.nodes, InitialEnv(model.initializers) + feeds)
  }

  // ----------------------------------------------------------- order and naming

  function Elements(names: seq<string>): set<string> {
    set name | name in names
  }

  /** Every name the nodes define. */
  function Outs(nodes: seq<Node>): set<string>
    decreases |nodes|
  {
    if nodes == [] then {} else Outs(nodes[..|nodes| - 1]) + Elements(nodes[|nodes| - 1].outputs)
  }

  lemma {:induction false} InOuts(nodes: seq<Node>, name: string)
    ensures name in Outs(nodes) <==> exists k :: 0 <= k < |nodes| && name in nodes[k].outputs
    decreases |nodes|
  {
    if nodes != [] {
      var front := nodes[..|nodes| - 1];
      InOuts(front, name);
      if k :| 0 <= k < |nodes| && name in nodes[k].outputs && k < |front| {
        assert name in front[k].outputs;
      }
      if k :| 0 <= k < |front| && name in front[k].outputs {
        assert name in nodes[k].outputs;
      }
    }
  }

  predicate Available(node: Node, ready: set<string>) {
    forall name :: name in node.inputs ==> name == "" || name in ready
  }

  ghost predicate Ordered(nodes: seq<Node>, ready: set<string>) {
    forall k :: 0 <= k < |nodes| ==> Available(nodes[k], ready + Outs(nodes[..k]))
  }

  function Given(model: Model): set<string> {
    Elements(model.inputs) + Names(model.initializers)
  }

  /** No two nodes, and no two outputs of a node, define the same name. */
  ghost predicate DefinedOnce(nodes: seq<Node>) {
    && (forall i, j, name :: 0 <= i < j < |nodes| && name in nodes[i].outputs && name in nodes[j].outputs ==>
      name == "")
    && (forall i, j, k ::
          && 0 <= k < |nodes| && 0 <= i < j < |nodes[k].outputs|
          && nodes[k].outputs[i] == nodes[k].outputs[j] ==>
          nodes[k].outputs[i] == "")
  }

  /** What an ONNX checker demands apart from order: single assignment, initializers of different names, and a first
      output that is never optional. */
  ghost predicate WellFormed(model: Model) {
    && DefinedOnce(model.nodes)
    && (forall name :: name in Outs(model.nodes) && name in Given(model) ==> name == "")
    && (forall i, j :: 0 <= i < j < |model.initializers| ==> model.initializers[i].name != model.initializers[j].name)
    && "" !in Given(model)
    && (forall node :: node in model.nodes && node.outputs != [] ==> node.outputs[0] != "")
  }

  ghost predicate ValidModel(model: Model) {
    WellFormed(model) && Ordered(model.nodes, Given(model))
  }

  // ------------------------------------------------------- facts about execution

  lemma {:induction false} BindFacts(env: Env, names: seq<string>, values: seq<Tensor>)
    requires |names| == |values|
    ensures var after := Bind(env, names, values);
            && after.Keys == env.Keys + (Elements(names) - {""})
            && (forall name :: name in env && name !in names ==> after[name] == env[name])
            && ("" in env ==> after[""] == env[""])
    decreases |names|
  {
    if names != [] {
      BindFacts(if names[0] == "" then env else env[names[0] := values[0]], names[1..], values[1..]);
      assert forall name :: name in names <==> name == names[0] || name in names[1..];
    }
  }

  lemma {:induction false} BindValue(env: Env, names: seq<string>, values: seq<Tensor>, k: nat)
    requires |names| == |values| && k < |names| && names[k] != ""
    requires forall i, j :: 0 <= i < j < |names| && names[i] == names[j] ==> names[i] == ""
    ensures names[k] in Bind(env, names, values) && Bind(env, names, values)[names[k]] == values[k]
    decreases |names|
  {
    var next := if names[0] == "" then env else env[names[0] := values[0]];
    if k == 0 {
      BindFacts(next, names[1..], values[1..]);
      assert names[0] !in names[1..];
    } else {
      BindValue(next, names[1..], values[1..], k - 1);
    }
  }

  /** env gives node's outputs the values its operator computes from node's inputs in env. */
  ghost predicate Satisfies(ops: Ops, env: Env, node: Node)
    requires Arities(ops)
  {
    forall k :: 0 <= k < |node.outputs| && node.outputs[k] != "" ==>
      node.outputs[k] in env && env[node.outputs[k]] == ops(node, Args(env, node.inputs))[k]
  }

  ghost predicate Extends(small: Env, large: Env) {
    forall name :: name in small ==> name in large && small[name] == large[name]
  }

  /** Which names execution defines does not depend on the operators. */
  lemma {:induction false} ExecuteKeys(ops: Ops, nodes: seq<Node>, env: Env)
    requires Arities(ops)
    ensures Execute(ops, nodes, env).Keys == env.Keys + (Outs(nodes) - {""})
    decreases |nodes|
  {
    if nodes != [] {
      var front, last := nodes[..|nodes| - 1], nodes[|nodes| - 1];
      var before := Execute(ops, front, env);
      ExecuteKeys(ops, front, env);
      BindFacts(before, last.outputs, ops(last, Args(before, last.inputs)));
    }
  }

  /** Dropping the last node keeps order and single assignment, and its outputs are new. */
  lemma WithoutLast(nodes: seq<Node>, ready: set<string>)
    requires nodes != [] && DefinedOnce(nodes) && Ordered(nodes, ready)
    ensures var front, last := nodes[..|nodes| - 1], nodes[|nodes| - 1];
            && DefinedOnce(front) && Ordered(front, ready) && Available(last, ready + Outs(front))
            && (forall name :: name in last.outputs && name in Outs(front) ==> name == "")
  {
    var front, last := nodes[..|nodes| - 1], nodes[|nodes| - 1];
    assert forall k :: 0 <= k < |front| ==> front[..k] == nodes[..k] && front[k] == nodes[k];
    forall name | name in last.outputs && name in Outs(front) ensures name == "" {
      InOuts(front, name);
      var i :| 0 <= i < |front| && name in front[i].outputs;
      assert name in nodes[i].outputs;
    }
  }

  /** Every input of every node is settled before the node runs. */
  lemma {:induction false} InputsKnown(nodes: seq<Node>, ready: set<string>, node: Node)
    requires Ordered(nodes, ready) && node in nodes
    ensures Available(node, ready + Outs(nodes))
  {
    var k :| 0 <= k < |nodes| && nodes[k] == node;
    OutsPrefix(nodes, k);
  }

  lemma {:induction false} OutsPrefix(nodes: seq<Node>, k: nat)
    requires k <= |nodes|
    ensures Outs(nodes[..k]) <= Outs(nodes)
    decreases |nodes|
  {
    if k == |nodes| {
      assert nodes[..k] == nodes;
    } else {
      assert nodes[..|nodes| - 1][..k] == nodes[..k];
      OutsPrefix(nodes[..|nodes| - 1], k);
    }
  }

  /** Single assignment makes execution a solution of the equations of all its nodes. */
  lemma {:induction false} ExecuteSolves(ops: Ops, nodes: seq<Node>, env: Env, ready: set<string>)
    requires Arities(ops) && DefinedOnce(nodes) && Ordered(nodes, ready)
    requires env.Keys <= ready && forall name :: name in Outs(nodes) && name in ready ==> name == ""
    ensures Extends(env, Execute(ops, nodes, env))
    ensures forall node :: node in nodes ==> Satisfies(ops, Execute(ops, nodes, env), node)
    decreases |nodes|
  {
    if nodes != [] {
      var front, last := nodes[..|nodes| - 1], nodes[|nodes| - 1];
      WithoutLast(nodes, ready);
      ExecuteSolves(ops, front, env, ready);
      ExecuteKeys(ops, front, env);
      var before := Execute(ops, front, env);
      var values := ops(last, Args(before, last.inputs));
      LastStep(ops, last, before, ready + Outs(front));
      forall node | node in nodes ensures Satisfies(ops, Bind(before, last.outputs, values), node) {
        if node in front {
          InputsKnown(front, ready, node);
          SettledArgs(ops, node, before, Bind(before, last.outputs, values), ready + Outs(front), last.outputs);
        }
      }
    }
  }

  /** Inputs that were available keep their values when later names are bound. */
  lemma SettledArgs(ops: Ops, node: Node, before: Env, after: Env, ready: set<string>, bound: seq<string>)
    requires Arities(ops) && Satisfies(ops, before, node) && Extends(before, after)
    requires after.Keys <= before.Keys + (Elements(bound) - {""})
    requires Available(node, ready)
    requires forall name :: name in bound && name in ready ==> name == ""
    ensures Satisfies(ops, after, node)
  {
    assert Args(before, node.inputs) == Args(after, node.inputs);
  }

  /** Running one more node adds its equations and disturbs nothing. */
  lemma LastStep(ops: Ops, last: Node, before: Env, ready: set<string>)
    requires Arities(ops) && Available(last, ready)
    requires forall name :: name in last.outputs && name in ready ==> name == ""
    requires forall name :: name in before && name != "" ==> name in ready
    requires forall i, j :: 0 <= i < j < |last.outputs| && last.outputs[i] == last.outputs[j] ==> last.outputs[i] == ""
    ensures var after := Bind(before, last.outputs, ops(last, Args(before, last.inputs)));
            && Extends(before, after) && Satisfies(ops, after, last)
            && after.Keys == before.Keys + (Elements(last.outputs) - {""})
  {
    var values := ops(last, Args(before, last.inputs));
    var after := Bind(before, last.outputs, values);
    BindFacts(before, last.outputs, values);
    assert Args(before, last.inputs) == Args(after, last.inputs);
    forall k | 0 <= k < |last.outputs| && last.outputs[k] != ""
      ensures last.outputs[k] in after && after[last.outputs[k]] == values[k]
    {
      BindValue(before, last.outputs, values, k);
    }
  }

  /** Executing nodes whose equations an environment already solves, from a start inside it, stays inside it. */
  lemma {:induction false} ExecuteWithin(ops: Ops, nodes: seq<Node>, start: Env, ready: set<string>, solution: Env)
    requires Arities(ops) && Ordered(nodes, ready) && DefinedOnce(nodes)
    requires Extends(start, solution)
    requires forall name :: name in ready && name in solution ==> name in start
    requires forall node :: node in nodes ==> Satisfies(ops, solution, node)
    ensures Extends(Execute(ops, nodes, start), solution)
    decreases |nodes|
  {
    if nodes != [] {
      var front, last := nodes[..|nodes| - 1], nodes[|nodes| - 1];
      WithoutLast(nodes, ready);
      ExecuteWithin(ops, front, start, ready, solution);
      ExecuteKeys(ops, front, start);
      var before := Execute(ops, front, start);
      assert last in nodes;
      StepWithin(ops, last, before, ready + Outs(front), solution);
    }
  }

  lemma StepWithin(ops: Ops, last: Node, before: Env, ready: set<string>, solution: Env)
    requires Arities(ops) && Available(last, ready) && Satisfies(ops, solution, last) && Extends(before, solution)
    requires forall name :: name in ready && name in solution && name != "" ==> name in before
    requires forall i, j :: 0 <= i < j < |last.outputs| && last.outputs[i] == last.outputs[j] ==> last.outputs[i] == ""
    ensures Extends(Bind(before, last.outputs, ops(last, Args(before, last.inputs))), solution)
  {
    var values := ops(last, Args(before, last.inputs));
    var after := Bind(before, last.outputs, values);
    BindFacts(before, last.outputs, values);
    assert Args(before, last.inputs) == Args(solution, last.inputs);
    forall name | name in after ensures name in solution && after[name] == solution[name] {
      if name in last.outputs && name != "" {
        var k :| 0 <= k < |last.outputs| && last.outputs[k] == name;
        BindValue(before, last.outputs, values, k);
      }
    }
  }
}
