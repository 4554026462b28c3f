/** The rewrites of optimize_laya.py preserve meaning: sorting for every valid graph, folding exactly under
    the condition that no folded weight can be replaced by a feed. */
module OptimizeMeaning {
  import opened OnnxGraph
  import opened OptimizeLaya
  import opened Wrappers

  /** Feeds may only name graph inputs. */
  ghost predicate FeedsFor(model: Model, feeds: Env) {
    forall name :: name in feeds ==> name in model.inputs
  }

  /** A Cast node that the pass recognises computes the conversion of its argument. */
  ghost predicate CastMeans(ops: Ops, cast: Tensor -> Tensor, names: set<string>) {
    forall node, value :: Foldable(node, names) && |ops(node, [Some(value)])| == 1 ==>
      ops(node, [Some(value)])[0] == cast(value)
  }

  // ------------------------------------------------------------------- sorting

  lemma Carried(a: seq<Node>, b: seq<Node>, name: string)
    requires multiset(a) == multiset(b) && name in Outs(a)
    ensures name in Outs(b)
  {
    InOuts(a, name);
    var k :| 0 <= k < |a| && name in a[k].outputs;
    assert a[k] in multiset(b);
    var j :| 0 <= j < |b| && b[j] == a[k];
    InOuts(b, name);
  }

  lemma {:induction false} TwoPlaces(s: seq<Node>, node: Node) returns (i: nat, j: nat)
    requires multiset(s)[node] >= 2
    ensures i < j < |s| && s[i] == s[j] == node
  {
    assert s == s[..|s| - 1] + [s[|s| - 1]];
    if multiset(s[..|s| - 1])[node] >= 2 {
      i, j := TwoPlaces(s[..|s| - 1], node);
    } else {
      j := |s| - 1;
      assert node in multiset(s[..j]);
      i :| 0 <= i < j && s[i] == node;
    }
  }

  lemma Twice(s: seq<Node>, i: nat, j: nat)
    requires i < j < |s| && s[i] == s[j]
    ensures multiset(s)[s[i]] >= 2
  {
    assert s == s[..j] + ([s[j]] + s[j + 1..]);
    assert s[i] in multiset(s[..j]);
  }

  /** Single assignment does not depend on the order of the nodes. */
  lemma RearrangedDefinedOnce(a: seq<Node>, b: seq<Node>)
    requires multiset(a) == multiset(b) && DefinedOnce(a)
    ensures DefinedOnce(b)
  {
    forall i, j, name | 0 <= i < j < |b| && name in b[i].outputs && name in b[j].outputs ensures name == "" {
      assert b[i] in multiset(a) && b[j] in multiset(a);
      if b[i] == b[j] {
        Twice(b, i, j);
        var k, l := TwoPlaces(a, b[i]);
      } else {
        var k :| 0 <= k < |a| && a[k] == b[i];
        var l :| 0 <= l < |a| && a[l] == b[j];
      }
    }
    forall k | 0 <= k < |b| ensures b[k] in a { assert b[k] in multiset(a); }
  }

  lemma Rearranged(model: Model, other: seq<Node>)
    requires WellFormed(model) && multiset(other) == multiset(model.nodes)
    ensures WellFormed(model.(nodes := other))
  {
    RearrangedDefinedOnce(model.nodes, other);
    forall name | name in Outs(other) ensures name in Outs(model.nodes) { Carried(other, model.nodes, name); }
    forall node | node in other ensures node in model.nodes { assert node in multiset(model.nodes); }
  }

  /** Any two dependency-ordered arrangements of the same single-assignment nodes compute the same values,
      so restoring the order after conversion cannot change a result. */
  lemma SortKeepsMeaning(ops: Ops, model: Model, other: seq<Node>, feeds: Env)
    requires Arities(ops) && ValidModel(model) && FeedsFor(model, feeds)
    requires multiset(other) == multiset(model.nodes) && Ordered(other, Given(model))
    ensures Run(ops, model.(nodes := other), feeds) == Run(ops, model, feeds)
  {
    Rearranged(model, other);
    var start := InitialEnv(model.initializers) + feeds;
    var given := Given(model);
    assert start.Keys <= given;
    Within(ops, model.nodes, other, start, given);
    Within(ops, other, model.nodes, start, given);
  }

  /** topological_sort of a single-assignment graph whose nodes are in any arrangement. When it succeeds, running the
      result solves the equation of every node, and when the nodes have any dependency-ordered arrangement it does
      succeed and computes what that arrangement computes. */
  method SortModel(file: OnnxFile, ghost ops: Ops, ghost feeds: Env) returns (sorted: bool)
    requires Arities(ops) && WellFormed(file.Contents()) && FeedsFor(file.Contents(), feeds)
    modifies file
    ensures file.Contents() == old(file.Contents()).(nodes := file.nodes) && (sorted ==> ValidModel(file.Contents()))
    ensures sorted ==> forall node :: node in old(file.nodes) ==> Satisfies(ops, Run(ops, file.Contents(), feeds), node)
    ensures forall order ::
              && multiset(order) == multiset(old(file.nodes)) && Ordered(order, Given(old(file.Contents()))) ==>
              sorted && Run(ops, file.Contents(), feeds) == Run(ops, old(file.Contents()).(nodes := order), feeds)
  {
    ghost var before := file.Contents();
    sorted := file.TopologicalSort();
    ghost var after := file.Contents();
    if sorted {
      Rearranged(before, after.nodes);
      ExecuteSolves(ops, after.nodes, InitialEnv(after.initializers) + feeds, Given(after));
      forall node | node in before.nodes ensures Satisfies(ops, Run(ops, after, feeds), node) {
        assert node in multiset(after.nodes);
      }
      forall order | multiset(order) == multiset(before.nodes) && Ordered(order, Given(before))
        ensures Run(ops, after, feeds) == Run(ops, before.(nodes := order), feeds)
      {
        SortKeepsMeaning(ops, after, order, feeds);
        assert after.(nodes := order) == before.(nodes := order);
      }
    }
  }

  lemma Within(ops: Ops, nodes: seq<Node>, other: seq<Node>, start: Env, given: set<string>)
    requires Arities(ops) && DefinedOnce(nodes) && Ordered(nodes, given) && DefinedOnce(other) && Ordered(other, given)
    requires multiset(nodes) == multiset(other) && start.Keys <= given
    requires forall name :: name in Outs(nodes) && name in given ==> name == ""
    requires "" !in given
    ensures Extends(Execute(ops, other, start), Execute(ops, nodes, start))
  {
    ExecuteSolves(ops, nodes, start, given);
    ExecuteKeys(ops, nodes, start);
    forall node | node in other ensures Satisfies(ops, Execute(ops, nodes, start), node) {
      assert node in multiset(nodes);
    }
    ExecuteWithin(ops, other, start, given, Execute(ops, nodes, start));
  }

  // ------------------------------------------------------------------- folding

  /** No weight that folding bakes in could have been replaced through a graph input of the same name. */
  ghost predicate WeightsFixed(model: Model) {
    forall node :: node in model.nodes && Foldable(node, Names(model.initializers)) ==> node.inputs[0] !in model.inputs
  }

  /** Equal names, equal initializers. */
  ghost predicate Functional(initializers: seq<Initializer>) {
    forall v, w :: v in initializers && w in initializers && v.name == w.name ==> v == w
  }

  lemma {:induction false} InitialValue(initializers: seq<Initializer>, v: Initializer)
    requires Functional(initializers) && v in initializers
    ensures InitialEnv(initializers)[v.name] == v.value
  {
    var front, last := initializers[..|initializers| - 1], initializers[|initializers| - 1];
    if v.name == last.name {
      assert last in initializers;
    } else {
      assert v in front;
      InitialValue(front, v);
    }
  }

  lemma {:induction false} UsedMember(initializers: seq<Initializer>, used: set<string>, v: Initializer)
    ensures v in OnlyUsed(initializers, used) <==> v in initializers && v.name in used
  {
    if initializers != [] { UsedMember(initializers[1..], used, v); }
  }

  lemma {:induction false} FoldedMember(cast: Tensor -> Tensor, env: Env, nodes: seq<Node>, v: Initializer)
    ensures v in AllFolded(cast, env, nodes) <==>
              exists node :: node in nodes && Foldable(node, env.Keys) && v == Folded(cast, env, node)
  {
    if nodes != [] {
      FoldedMember(cast, env, nodes[1..], v);
      assert nodes[0] in nodes && forall node :: node in nodes <==> node == nodes[0] || node in nodes[1..];
    }
  }

  /** A single-assignment name comes from one node. */
  lemma OneProducer(nodes: seq<Node>, a: Node, b: Node, name: string)
    requires DefinedOnce(nodes) && a in nodes && b in nodes && name in a.outputs && name in b.outputs && name != ""
    ensures a == b
  {
  }

  ghost predicate ProducedByFolded(nodes: seq<Node>, names: set<string>, name: string) {
    exists node :: node in nodes && Foldable(node, names) && name in node.outputs
  }

  /** What a node list defines is still defined, or was defined by a folded node. */
  lemma {:induction false} KeptDefines(nodes: seq<Node>, names: set<string>, name: string)
    requires name in Outs(nodes)
    ensures name in Outs(Keep(nodes, names, false)) || ProducedByFolded(nodes, names, name)
    decreases |nodes|
  {
    var front, last := nodes[..|nodes| - 1], nodes[|nodes| - 1];
    assert nodes == front + [last];
    KeepNext(front, last, names, false);
    var kept := Keep(front, names, false);
    if Foldable(last, names) { assert kept + [] == kept; } else { assert (kept + [last])[..|kept|] == kept; }
    if name in Outs(front) {
      KeptDefines(front, names, name);
    } else {
      assert name in last.outputs && last in nodes;
    }
  }

  /** The remaining nodes are still single-assignment and still ordered: an input they lost a producer for
      is now an initializer. */
  lemma {:induction false} KeptOrdered(nodes: seq<Node>, names: set<string>, given: set<string>, now: set<string>)
    requires DefinedOnce(nodes) && Ordered(nodes, given)
    requires forall name :: name in InputNames(Keep(nodes, names, false)) && name != "" ==>
               (name in given ==> name in now) && (ProducedByFolded(nodes, names, name) ==> name in now)
    ensures DefinedOnce(Keep(nodes, names, false)) && Ordered(Keep(nodes, names, false), now)
    ensures Outs(Keep(nodes, names, false)) <= Outs(nodes)
    decreases |nodes|
  {
    if nodes != [] {
      var front, last := nodes[..|nodes| - 1], nodes[|nodes| - 1];
      assert nodes == front + [last];
      WithoutLast(nodes, given);
      KeepNext(front, last, names, false);
      var kept := Keep(front, names, false);
      assert InputNames(kept) <= InputNames(Keep(nodes, names, false));
      assert forall name :: ProducedByFolded(front, names, name) ==> ProducedByFolded(nodes, names, name);
      KeptOrdered(front, names, given, now);
      if !Foldable(last, names) {
        forall name | name in last.inputs ensures name == "" || name in now + Outs(kept) {
          assert last in Keep(nodes, names, false) && name in InputNames(Keep(nodes, names, false));
          if name in Outs(front) { KeptDefines(front, names, name); }
        }
        OrderedMore(kept, last, now);
        DefinedMore(kept, last, Outs(front));
        assert last.outputs == nodes[|nodes| - 1].outputs;
      } else {
        assert kept + [] == kept;
      }
    }
  }

  lemma DefinedMore(kept: seq<Node>, last: Node, outs: set<string>)
    requires DefinedOnce(kept) && Outs(kept) <= outs
    requires forall name :: name in last.outputs && name in outs ==> name == ""
    requires forall i, j :: 0 <= i < j < |last.outputs| && last.outputs[i] == last.outputs[j] ==> last.outputs[i] == ""
    ensures DefinedOnce(kept + [last])
  {
    var more := kept + [last];
    forall i, j, name | 0 <= i < j < |more| && name in more[i].outputs && name in more[j].outputs ensures name == "" {
      if j == |kept| { InOuts(kept, name); }
    }
  }

  /** Every initializer of the folded model holds the value its name has when the original model runs. */
  lemma FoldedStart(ops: Ops, cast: Tensor -> Tensor, model: Model, feeds: Env)
    requires Arities(ops) && ValidModel(model) && FeedsFor(model, feeds) && WeightsFixed(model)
    requires CastMeans(ops, cast, Names(model.initializers))
    ensures Extends(InitialEnv(Materialized(cast, model).initializers) + feeds, Run(ops, model, feeds))
  {
    var result := Run(ops, model, feeds);
    ExecuteSolves(ops, model.nodes, InitialEnv(model.initializers) + feeds, Given(model));
    var now := Materialized(cast, model).initializers;
    NowFunctional(cast, model);
    forall name | name in InitialEnv(now) && name !in feeds
      ensures name in result && result[name] == InitialEnv(now)[name]
    {
      var v :| v in now && v.name == name;
      InitialValue(now, v);
      NowValue(ops, cast, model, feeds, result, v);
    }
  }

  lemma NowValue(ops: Ops, cast: Tensor -> Tensor, model: Model, feeds: Env, result: Env, v: Initializer)
    requires Arities(ops) && ValidModel(model) && FeedsFor(model, feeds) && WeightsFixed(model)
    requires CastMeans(ops, cast, Names(model.initializers)) && Functional(model.initializers)
    requires Extends(InitialEnv(model.initializers) + feeds, result)
    requires forall node :: node in model.nodes ==> Satisfies(ops, result, node)
    requires v in Materialized(cast, model).initializers && v.name !in feeds
    ensures v.name in result && result[v.name] == v.value
  {
    var env := InitialEnv(model.initializers);
    NowMember(cast, model, v);
    if v in model.initializers {
      InitialValue(model.initializers, v);
    } else {
      var node :| node in model.nodes && Foldable(node, env.Keys) && v == Folded(cast, env, node);
      FixedWeight(model, feeds, node);
      FoldedValue(ops, cast, env, env + feeds, result, node);
    }
  }

  /** The input of a foldable node is an initializer that no feed replaces. */
  lemma FixedWeight(model: Model, feeds: Env, node: Node)
    requires ValidModel(model) && FeedsFor(model, feeds) && WeightsFixed(model)
    requires node in model.nodes && Foldable(node, InitialEnv(model.initializers).Keys)
    ensures var w, env := node.inputs[0], InitialEnv(model.initializers);
            w in env && w !in feeds && w != "" && node.outputs[0] != "" && env.Keys == Names(model.initializers)
  {
    assert InitialEnv(model.initializers).Keys == Names(model.initializers);
    assert node.inputs[0] in Given(model);
  }

  /** A foldable node's output is the converted initializer, as its input cannot have been fed. */
  lemma FoldedValue(ops: Ops, cast: Tensor -> Tensor, env: Env, start: Env, result: Env, node: Node)
    requires Arities(ops) && CastMeans(ops, cast, env.Keys) && Foldable(node, env.Keys)
    requires node.outputs[0] != "" && node.inputs[0] != ""
    requires Satisfies(ops, result, node) && Extends(start, result)
    requires node.inputs[0] in start && start[node.inputs[0]] == env[node.inputs[0]]
    ensures node.outputs[0] in result && result[node.outputs[0]] == cast(env[node.inputs[0]])
  {
    assert Args(result, node.inputs) == [Some(env[node.inputs[0]])];
  }

  lemma NowMember(cast: Tensor -> Tensor, model: Model, v: Initializer)
    ensures var env := InitialEnv(model.initializers);
            v in Materialized(cast, model).initializers <==>
              && v.name in UsedNames(Materialized(cast, model).nodes, model)
              && (v in model.initializers
                  || exists node :: node in model.nodes && Foldable(node, env.Keys) && v == Folded(cast, env, node))
  {
    var env := InitialEnv(model.initializers);
    UsedMember(model.initializers + AllFolded(cast, env, model.nodes),
      UsedNames(Materialized(cast, model).nodes, model), v);
    FoldedMember(cast, env, model.nodes, v);
  }

  lemma NowFunctional(cast: Tensor -> Tensor, model: Model)
    requires ValidModel(model)
    ensures Functional(model.initializers) && Functional(Materialized(cast, model).initializers)
  {
    var env := InitialEnv(model.initializers);
    var now := Materialized(cast, model).initializers;
    forall v, w | v in model.initializers && w in model.initializers && v.name == w.name ensures v == w {
      var i :| 0 <= i < |model.initializers| && model.initializers[i] == v;
      var j :| 0 <= j < |model.initializers| && model.initializers[j] == w;
    }
    forall v, w | v in now && w in now && v.name == w.name ensures v == w {
      NowMember(cast, model, v);
      NowMember(cast, model, w);
      if v !in model.initializers || w !in model.initializers {
        FoldedName(cast, model, v);
        FoldedName(cast, model, w);
      }
    }
  }

  /** A folded name is a node output, hence no initializer's name, and has one producer. */
  lemma FoldedName(cast: Tensor -> Tensor, model: Model, v: Initializer)
    requires ValidModel(model)
    ensures var env := InitialEnv(model.initializers);
            forall node :: node in model.nodes && Foldable(node, env.Keys) && v.name == node.outputs[0] ==>
              v.name != "" && v.name !in Names(model.initializers)
              && forall other :: other in model.nodes && Foldable(other, env.Keys) && other.outputs[0] == v.name ==>
                other == node
  {
    var env := InitialEnv(model.initializers);
    forall node | node in model.nodes && Foldable(node, env.Keys) && v.name == node.outputs[0]
      ensures v.name != "" && v.name !in Names(model.initializers)
        && forall other :: other in model.nodes && Foldable(other, env.Keys) && other.outputs[0] == v.name ==>
          other == node
    {
      var k :| 0 <= k < |model.nodes| && model.nodes[k] == node;
      InOuts(model.nodes, v.name);
      assert v.name in node.outputs;
      forall other | other in model.nodes && Foldable(other, env.Keys) && other.outputs[0] == v.name
        ensures other == node
      {
        OneProducer(model.nodes, node, other, v.name);
      }
    }
  }

  /** The folded model computes nothing the original would not. */
  lemma FoldedWithin(ops: Ops, cast: Tensor -> Tensor, model: Model, feeds: Env)
    requires Arities(ops) && ValidModel(model) && FeedsFor(model, feeds) && WeightsFixed(model)
    requires CastMeans(ops, cast, Names(model.initializers))
    ensures Extends(Run(ops, Materialized(cast, model), feeds), Run(ops, model, feeds))
  {
    var names := InitialEnv(model.initializers).Keys;
    var start := InitialEnv(model.initializers) + feeds;
    var folded := Materialized(cast, model);
    var result := Run(ops, model, feeds);
    ExecuteSolves(ops, model.nodes, start, Given(model));
    ExecuteKeys(ops, model.nodes, start);
    forall node | node in folded.nodes ensures Satisfies(ops, result, node) {
      KeptFoldable(model.nodes, names, false, node);
    }
    FoldedStart(ops, cast, model, feeds);
    FoldedOrdered(cast, model);
    GivenStillDefined(cast, model, feeds, result);
    ExecuteWithin(ops, folded.nodes, InitialEnv(folded.initializers) + feeds, Given(folded), result);
  }

  /** The folded model is again single-assignment and dependency-ordered. */
  lemma FoldedOrdered(cast: Tensor -> Tensor, model: Model)
    requires ValidModel(model)
    ensures var folded := Materialized(cast, model);
            DefinedOnce(folded.nodes) && Ordered(folded.nodes, Given(folded))
  {
    StillGiven(cast, model);
    KeptOrdered(model.nodes, InitialEnv(model.initializers).Keys, Given(model), Given(Materialized(cast, model)));
  }

  /** A graph output that has a value still has one after folding. */
  lemma OutputStillDefined(ops: Ops, cast: Tensor -> Tensor, model: Model, feeds: Env, name: string)
    requires Arities(ops) && ValidModel(model) && name in model.outputs && name != ""
    requires name in Run(ops, model, feeds)
    ensures name in Run(ops, Materialized(cast, model), feeds)
  {
    var folded := Materialized(cast, model);
    var names := InitialEnv(model.initializers).Keys;
    ExecuteKeys(ops, model.nodes, InitialEnv(model.initializers) + feeds);
    ExecuteKeys(ops, folded.nodes, InitialEnv(folded.initializers) + feeds);
    StillGiven(cast, model);
    if name in Outs(model.nodes) { KeptDefines(model.nodes, names, name); }
    assert name in UsedNames(folded.nodes, model);
  }

  /** Folding and dropping unused initializers leaves every graph output as it was, for all feeds and every
      operator semantics in which a recognised Cast converts its argument. */
  lemma FoldKeepsOutputs(ops: Ops, cast: Tensor -> Tensor, model: Model, feeds: Env, name: string)
    requires Arities(ops) && ValidModel(model) && FeedsFor(model, feeds) && WeightsFixed(model)
    requires CastMeans(ops, cast, Names(model.initializers))
    requires name in model.outputs && name != ""
    ensures Arg(Run(ops, Materialized(cast, model), feeds), name) == Arg(Run(ops, model, feeds), name)
  {
    FoldedWithin(ops, cast, model, feeds);
    if name in Run(ops, model, feeds) { OutputStillDefined(ops, cast, model, feeds, name); }
  }

  /** A given name that has a value in the original run has one when the folded model starts. */
  lemma GivenStillDefined(cast: Tensor -> Tensor, model: Model, feeds: Env, result: Env)
    requires ValidModel(model)
    requires result.Keys == InitialEnv(model.initializers).Keys + feeds.Keys + (Outs(model.nodes) - {""})
    ensures var folded := Materialized(cast, model);
            forall x :: x in Given(folded) && x in result ==> x in InitialEnv(folded.initializers) + feeds
  {
    var folded := Materialized(cast, model);
    StillGiven(cast, model);
    forall x | x in Given(folded) && x in result ensures x in InitialEnv(folded.initializers) + feeds {
      if x in model.inputs {
        assert x in UsedNames(folded.nodes, model);
      }
    }
  }

  /** What the remaining nodes, the outputs and the inputs refer to is still given, or was folded into place. */
  lemma StillGiven(cast: Tensor -> Tensor, model: Model)
    requires ValidModel(model)
    ensures var folded := Materialized(cast, model);
            var names := InitialEnv(model.initializers).Keys;
            forall name :: name in UsedNames(folded.nodes, model) && name != "" ==>
              && (name in Given(model) ==> name in Given(folded))
              && (name in Names(model.initializers) ==> name in Names(folded.initializers))
              && (forall node :: node in model.nodes && Foldable(node, names) && name in node.outputs ==>
                    name in Names(folded.initializers))
  {
    var folded := Materialized(cast, model);
    var env := InitialEnv(model.initializers);
    forall name | name in UsedNames(folded.nodes, model) && name in Names(model.initializers)
      ensures name in Names(folded.initializers)
    {
      KeptInitializer(cast, model, name);
    }
    forall name, node | name in UsedNames(folded.nodes, model) && node in model.nodes && Foldable(node, env.Keys)
        && name in node.outputs
      ensures name in Names(folded.initializers)
    {
      FoldedIntoPlace(cast, model, name, node);
    }
  }

  lemma KeptInitializer(cast: Tensor -> Tensor, model: Model, name: string)
    requires name in UsedNames(Materialized(cast, model).nodes, model) && name in Names(model.initializers)
    ensures name in Names(Materialized(cast, model).initializers)
  {
    var v :| v in model.initializers && v.name == name;
    NowMember(cast, model, v);
  }

  lemma FoldedIntoPlace(cast: Tensor -> Tensor, model: Model, name: string, node: Node)
    requires name in UsedNames(Materialized(cast, model).nodes, model)
    requires node in model.nodes && Foldable(node, InitialEnv(model.initializers).Keys) && name in node.outputs
    ensures name in Names(Materialized(cast, model).initializers)
  {
    NowMember(cast, model, Folded(cast, InitialEnv(model.initializers), node));
  }

  /** Which nodes folding removes: Cast nodes of one input and one output whose input names an initializer and whose
      target type is 1, the FLOAT of ONNX; every other node stays. */
  lemma {:induction false} RemovedAre(cast: Tensor -> Tensor, model: Model, node: Node)
    requires node in model.nodes
    ensures node !in Materialized(cast, model).nodes <==>
              && node.opType == "Cast" && |node.inputs| == 1 && |node.outputs| == 1
              && (exists v :: v in model.initializers && v.name == node.inputs[0])
              && exists a :: a in node.attributes && a.name == "to" && a.i == 1
  {
    KeptAre(model.nodes, InitialEnv(model.initializers).Keys, node);
  }

  lemma {:induction false} KeptAre(nodes: seq<Node>, names: set<string>, node: Node)
    ensures node in Keep(nodes, names, false) <==> node in nodes && !Foldable(node, names)
  {
    if nodes != [] { KeptAre(nodes[1..], names, node); }
  }

  // ------------------------------------------------ why the condition is needed

  /** A weight's value in a run: the feed when there is one, or else the stored initializer. */
  function Supplied(model: Model, feeds: Env, weight: string): Tensor
    requires weight in Names(model.initializers)
  {
    if weight in feeds then feeds[weight] else InitialEnv(model.initializers)[weight]
  }

  /** What a recognised cast computes in the original: the conversion of the feed, or else of the initializer. */
  lemma OriginalValue(ops: Ops, cast: Tensor -> Tensor, model: Model, feeds: Env, node: Node)
    requires Arities(ops) && ValidModel(model) && FeedsFor(model, feeds)
    requires CastMeans(ops, cast, Names(model.initializers))
    requires node in model.nodes && Foldable(node, Names(model.initializers))
    ensures Arg(Run(ops, model, feeds), node.outputs[0]) == Some(cast(Supplied(model, feeds, node.inputs[0])))
  {
    var w, env := node.inputs[0], InitialEnv(model.initializers);
    var start := env + feeds;
    var result := Run(ops, model, feeds);
    ExecuteSolves(ops, model.nodes, start, Given(model));
    assert w in Given(model) && w in start;
    assert Args(result, node.inputs) == [Some(start[w])];
    assert Satisfies(ops, result, node) && node.outputs[0] != "";
  }

  /** Names given to the folded model are not computed by its nodes. */
  lemma FoldedDisjoint(cast: Tensor -> Tensor, model: Model, name: string)
    requires ValidModel(model)
    requires name in Outs(Materialized(cast, model).nodes) && name in Given(Materialized(cast, model))
    ensures name == ""
  {
    var folded, env := Materialized(cast, model), InitialEnv(model.initializers);
    StillGiven(cast, model);
    KeptOrdered(model.nodes, env.Keys, Given(model), Given(folded));
    if name !in Given(model) {
      var v :| v in folded.initializers && v.name == name;
      NowMember(cast, model, v);
      assert v in model.initializers ==> v.name in Names(model.initializers);
      var node :| node in model.nodes && Foldable(node, env.Keys) && v == Folded(cast, env, node);
      InOuts(folded.nodes, name);
      var k :| 0 <= k < |folded.nodes| && name in folded.nodes[k].outputs;
      KeptFoldable(model.nodes, env.Keys, false, folded.nodes[k]);
      if name != "" { OneProducer(model.nodes, node, folded.nodes[k], name); }
    }
  }

  /** What the folded model has under the same name: always the conversion of the initializer. */
  lemma FoldedRunValue(ops: Ops, cast: Tensor -> Tensor, model: Model, feeds: Env, node: Node)
    requires Arities(ops) && ValidModel(model) && FeedsFor(model, feeds)
    requires node in model.nodes && Foldable(node, Names(model.initializers))
    requires node.outputs[0] in UsedNames(Materialized(cast, model).nodes, model)
    ensures Arg(Run(ops, Materialized(cast, model), feeds), node.outputs[0])
         == Some(cast(InitialEnv(model.initializers)[node.inputs[0]]))
  {
    FoldedInitial(cast, model, node);
    NotFed(model, feeds, node);
    FoldedExtends(ops, cast, model, feeds);
    StartValue(InitialEnv(Materialized(cast, model).initializers), feeds, Run(ops, Materialized(cast, model), feeds),
      node.outputs[0]);
  }

  lemma StartValue(start: Env, feeds: Env, result: Env, name: string)
    requires Extends(start + feeds, result) && name in start && name !in feeds && name != ""
    ensures Arg(result, name) == Some(start[name])
  {
  }

  lemma FoldedInitial(cast: Tensor -> Tensor, model: Model, node: Node)
    requires ValidModel(model) && node in model.nodes && Foldable(node, Names(model.initializers))
    requires node.outputs[0] in UsedNames(Materialized(cast, model).nodes, model)
    ensures var start, env := InitialEnv(Materialized(cast, model).initializers), InitialEnv(model.initializers);
            node.outputs[0] in start && start[node.outputs[0]] == cast(env[node.inputs[0]])
  {
    var folded, env := Materialized(cast, model), InitialEnv(model.initializers);
    var v := Folded(cast, env, node);
    NowMember(cast, model, v);
    NowFunctional(cast, model);
    InitialValue(folded.initializers, v);
  }

  lemma FoldedExtends(ops: Ops, cast: Tensor -> Tensor, model: Model, feeds: Env)
    requires Arities(ops) && ValidModel(model) && FeedsFor(model, feeds)
    ensures var folded := Materialized(cast, model);
            Extends(InitialEnv(folded.initializers) + feeds, Run(ops, folded, feeds))
  {
    var folded := Materialized(cast, model);
    forall name | name in Outs(folded.nodes) && name in Given(folded) ensures name == "" {
      FoldedDisjoint(cast, model, name);
    }
    FoldedOrdered(cast, model);
    ExecuteSolves(ops, folded.nodes, InitialEnv(folded.initializers) + feeds, Given(folded));
  }

  lemma NotFed(model: Model, feeds: Env, node: Node)
    requires ValidModel(model) && FeedsFor(model, feeds) && node in model.nodes && node.outputs != []
    ensures node.outputs[0] != "" && node.outputs[0] !in feeds
  {
    var k :| 0 <= k < |model.nodes| && model.nodes[k] == node;
    InOuts(model.nodes, node.outputs[0]);
  }

  /** The condition is exact: a folded value that is still used is the original one for all feeds if and only if
      its weight cannot be fed, for any conversion that is not constant. */
  lemma FoldedValueIff(ops: Ops, cast: Tensor -> Tensor, model: Model, node: Node, other: Tensor)
    requires Arities(ops) && ValidModel(model) && CastMeans(ops, cast, Names(model.initializers))
    requires node in model.nodes && Foldable(node, Names(model.initializers))
    requires node.outputs[0] in UsedNames(Materialized(cast, model).nodes, model)
    requires cast(other) != cast(InitialEnv(model.initializers)[node.inputs[0]])
    ensures (forall feeds: Env :: FeedsFor(model, feeds) ==>
               Arg(Run(ops, Materialized(cast, model), feeds), node.outputs[0])
                 == Arg(Run(ops, model, feeds), node.outputs[0]))
       <==> node.inputs[0] !in model.inputs
  {
    forall feeds: Env | FeedsFor(model, feeds)
      ensures Arg(Run(ops, Materialized(cast, model), feeds), node.outputs[0])
          == Arg(Run(ops, model, feeds), node.outputs[0])
         <==> cast(Supplied(model, feeds, node.inputs[0])) == cast(InitialEnv(model.initializers)[node.inputs[0]])
    {
      OriginalValue(ops, cast, model, feeds, node);
      FoldedRunValue(ops, cast, model, feeds, node);
    }
    if node.inputs[0] in model.inputs {
      assert FeedsFor(model, map[node.inputs[0] := other]);
    }
  }

  const WEIGHT := Node("Cast", ["w"], ["y"], [Attribute("to", FLOAT)])

  /** An initializer that is also a graph input is a default a feed may replace. Folding a cast of it keeps
      the default: the folded model then ignores the feed. */
  lemma OverridableWeightIsBakedIn(ops: Ops, cast: Tensor -> Tensor, default: Tensor, fed: Tensor)
    requires Arities(ops) && CastMeans(ops, cast, {"w"}) && cast(default) != cast(fed)
    ensures var model := Model([WEIGHT], [Initializer("w", default)], ["w"], ["y"]);
            var feeds := map["w" := fed];
            && ValidModel(model) && FeedsFor(model, feeds) && !WeightsFixed(model)
            && Arg(Run(ops, model, feeds), "y") == Some(cast(fed))
            && Arg(Run(ops, Materialized(cast, model), feeds), "y") == Some(cast(default))
  {
    var model := Model([WEIGHT], [Initializer("w", default)], ["w"], ["y"]);
    var feeds := map["w" := fed];
    WeightModel(model, default);
    assert FeedsFor(model, feeds) && "w" in model.inputs;
    assert "y" in model.outputs;
    OriginalValue(ops, cast, model, feeds, WEIGHT);
    FoldedRunValue(ops, cast, model, feeds, WEIGHT);
  }

  lemma WeightModel(model: Model, default: Tensor)
    requires model == Model([WEIGHT], [Initializer("w", default)], ["w"], ["y"])
    ensures ValidModel(model) && InitialEnv(model.initializers) == map["w" := default]
    ensures Foldable(WEIGHT, {"w"}) && WEIGHT in model.nodes && Names(model.initializers) == {"w"}
  {
    assert WEIGHT.attributes[0] in WEIGHT.attributes;
    assert model.nodes[..0] == [] && Outs(model.nodes) == {"y"};
    assert model.initializers[..0] == [];
    assert model.initializers[0] in model.initializers;
  }
}
