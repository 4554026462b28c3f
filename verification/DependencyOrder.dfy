/** Dependency graphs on indices: what a schedule is, what a cycle is, and that a finite graph
    has exactly one of the two. */
module DependencyOrder {
  import opened Lists

  /** deps[i] lists the predecessors of node i. */
  type Deps = seq<seq<nat>>

  ghost predicate WellFormed(deps: Deps) {
    forall i, k :: 0 <= i < |deps| && 0 <= k < |deps[i]| ==> deps[i][k] < |deps|
  }

  /** A permutation of all nodes in which every predecessor comes earlier. */
  ghost predicate Schedule(deps: Deps, order: seq<nat>) {
    && |order| == |deps|
    && NoDuplicates(order)
    && (forall p :: 0 <= p < |order| ==> order[p] < |deps|)
    && (forall p, d :: 0 <= p < |order| && d in deps[order[p]] ==> d in order[..p])
  }

  /** path[k+1] is a predecessor of path[k], and path[0] of the last. */
  ghost predicate Cycle(deps: Deps, path: seq<nat>) {
    && path != []
    && (forall k :: 0 <= k < |path| ==> path[k] < |deps|)
    && (forall k :: 0 <= k < |path| - 1 ==> path[k + 1] in deps[path[k]])
    && path[0] in deps[path[|path| - 1]]
  }

  ghost predicate Acyclic(deps: Deps) {
    forall path :: !Cycle(deps, path)
  }

  lemma {:induction false} AllBelow(s: seq<nat>, n: nat)
    requires NoDuplicates(s) && forall i :: 0 <= i < |s| ==> s[i] < n
    ensures |s| <= n
    ensures |s| == n ==> forall x: nat :: x < n ==> x in s
  {
    var values := set i | 0 <= i < |s| :: s[i];
    var range := Below(n);
    DistinctSize(s, values);
    SubsetSize(values, range);
    if |s| == n {
      forall x: nat | x < n ensures x in s {
        if x !in s {
          assert values <= range - {x};
          SubsetSize(values, range - {x});
          assert false;
        }
      }
    }
  }

  lemma SubsetSize<T>(a: set<T>, b: set<T>)
    requires a <= b
    ensures |a| <= |b|
  {
    if a != {} {
      var x :| x in a;
      SubsetSize(a - {x}, b - {x});
    }
  }

  lemma {:induction false} DistinctSize(s: seq<nat>, values: set<nat>)
    requires NoDuplicates(s) && values == set i | 0 <= i < |s| :: s[i]
    ensures |values| == |s|
  {
    if s != [] {
      var last := s[|s| - 1];
      var front := s[..|s| - 1];
      var rest := set i | 0 <= i < |front| :: front[i];
      DistinctSize(front, rest);
      assert last !in rest;
      assert values == rest + {last};
    }
  }

  function Below(n: nat): (range: set<nat>)
    ensures |range| == n
    ensures forall x: nat :: x in range <==> x < n
  {
    if n == 0 then {} else Below(n - 1) + {n - 1}
  }

  /** A schedule covers every node. */
  lemma ScheduleCovers(deps: Deps, order: seq<nat>, i: nat) returns (p: nat)
    requires Schedule(deps, order) && i < |deps|
    ensures p < |order| && order[p] == i
  {
    AllBelow(order, |deps|);
    assert i in order;
    p :| 0 <= p < |order| && order[p] == i;
  }

  /** Along a cycle positions in a schedule would strictly decrease back to where they began. */
  lemma ScheduleRefutesCycles(deps: Deps, order: seq<nat>)
    requires Schedule(deps, order)
    ensures Acyclic(deps)
  {
    forall path | Cycle(deps, path) ensures false {
      var last := |path| - 1;
      var p := ScheduleCovers(deps, order, path[last]);
      assert path[0] in order[..p];
      var j :| 0 <= j < p && order[j] == path[0];
      var m := 0;
      while m < last
        invariant 0 <= m <= last && 0 <= j < p && order[j] == path[m]
      {
        assert path[m + 1] in order[..j];
        j :| 0 <= j < p && order[j] == path[m + 1];
        m := m + 1;
      }
      assert false;
    }
  }

  ghost predicate Blocked(deps: Deps, stuck: set<nat>, i: nat)
    requires i < |deps|
  {
    exists d :: d in deps[i] && d in stuck
  }

  /** Following predecessors inside a set for n steps. */
  lemma {:induction false} Walk(deps: Deps, stuck: set<nat>, start: nat, n: nat) returns (walk: seq<nat>)
    requires start in stuck
    requires forall i :: i in stuck ==> i < |deps| && Blocked(deps, stuck, i)
    ensures |walk| == n + 1
    ensures forall k :: 0 <= k < |walk| ==> walk[k] in stuck
    ensures forall k :: 0 <= k < |walk| - 1 ==> walk[k + 1] in deps[walk[k]]
  {
    if n == 0 {
      walk := [start];
    } else {
      var shorter := Walk(deps, stuck, start, n - 1);
      assert Blocked(deps, stuck, shorter[n - 1]);
      var d :| d in deps[shorter[n - 1]] && d in stuck;
      walk := shorter + [d];
    }
  }

  /** A nonempty set whose members all have a predecessor inside it contains a cycle. */
  lemma StuckHasCycle(deps: Deps, stuck: set<nat>, start: nat) returns (path: seq<nat>)
    requires start in stuck
    requires forall i :: i in stuck ==> i < |deps| && Blocked(deps, stuck, i)
    ensures Cycle(deps, path) && forall k :: 0 <= k < |path| ==> path[k] in stuck
  {
    var walk := Walk(deps, stuck, start, |deps|);
    var i, j := Repeats(walk, |deps|);
    path := walk[i..j];
    Loop(deps, walk, i, j);
  }

  lemma Repeats(walk: seq<nat>, n: nat) returns (i: nat, j: nat)
    requires |walk| > n && forall k :: 0 <= k < |walk| ==> walk[k] < n
    ensures i < j < |walk| && walk[i] == walk[j]
  {
    if NoDuplicates(walk) {
      AllBelow(walk, n);
      assert false;
    }
    i, j :| 0 <= i < j < |walk| && walk[i] == walk[j];
  }

  lemma Loop(deps: Deps, walk: seq<nat>, i: nat, j: nat)
    requires i < j < |walk| && walk[i] == walk[j]
    requires forall k :: 0 <= k < |walk| ==> walk[k] < |deps|
    requires forall k :: 0 <= k < |walk| - 1 ==> walk[k + 1] in deps[walk[k]]
    ensures Cycle(deps, walk[i..j])
  {
  }
}
