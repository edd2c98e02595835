/** Dependency graphs of tasks: paths, cycles, orders and layerings. */
module TaskGraph {
  /** A task id; the source uses strings and only compares them here. */
  type TaskId(==, !new)

  /** Each task with the tasks it depends on; a dependency outside the graph is no edge. */
  type Graph = map<TaskId, seq<TaskId>>

  predicate Edge(g: Graph, a: TaskId, b: TaskId) {
    a in g && b in g && b in g[a]
  }

  /** A chain of tasks, each depending on the next. */
  predicate IsPath(g: Graph, p: seq<TaskId>) {
    && p != []
    && (forall i :: 0 <= i < |p| ==> p[i] in g)
    && forall i :: 0 <= i < |p| - 1 ==> Edge(g, p[i], p[i + 1])
  }

  ghost predicate HasCycle(g: Graph) {
    exists p :: IsPath(g, p) && |p| >= 2 && p[0] == p[|p| - 1]
  }

  lemma PathTail(g: Graph, p: seq<TaskId>)
    requires IsPath(g, p) && |p| >= 2
    ensures IsPath(g, p[1..]) && Edge(g, p[0], p[1])
  {}

  lemma PathCons(g: Graph, a: TaskId, p: seq<TaskId>)
    requires IsPath(g, p) && Edge(g, a, p[0])
    ensures IsPath(g, [a] + p)
  {}

  // ----- orders

  /** In `f`, every task comes after the tasks it depends on. */
  ghost predicate Ordered(g: Graph, f: seq<TaskId>) {
    forall i, d :: 0 <= i < |f| && Edge(g, f[i], d) ==> d in f[..i]
  }

  /** Along a path, positions in an order go down. */
  lemma {:induction false} PathDescends(g: Graph, f: seq<TaskId>, p: seq<TaskId>, j: nat)
    requires Ordered(g, f) && IsPath(g, p) && j < |f| && f[j] == p[0]
    ensures |p| >= 2 ==> p[|p| - 1] in f[..j]
    decreases |p|
  {
    if |p| >= 2 {
      PathTail(g, p);
      var k :| 0 <= k < j && f[k] == p[1];
      PathDescends(g, f, p[1..], k);
      assert p[1..][|p| - 2] == p[|p| - 1];
      if |p| > 2 {
        var m :| 0 <= m < k && f[m] == p[|p| - 1];
        assert f[..j][m] == p[|p| - 1];
      }
    }
  }

  /** No path leads from a task of an order back to it. */
  lemma {:induction false} NoWayBack(g: Graph, f: seq<TaskId>, p: seq<TaskId>, j: nat)
    requires Ordered(g, f) && IsPath(g, p) && |p| >= 2 && p[0] == p[|p| - 1] && j < |f| && f[j] == p[0]
    ensures false
    decreases j
  {
    PathDescends(g, f, p, j);
    var k :| 0 <= k < j && f[k] == p[0];
    NoWayBack(g, f, p, k);
  }

  lemma OrderedHasNoCycle(g: Graph, f: seq<TaskId>)
    requires Ordered(g, f) && forall t :: t in g ==> t in f
    ensures !HasCycle(g)
  {
    if HasCycle(g) {
      var p :| IsPath(g, p) && |p| >= 2 && p[0] == p[|p| - 1];
      assert p[0] in g;
      var j :| 0 <= j < |f| && f[j] == p[0];
      NoWayBack(g, f, p, j);
    }
  }

  // ----- stacks of a depth-first search

  /** The path from the root of the search to the task under visit; the next task hangs off its end. */
  predicate OnTop(g: Graph, stack: seq<TaskId>, t: TaskId) {
    stack == [] || (IsPath(g, stack) && Edge(g, stack[|stack| - 1], t))
  }

  lemma PushKeepsPath(g: Graph, stack: seq<TaskId>, t: TaskId)
    requires OnTop(g, stack, t) && t in g
    ensures IsPath(g, stack + [t])
  {}

  /** An edge from the top of the stack back into it closes a cycle. */
  lemma BackEdgeIsCycle(g: Graph, stack: seq<TaskId>, t: TaskId)
    requires OnTop(g, stack, t) && t in stack && t in g
    ensures HasCycle(g)
  {
    PushKeepsPath(g, stack, t);
    var k :| 0 <= k < |stack| && stack[k] == t;
    var p := (stack + [t])[k..];
    forall i | 0 <= i < |p| - 1 ensures Edge(g, p[i], p[i + 1]) {
      assert Edge(g, (stack + [t])[k + i], (stack + [t])[k + i + 1]);
    }
    assert IsPath(g, p) && |p| >= 2 && p[0] == p[|p| - 1];
  }

  // ----- longest chains and layerings

  /** The longest dependency chain below `t` has `w` edges. */
  ghost predicate LongestChain(g: Graph, t: TaskId, w: nat) {
    && (exists p :: IsPath(g, p) && p[0] == t && |p| == w + 1)
    && (forall p :: IsPath(g, p) && p[0] == t ==> |p| <= w + 1)
  }

  lemma LongestChainUnique(g: Graph, t: TaskId, v: nat, w: nat)
    requires LongestChain(g, t, v) && LongestChain(g, t, w)
    ensures v == w
  {
    var p :| IsPath(g, p) && p[0] == t && |p| == v + 1;
    var q :| IsPath(g, q) && q[0] == t && |q| == w + 1;
  }

  lemma DependencyIsLower(g: Graph, a: TaskId, b: TaskId, v: nat, w: nat)
    requires Edge(g, a, b) && LongestChain(g, a, v) && LongestChain(g, b, w)
    ensures w < v
  {
    var p :| IsPath(g, p) && p[0] == b && |p| == w + 1;
    PathCons(g, a, p);
    assert ([a] + p)[0] == a;
  }

  /** Below a task with a chain of `w` edges there is one with exactly `w - 1`. */
  lemma SomeDependencyIsNext(g: Graph, t: TaskId, w: nat) returns (d: TaskId)
    requires LongestChain(g, t, w) && w > 0
    ensures Edge(g, t, d) && LongestChain(g, d, w - 1)
  {
    var p :| IsPath(g, p) && p[0] == t && |p| == w + 1;
    PathTail(g, p);
    d := p[1];
    assert IsPath(g, p[1..]) && p[1..][0] == d && |p[1..]| == w;
    forall q | IsPath(g, q) && q[0] == d ensures |q| <= w {
      PathCons(g, t, q);
      assert ([t] + q)[0] == t;
    }
  }

  /** A layering puts every task strictly above the tasks it depends on. */
  ghost predicate Layering(g: Graph, layer: map<TaskId, nat>) {
    && (forall t :: t in g ==> t in layer)
    && forall a, b :: Edge(g, a, b) ==> layer[b] < layer[a]
  }

  lemma {:induction false} LayerAtLeastPath(g: Graph, layer: map<TaskId, nat>, p: seq<TaskId>)
    requires Layering(g, layer) && IsPath(g, p)
    ensures p[0] in layer && layer[p[0]] >= |p| - 1
    decreases |p|
  {
    assert p[0] in g;
    if |p| >= 2 {
      PathTail(g, p);
      LayerAtLeastPath(g, layer, p[1..]);
    }
  }

  /** No layering puts a task lower than its longest chain. */
  lemma LongestChainIsMinimal(g: Graph, layer: map<TaskId, nat>, t: TaskId, w: nat)
    requires Layering(g, layer) && LongestChain(g, t, w)
    ensures t in layer && layer[t] >= w
  {
    var p :| IsPath(g, p) && p[0] == t && |p| == w + 1;
    LayerAtLeastPath(g, layer, p);
  }
}
