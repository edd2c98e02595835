/** Depth-first search with three colours. */
module CycleDetector {
  import opened TaskGraph

  datatype Color = WHITE | GRAY | BLACK

  type Coloring = map<TaskId, Color>

  ghost function Whites(color: Coloring): set<TaskId> {
    set t | t in color && color[t] == WHITE
  }

  /**
   Gray is the stack, black is finished, and what is finished depends only on what was finished
   before it.
   */
  ghost predicate Consistent(g: Graph, color: Coloring, finished: seq<TaskId>, stack: seq<TaskId>) {
    && color.Keys == g.Keys
    && (forall t :: t in color ==> (color[t] == GRAY <==> t in stack))
    && (forall t :: t in color ==> (color[t] == BLACK <==> t in finished))
    && (forall t :: t in finished ==> t in g)
    && Ordered(g, finished)
  }

  lemma TurnGray(g: Graph, color: Coloring, finished: seq<TaskId>, stack: seq<TaskId>, t: TaskId)
    requires Consistent(g, color, finished, stack) && t in g && color[t] == WHITE
    ensures Consistent(g, color[t := GRAY], finished, stack + [t]) && t !in stack
    ensures Whites(color[t := GRAY]) < Whites(color)
  {
    assert t in Whites(color) && t !in Whites(color[t := GRAY]);
  }

  lemma TurnBlack(g: Graph, color: Coloring, finished: seq<TaskId>, stack: seq<TaskId>, t: TaskId)
    requires Consistent(g, color, finished, stack + [t]) && t in g && t !in stack
    requires forall d :: d in g[t] && d in g ==> color[d] == BLACK
    ensures Consistent(g, color[t := BLACK], finished + [t], stack)
    ensures Whites(color[t := BLACK]) == Whites(color)
  {
    InBoth(stack, t);
    InBoth(finished, t);
    assert forall d :: Edge(g, t, d) ==> d in finished;
    OrderedExtends(g, finished, t);
    hide Ordered, Edge;
  }

  lemma InBoth(s: seq<TaskId>, t: TaskId)
    ensures forall x :: x in s + [t] <==> x in s || x == t
  {}

  lemma OrderedExtends(g: Graph, f: seq<TaskId>, t: TaskId)
    requires Ordered(g, f) && forall d :: Edge(g, t, d) ==> d in f
    ensures Ordered(g, f + [t])
  {
    var h := f + [t];
    forall i, d | 0 <= i < |h| && Edge(g, h[i], d) ensures d in h[..i] {
      if i < |f| {
        assert d in f[..i] && h[..i] == f[..i];
      } else {
        assert h[..i] == f;
      }
    }
  }

  ghost predicate StaysBlack(before: Coloring, after: Coloring) {
    forall t :: t in before && before[t] == BLACK ==> t in after && after[t] == BLACK
  }

  class Detector {
    const tasks: Graph
    var color: Coloring
    ghost var finished: seq<TaskId>   // the black tasks, in the order they turned black

    constructor (tasks: Graph)
      ensures this.tasks == tasks
    {
      this.tasks := tasks;
      color := map[];
      finished := [];
    }

    method Dfs(taskId: TaskId, ghost stack: seq<TaskId>) returns (cyclic: bool)
      requires Consistent(tasks, color, finished, stack)
      requires taskId in tasks && taskId in color && color[taskId] == WHITE
      requires OnTop(tasks, stack, taskId)
      modifies this
      ensures cyclic ==> HasCycle(tasks)
      ensures !cyclic ==> Consistent(tasks, color, finished, stack) && Whites(color) < Whites(old(color))
      ensures !cyclic ==> taskId in color && color[taskId] == BLACK && StaysBlack(old(color), color)
      decreases Whites(color)
    {
      hide Ordered, Whites, IsPath;
      TurnGray(tasks, color, finished, stack, taskId);
      PushKeepsPath(tasks, stack, taskId);
      color := color[taskId := GRAY];
      ghost var path := stack + [taskId];
      var deps := tasks[taskId];
      var i: nat := 0;
      while i < |deps|
        invariant i <= |deps|
        invariant Consistent(tasks, color, finished, path) && Whites(color) < Whites(old(color))
        invariant StaysBlack(old(color), color)
        invariant forall k :: 0 <= k < i && deps[k] in tasks ==> color[deps[k]] == BLACK
      {
        var dep := deps[i];
        if dep in color {
          assert Edge(tasks, taskId, dep) && OnTop(tasks, path, dep);
          if color[dep] == GRAY {
            BackEdgeIsCycle(tasks, path, dep);
            return true;
          }
          if color[dep] == WHITE {
            var found := Dfs(dep, path);
            if found {
              return true;
            }
          }
        }
        i := i + 1;
      }
      TurnBlack(tasks, color, finished, stack, taskId);
      color := color[taskId := BLACK];
      finished := finished + [taskId];
      cyclic := false;
    }

    /** `_has_cycle`: true if and only if the graph has a cycle. `order` is the dictionary's iteration order. */
    method FindCycle(order: seq<TaskId>) returns (cyclic: bool)
      requires forall t :: t in tasks <==> t in order
      modifies this
      ensures cyclic <==> HasCycle(tasks)
    {
      color := map t | t in tasks :: WHITE;
      finished := [];
      var i: nat := 0;
      while i < |order|
        invariant i <= |order|
        invariant Consistent(tasks, color, finished, [])
        invariant forall k :: 0 <= k < i ==> order[k] in color && color[order[k]] == BLACK
      {
        var taskId := order[i];
        if color[taskId] == WHITE {
          var found := Dfs(taskId, []);
          if found {
            return true;
          }
        }
        i := i + 1;
      }
      OrderedHasNoCycle(tasks, finished);
      cyclic := false;
    }
  }
}
