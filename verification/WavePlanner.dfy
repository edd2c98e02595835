/** Layering of an acyclic dependency graph into waves by the longest chain below each task. */
module WavePlanner {
  import opened TaskGraph

  type WaveMap = map<TaskId, nat>

  /** Every wave computed so far is the length of the task's longest chain. */
  ghost predicate Correct(g: Graph, waveMap: WaveMap) {
    forall t :: t in waveMap ==> t in g && LongestChain(g, t, waveMap[t])
  }

  ghost predicate Extends(before: WaveMap, after: WaveMap) {
    forall t :: t in before ==> t in after && after[t] == before[t]
  }

  /** One above the highest of the first dependencies' waves; -1 is below every wave. */
  ghost predicate HighestOf(g: Graph, waveMap: WaveMap, deps: seq<TaskId>, highest: int) {
    && -1 <= highest
    && (forall d :: d in deps && d in g ==> d in waveMap && waveMap[d] <= highest)
    && (highest >= 0 ==> exists d :: d in deps && d in waveMap && waveMap[d] == highest)
  }

  lemma OneAboveHighest(g: Graph, waveMap: WaveMap, inserted: seq<TaskId>, t: TaskId, highest: int)
    requires t in g && Book(g, waveMap, inserted) && HighestOf(g, waveMap, g[t], highest)
    ensures LongestChain(g, t, highest + 1)
  {
    if highest >= 0 {
      var d :| d in g[t] && d in waveMap && waveMap[d] == highest;
      assert LongestChain(g, d, waveMap[d]);
      var p :| IsPath(g, p) && p[0] == d && |p| == highest + 1;
      assert Edge(g, t, d);
      PathCons(g, t, p);
      assert ([t] + p)[0] == t && |[t] + p| == highest + 2;
    } else {
      assert IsPath(g, [t]) && [t][0] == t;
    }
    forall p | IsPath(g, p) && p[0] == t ensures |p| <= highest + 2 {
      if |p| >= 2 {
        PathTail(g, p);
        assert LongestChain(g, p[1], waveMap[p[1]]);
        assert p[1..][0] == p[1];
      }
    }
  }

  ghost predicate NoDuplicates(s: seq<TaskId>) {
    forall i, j :: 0 <= i < j < |s| ==> s[i] != s[j]
  }

  /** `inserted` lists the keys of `waveMap` in insertion order. */
  ghost predicate Book(g: Graph, waveMap: WaveMap, inserted: seq<TaskId>) {
    Correct(g, waveMap) && NoDuplicates(inserted) && forall t :: t in inserted <==> t in waveMap
  }

  lemma BookSays(g: Graph, waveMap: WaveMap, inserted: seq<TaskId>, t: TaskId)
    requires Book(g, waveMap, inserted) && t in waveMap
    ensures LongestChain(g, t, waveMap[t])
  {}

  lemma BookGrows(g: Graph, waveMap: WaveMap, inserted: seq<TaskId>, t: TaskId, wave: nat)
    requires Book(g, waveMap, inserted) && t in g && t !in waveMap && LongestChain(g, t, wave)
    ensures Book(g, waveMap[t := wave], inserted + [t])
  {}

  /** Whatever was visited is computed, or still under visit on the stack. */
  ghost predicate Tracked(visited: set<TaskId>, waveMap: WaveMap, stack: seq<TaskId>) {
    forall t :: t in visited ==> t in waveMap || t in stack
  }

  lemma TrackedPush(visited: set<TaskId>, waveMap: WaveMap, stack: seq<TaskId>, t: TaskId)
    requires Tracked(visited, waveMap, stack)
    ensures Tracked(visited + {t}, waveMap, stack + [t])
  {}

  lemma TrackedPop(visited: set<TaskId>, waveMap: WaveMap, stack: seq<TaskId>, t: TaskId)
    requires Tracked(visited, waveMap, stack + [t]) && t in waveMap
    ensures Tracked(visited, waveMap, stack)
  {}

  /** Nothing on the stack was computed in between. */
  ghost predicate Untouched(stack: seq<TaskId>, before: WaveMap, after: WaveMap) {
    forall t :: t in stack && t in after ==> t in before
  }

  lemma Chained(stack: seq<TaskId>, first: WaveMap, second: WaveMap, third: WaveMap)
    requires Extends(first, second) && Untouched(stack, first, second)
    requires Extends(second, third) && Untouched(stack, second, third)
    ensures Extends(first, third) && Untouched(stack, first, third)
  {}

  class Planner {
    const pending: Graph
    var waveMap: WaveMap
    var inserted: seq<TaskId>     // the keys of `waveMap`, as the dictionary remembers them
    var visited: set<TaskId>

    constructor (pending: Graph)
      ensures this.pending == pending && waveMap == map[] && inserted == [] && visited == {}
    {
      this.pending := pending;
      waveMap := map[];
      inserted := [];
      visited := {};
    }

    /**
     The wave of a task. The source answers 0 for a task visited but not computed; in an acyclic
     graph there is none, as the assertion below says.
     */
    method GetWave(taskId: TaskId, ghost stack: seq<TaskId>) returns (wave: nat)
      requires Book(pending, waveMap, inserted) && !HasCycle(pending) && taskId in pending
      requires OnTop(pending, stack, taskId) && Tracked(visited, waveMap, stack)
      modifies this
      ensures Book(pending, waveMap, inserted) && Tracked(visited, waveMap, stack)
      ensures Extends(old(waveMap), waveMap) && Untouched(stack, old(waveMap), waveMap) && old(visited) <= visited
      ensures taskId in waveMap && waveMap[taskId] == wave && LongestChain(pending, taskId, wave)
      decreases pending.Keys - visited, 0
    {
      hide LongestChain, IsPath, Book, HighestOf, OnTop;
      if taskId in waveMap {
        BookSays(pending, waveMap, inserted, taskId);
        return waveMap[taskId];
      }
      if taskId in stack {
        BackEdgeIsCycle(pending, stack, taskId);
      }
      assert taskId !in visited;
      TrackedPush(visited, waveMap, stack, taskId);
      PushKeepsPath(pending, stack, taskId);
      ghost var path := stack + [taskId];
      assert taskId in path;
      visited := visited + {taskId};
      assert taskId in pending.Keys;
      var dependencies := pending[taskId];
      wave := 0;
      if dependencies == [] {
        NothingAbove(pending, waveMap, []);
        OneAboveHighest(pending, waveMap, inserted, taskId, -1);
      } else {
        wave := OneAboveDependencies(taskId, path);
      }
      BookGrows(pending, waveMap, inserted, taskId, wave);
      waveMap := waveMap[taskId := wave];
      inserted := inserted + [taskId];
      TrackedPop(visited, waveMap, stack, taskId);
    }

    /** The loop over a task's dependencies. */
    method OneAboveDependencies(taskId: TaskId, ghost path: seq<TaskId>) returns (wave: nat)
      requires Book(pending, waveMap, inserted) && !HasCycle(pending) && taskId in pending
      requires path != [] && IsPath(pending, path) && path[|path| - 1] == taskId && Tracked(visited, waveMap, path)
      modifies this
      ensures Book(pending, waveMap, inserted) && Tracked(visited, waveMap, path)
      ensures Extends(old(waveMap), waveMap) && Untouched(path, old(waveMap), waveMap) && old(visited) <= visited
      ensures LongestChain(pending, taskId, wave)
      decreases pending.Keys - visited, 1
    {
      hide LongestChain, IsPath, Book, HighestOf, Tracked;
      Chained(path, waveMap, waveMap, waveMap);
      hide Extends, Untouched;
      var dependencies := pending[taskId];
      var maxDepWave: int := -1;
      var i: nat := 0;
      NothingAbove(pending, waveMap, dependencies[..0]);
      while i < |dependencies|
        invariant i <= |dependencies| && maxDepWave >= -1
        invariant Book(pending, waveMap, inserted) && Tracked(visited, waveMap, path)
        invariant Extends(old(waveMap), waveMap) && Untouched(path, old(waveMap), waveMap) && old(visited) <= visited
        invariant HighestOf(pending, waveMap, dependencies[..i], maxDepWave)
      {
        var dep := dependencies[i];
        ghost var before := waveMap;
        var depWave: int := -1;
        if dep in pending {
          assert Edge(pending, taskId, dep) && OnTop(pending, path, dep);
          assert pending.Keys - visited <= pending.Keys - old(visited);
          depWave := GetWave(dep, path);
          Chained(path, old(waveMap), before, waveMap);
        }
        ExtendsItself(before);
        HigherDependency(pending, before, waveMap, dependencies[..i], dep, maxDepWave);
        if depWave > maxDepWave {
          maxDepWave := depWave;
        }
        assert dependencies[..i + 1] == dependencies[..i] + [dep];
        i := i + 1;
      }
      assert dependencies[..i] == dependencies;
      OneAboveHighest(pending, waveMap, inserted, taskId, maxDepWave);
      wave := maxDepWave + 1;
    }

    /** `_calculate_waves`, up to the order within a wave; `order` is the dictionary's iteration order. */
    method CalculateWaves(order: seq<TaskId>) returns (waves: seq<seq<TaskId>>)
      requires waveMap == map[] && inserted == [] && !HasCycle(pending)
      requires forall t :: t in pending <==> t in order
      modifies this
      ensures IsWavePlan(pending, waves)
    {
      hide LongestChain, HasCycle;
      var i: nat := 0;
      while i < |order|
        invariant i <= |order| && Book(pending, waveMap, inserted)
        invariant forall k :: 0 <= k < i ==> order[k] in waveMap
      {
        visited := {};
        var wave := GetWave(order[i], []);
        i := i + 1;
      }
      var wavesDict, maxWave := GroupByWave(waveMap, inserted);
      waves := ListWaves(wavesDict, maxWave);
      GroupsArePlan(pending, waveMap, inserted, waves);
    }
  }

  method ListWaves(wavesDict: map<nat, seq<TaskId>>, maxWave: int) returns (waves: seq<seq<TaskId>>)
    requires maxWave >= -1
    ensures |waves| == maxWave + 1
    ensures forall w: nat :: w < |waves| ==> waves[w] == Group(wavesDict, w)
  {
    waves := [];
    for w := 0 to maxWave + 1
      invariant |waves| == w
      invariant forall v :: 0 <= v < w ==> waves[v] == Group(wavesDict, v)
    {
      waves := waves + [Group(wavesDict, w)];
    }
  }

  lemma ExtendsItself(waveMap: WaveMap)
    ensures Extends(waveMap, waveMap)
  {}

  lemma NothingAbove(g: Graph, waveMap: WaveMap, deps: seq<TaskId>)
    requires deps == []
    ensures HighestOf(g, waveMap, deps, -1)
  {}

  lemma HigherDependency(g: Graph, before: WaveMap, after: WaveMap, deps: seq<TaskId>, dep: TaskId, highest: int)
    requires HighestOf(g, before, deps, highest) && Extends(before, after)
    requires dep in g ==> dep in after
    ensures HighestOf(g, after, deps + [dep], if dep in g && after[dep] > highest then after[dep] else highest)
  {
    assert dep in deps + [dep];
    if highest >= 0 {
      var d :| d in deps && d in before && before[d] == highest;
      assert d in deps + [dep] && after[d] == highest;
    }
  }

  /** The tasks of one wave, in insertion order. */
  function Members(waveMap: WaveMap, inserted: seq<TaskId>, w: nat): (r: seq<TaskId>)
    ensures forall t :: t in r <==> t in inserted && t in waveMap && waveMap[t] == w
  {
    if inserted == [] then []
    else
      var front := Members(waveMap, inserted[..|inserted| - 1], w);
      var t := inserted[|inserted| - 1];
      if t in waveMap && waveMap[t] == w then front + [t] else front
  }

  function Group(groups: map<nat, seq<TaskId>>, w: nat): seq<TaskId> {
    if w in groups then groups[w] else []
  }

  ghost predicate Grouped(groups: map<nat, seq<TaskId>>, waveMap: WaveMap, inserted: seq<TaskId>) {
    forall w: nat :: Group(groups, w) == Members(waveMap, inserted, w)
  }

  lemma GroupedStep(groups: map<nat, seq<TaskId>>, waveMap: WaveMap, front: seq<TaskId>, t: TaskId)
    requires Grouped(groups, waveMap, front) && t in waveMap
    ensures Grouped(groups[waveMap[t] := Group(groups, waveMap[t]) + [t]], waveMap, front + [t])
  {
    var all := front + [t];
    var groups1 := groups[waveMap[t] := Group(groups, waveMap[t]) + [t]];
    assert all[..|all| - 1] == front && all[|all| - 1] == t;
    forall w: nat ensures Group(groups1, w) == Members(waveMap, all, w) {
      assert Group(groups, w) == Members(waveMap, front, w);
    }
  }

  /** The highest wave among the tasks inserted so far, -1 if there is none. */
  ghost predicate Highest(waveMap: WaveMap, inserted: seq<TaskId>, m: int) {
    && m >= -1
    && (forall t :: t in inserted ==> t in waveMap && waveMap[t] <= m)
    && (m >= 0 ==> exists t :: t in inserted && t in waveMap && waveMap[t] == m)
  }

  lemma HighestStep(waveMap: WaveMap, front: seq<TaskId>, t: TaskId, m: int)
    requires Highest(waveMap, front, m) && t in waveMap
    ensures Highest(waveMap, front + [t], if waveMap[t] > m then waveMap[t] else m)
  {
    assert t in front + [t];
    if m >= 0 {
      var s :| s in front && s in waveMap && waveMap[s] == m;
      assert s in front + [t];
    }
  }

  lemma NothingGrouped(waveMap: WaveMap, inserted: seq<TaskId>)
    ensures Grouped(map[], waveMap, inserted[..0]) && Highest(waveMap, inserted[..0], -1)
  {}

  method GroupByWave(waveMap: WaveMap, inserted: seq<TaskId>) returns (groups: map<nat, seq<TaskId>>, maxWave: int)
    requires forall t :: t in inserted ==> t in waveMap
    ensures Grouped(groups, waveMap, inserted) && Highest(waveMap, inserted, maxWave)
  {
    hide Grouped, Highest, Members;
    groups, maxWave := map[], -1;
    var i: nat := 0;
    NothingGrouped(waveMap, inserted);
    while i < |inserted|
      invariant i <= |inserted|
      invariant Grouped(groups, waveMap, inserted[..i]) && Highest(waveMap, inserted[..i], maxWave)
    {
      var t := inserted[i];
      GroupedStep(groups, waveMap, inserted[..i], t);
      HighestStep(waveMap, inserted[..i], t, maxWave);
      assert inserted[..i + 1] == inserted[..i] + [t];
      groups := groups[waveMap[t] := Group(groups, waveMap[t]) + [t]];
      if waveMap[t] > maxWave {
        maxWave := waveMap[t];
      }
      i := i + 1;
    }
    assert inserted[..i] == inserted;
  }

  /**
   Every task is in exactly one wave, once: the one whose number is the length of its longest
   dependency chain; and no wave is empty.
   */
  ghost predicate IsWavePlan(g: Graph, waves: seq<seq<TaskId>>) {
    && (forall w, t :: 0 <= w < |waves| ==> (t in waves[w] <==> t in g && LongestChain(g, t, w)))
    && (forall t :: t in g ==> exists w :: 0 <= w < |waves| && t in waves[w])
    && (forall w :: 0 <= w < |waves| ==> waves[w] != [] && NoDuplicates(waves[w]))
  }

  lemma {:induction false} MembersDistinct(waveMap: WaveMap, inserted: seq<TaskId>, w: nat)
    requires NoDuplicates(inserted)
    ensures NoDuplicates(Members(waveMap, inserted, w))
  {
    if inserted != [] {
      var n := |inserted| - 1;
      assert inserted[n] !in inserted[..n];
      MembersDistinct(waveMap, inserted[..n], w);
    }
  }

  /** Below a task there are tasks on every lower wave. */
  lemma {:induction false} LowerWavesInhabited(g: Graph, t: TaskId, w: nat, v: nat) returns (u: TaskId)
    requires t in g && LongestChain(g, t, w) && v <= w
    ensures u in g && LongestChain(g, u, v)
    decreases w
  {
    u := t;
    if v < w {
      var d := SomeDependencyIsNext(g, t, w);
      u := LowerWavesInhabited(g, d, w - 1, v);
    }
  }

  lemma GroupsArePlan(g: Graph, waveMap: WaveMap, inserted: seq<TaskId>, waves: seq<seq<TaskId>>)
    requires Book(g, waveMap, inserted)
    requires forall t :: t in g ==> t in waveMap
    requires forall w: nat :: w < |waves| ==> waves[w] == Members(waveMap, inserted, w)
    requires Highest(waveMap, inserted, |waves| - 1)
    ensures IsWavePlan(g, waves)
  {
    hide LongestChain, NoDuplicates;
    forall w, t | 0 <= w < |waves|
      ensures t in waves[w] <==> t in g && LongestChain(g, t, w)
    {
      if t in g && LongestChain(g, t, w) {
        LongestChainUnique(g, t, w, waveMap[t]);
      }
    }
    forall t | t in g ensures exists w :: 0 <= w < |waves| && t in waves[w] {
      assert t in waves[waveMap[t]];
    }
    forall w | 0 <= w < |waves| ensures waves[w] != [] && NoDuplicates(waves[w]) {
      MembersDistinct(waveMap, inserted, w);
      var top :| top in inserted && top in waveMap && waveMap[top] == |waves| - 1;
      WaveInhabited(g, waveMap, inserted, top, w);
    }
  }

  lemma WaveInhabited(g: Graph, waveMap: WaveMap, inserted: seq<TaskId>, top: TaskId, w: nat)
    requires Book(g, waveMap, inserted) && (forall t :: t in g ==> t in waveMap)
    requires top in waveMap && w <= waveMap[top]
    ensures Members(waveMap, inserted, w) != []
  {
    hide LongestChain, NoDuplicates;
    var u := LowerWavesInhabited(g, top, waveMap[top], w);
    LongestChainUnique(g, u, w, waveMap[u]);
    assert u in Members(waveMap, inserted, w);
  }

  // ----- what a plan is for

  /** A task's dependencies are in strictly earlier waves. */
  lemma DependenciesComeEarlier(g: Graph, waves: seq<seq<TaskId>>, a: TaskId, b: TaskId, v: nat, w: nat)
    requires IsWavePlan(g, waves) && Edge(g, a, b)
    requires v < |waves| && w < |waves| && a in waves[v] && b in waves[w]
    ensures w < v
  {
    DependencyIsLower(g, a, b, v, w);
  }

  /** No way of layering the graph needs fewer waves. */
  lemma PlanIsMinimal(g: Graph, waves: seq<seq<TaskId>>, layer: map<TaskId, nat>)
    requires IsWavePlan(g, waves) && Layering(g, layer)
    ensures forall w, t :: 0 <= w < |waves| && t in waves[w] ==> t in layer && w <= layer[t]
    ensures waves != [] ==> exists t :: t in g && t in layer && layer[t] >= |waves| - 1
  {
    hide LongestChain;
    forall w, t | 0 <= w < |waves| && t in waves[w] ensures t in layer && w <= layer[t] {
      LongestChainIsMinimal(g, layer, t, w);
    }
    if waves != [] {
      var last := waves[|waves| - 1];
      var t := last[0];
      assert t in last;
      assert t in g && t in layer && layer[t] >= |waves| - 1;
    }
  }
}
