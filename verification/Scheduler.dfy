/** The task scheduler: analysis of the dependencies, and the monitor that starts tasks as slots open up. */
module Scheduler {
  import opened Options
  import opened TaskGraph
  import opened CycleDetector
  import opened WavePlanner

  datatype Status = Pending | Running | Completed | Failed | Stopped | Blocked

  datatype Task = Task(status: Status, dependencies: seq<TaskId>, isParentTask: bool, wave: int)

  type Tasks = map<TaskId, Task>

  // ----- analysis

  predicate Incomplete(tasks: Tasks, t: TaskId) {
    t in tasks && tasks[t].status != Completed
  }

  /** Dependencies on tasks that exist and are not completed. */
  function Remaining(tasks: Tasks, deps: seq<TaskId>): seq<TaskId> {
    if deps == [] then []
    else (if Incomplete(tasks, deps[0]) then [deps[0]] else []) + Remaining(tasks, deps[1..])
  }

  lemma {:induction false} RemainingHas(tasks: Tasks, deps: seq<TaskId>, d: TaskId)
    ensures d in Remaining(tasks, deps) <==> d in deps && Incomplete(tasks, d)
  {
    if deps != [] {
      RemainingHas(tasks, deps[1..], d);
    }
  }

  /** The tasks as `_validate_dependencies` leaves them: only incomplete tasks lose dependencies. */
  function Validated(tasks: Tasks): Tasks {
    map t | t in tasks ::
      if tasks[t].status != Completed then tasks[t].(dependencies := Remaining(tasks, tasks[t].dependencies)) else tasks[t]
  }

  lemma {:induction false} RemainingKeepsOrder(tasks: Tasks, deps: seq<TaskId>, d: TaskId)
    ensures Remaining(tasks, deps + [d]) == Remaining(tasks, deps) + (if d in tasks && tasks[d].status != Completed then [d] else [])
    decreases |deps|
  {
    if deps == [] {
      assert deps + [d] == [d] && [d][1..] == [];
    } else {
      assert (deps + [d])[1..] == deps[1..] + [d];
      RemainingKeepsOrder(tasks, deps[1..], d);
      var first := if Incomplete(tasks, deps[0]) then [deps[0]] else [];
      var last := if Incomplete(tasks, d) then [d] else [];
      hide Incomplete;
      assert first + (Remaining(tasks, deps[1..]) + last) == (first + Remaining(tasks, deps[1..])) + last;
    }
  }

  /** Validation drops, from the tasks not completed, the dependencies on tasks that do not exist or are completed, and nothing else. */
  lemma ValidatedKeeps(tasks: Tasks, t: TaskId)
    requires t in tasks
    ensures var r := Validated(tasks);
            && r.Keys == tasks.Keys && r[t] == tasks[t].(dependencies := r[t].dependencies)
            && (tasks[t].status == Completed ==> r[t] == tasks[t])
            && (tasks[t].status != Completed ==>
                  forall d :: d in r[t].dependencies <==> d in tasks[t].dependencies && d in tasks && tasks[d].status != Completed)
  {
    forall d ensures d in Remaining(tasks, tasks[t].dependencies) <==> d in tasks[t].dependencies && Incomplete(tasks, d) {
      RemainingHas(tasks, tasks[t].dependencies, d);
    }
  }

  /** The dependency graph of the incomplete tasks. */
  function PendingGraph(tasks: Tasks): Graph {
    map t | t in tasks && tasks[t].status != Completed :: Remaining(tasks, tasks[t].dependencies)
  }

  /** The wave a task is in, or else the number it has. */
  function WaveOrElse(waves: seq<seq<TaskId>>, t: TaskId, number: int): int {
    if waves == [] then number
    else if t in waves[|waves| - 1] then |waves| - 1
    else WaveOrElse(waves[..|waves| - 1], t, number)
  }

  /** The tasks, each planned one with the number of its wave. */
  function WithWaves(tasks: Tasks, waves: seq<seq<TaskId>>): Tasks {
    map t | t in tasks :: tasks[t].(wave := WaveOrElse(waves, t, tasks[t].wave))
  }

  /** Every task of a plan is given the number of the wave it is in. */
  lemma WavesAreNumbered(tasks: Tasks, waves: seq<seq<TaskId>>, t: TaskId, w: nat)
    requires IsWavePlan(PendingGraph(tasks), waves) && w < |waves| && t in waves[w]
    ensures var r := WithWaves(Validated(tasks), waves);
            t in r && r[t] == Validated(tasks)[t].(wave := w)
  {
    hide LongestChain;
    PlannedExist(tasks, waves);
    WaveIs(PendingGraph(tasks), waves, t, w, Validated(tasks)[t].wave);
  }

  lemma {:induction false} WaveIs(g: Graph, waves: seq<seq<TaskId>>, t: TaskId, w: nat, number: int)
    requires forall v, u :: 0 <= v < |waves| ==> (u in waves[v] <==> u in g && LongestChain(g, u, v))
    requires w < |waves| && t in waves[w]
    ensures WaveOrElse(waves, t, number) == w
    decreases |waves|
  {
    hide LongestChain;
    var last := |waves| - 1;
    assert LongestChain(g, t, w);
    if t in waves[last] {
      assert LongestChain(g, t, last);
      LongestChainUnique(g, t, w, last);
    } else {
      WaveIs(g, waves[..last], t, w, number);
    }
  }

  /** The source leaves the validated tasks behind even when it raises the error. */
  datatype Analysis = CircularDependency(tasks: Tasks) | Plan(tasks: Tasks, waves: seq<seq<TaskId>>)

  /**
   `analyze`: an error exactly when the incomplete tasks depend on each other in a circle,
   otherwise the validated tasks and their waves.
   */
  method Analyze(tasks: Tasks, order: seq<TaskId>) returns (r: Analysis)
    requires forall t :: t in tasks <==> t in order
    ensures r.CircularDependency? <==> HasCycle(PendingGraph(tasks))
    ensures r.CircularDependency? ==> r.tasks == Validated(tasks)
    ensures r.Plan? ==> r.tasks == WithWaves(Validated(tasks), r.waves) && IsWavePlan(PendingGraph(tasks), r.waves)
  {
    hide HasCycle, IsWavePlan;
    var pendingOrder := IncompleteInOrder(tasks, order);
    var validated := ValidateDependencies(tasks, pendingOrder);
    var graph := map t | t in tasks && tasks[t].status != Completed :: validated[t].dependencies;
    assert graph == PendingGraph(tasks);
    var detector := new Detector(graph);
    var cyclic := detector.FindCycle(pendingOrder);
    if cyclic {
      return CircularDependency(validated);
    }
    var planner := new Planner(graph);
    var waves := planner.CalculateWaves(pendingOrder);
    PlannedExist(tasks, waves);
    var numbered := AssignWaves(validated, waves);
    r := Plan(numbered, waves);
  }

  lemma PlannedExist(tasks: Tasks, waves: seq<seq<TaskId>>)
    requires IsWavePlan(PendingGraph(tasks), waves)
    ensures forall w, t :: 0 <= w < |waves| && t in waves[w] ==> t in tasks
  {
    hide LongestChain;
    forall w, t | 0 <= w < |waves| && t in waves[w] ensures t in tasks {
      assert t in PendingGraph(tasks);
    }
  }

  method AssignWaves(tasks: Tasks, waves: seq<seq<TaskId>>) returns (r: Tasks)
    requires forall w, t :: 0 <= w < |waves| && t in waves[w] ==> t in tasks
    ensures r == WithWaves(tasks, waves)
  {
    hide WithWaves;
    r := tasks;
    var w: nat := 0;
    NoWaves(tasks);
    while w < |waves|
      invariant w <= |waves| && r == WithWaves(tasks, waves[..w])
    {
      r := AssignWave(tasks, waves[..w], waves[w], r);
      assert waves[..w] + [waves[w]] == waves[..w + 1];
      w := w + 1;
    }
    assert waves[..w] == waves;
  }

  method AssignWave(ghost tasks: Tasks, front: seq<seq<TaskId>>, wave: seq<TaskId>, numbered: Tasks) returns (r: Tasks)
    requires numbered == WithWaves(tasks, front) && forall t :: t in wave ==> t in tasks
    ensures r == WithWaves(tasks, front + [wave])
  {
    hide WithWaves;
    r := numbered;
    var k: nat := 0;
    NoneOfWave(tasks, front);
    assert wave[..0] == [];
    while k < |wave|
      invariant k <= |wave| && r == WithWaves(tasks, front + [wave[..k]])
    {
      var t := wave[k];
      OneOfWave(tasks, front, wave[..k], t);
      assert wave[..k + 1] == wave[..k] + [t];
      r := r[t := r[t].(wave := |front|)];
      k := k + 1;
    }
    assert wave[..k] == wave;
  }

  lemma NoWaves(tasks: Tasks)
    ensures WithWaves(tasks, []) == tasks
  {}

  lemma NoneOfWave(tasks: Tasks, front: seq<seq<TaskId>>)
    ensures WithWaves(tasks, front + [[]]) == WithWaves(tasks, front)
  {
    assert (front + [[]])[..|front|] == front;
  }

  lemma OneOfWave(tasks: Tasks, front: seq<seq<TaskId>>, part: seq<TaskId>, t: TaskId)
    requires t in tasks
    ensures var before := WithWaves(tasks, front + [part]);
            t in before && WithWaves(tasks, front + [part + [t]]) == before[t := before[t].(wave := |front|)]
  {
    var before, after := front + [part], front + [part + [t]];
    assert before[..|front|] == front == after[..|front|];
    assert before[|front|] == part && after[|front|] == part + [t];
    forall u | u in tasks
      ensures WaveOrElse(after, u, tasks[u].wave) == if u == t then |front| else WaveOrElse(before, u, tasks[u].wave)
    {
    }
  }

  method IncompleteInOrder(tasks: Tasks, order: seq<TaskId>) returns (r: seq<TaskId>)
    requires forall t :: t in order ==> t in tasks
    ensures forall t :: t in r <==> t in order && Incomplete(tasks, t)
  {
    r := [];
    var i: nat := 0;
    while i < |order|
      invariant i <= |order|
      invariant forall t :: t in r <==> t in order[..i] && Incomplete(tasks, t)
    {
      if tasks[order[i]].status != Completed {
        r := r + [order[i]];
      }
      assert order[..i + 1] == order[..i] + [order[i]];
      i := i + 1;
    }
    assert order[..i] == order;
  }

  method ValidateDependencies(tasks: Tasks, pendingOrder: seq<TaskId>) returns (r: Tasks)
    requires forall t :: t in pendingOrder <==> Incomplete(tasks, t)
    ensures r == Validated(tasks)
  {
    r := tasks;
    var i: nat := 0;
    while i < |pendingOrder|
      invariant i <= |pendingOrder|
      invariant r.Keys == tasks.Keys
      invariant forall t :: t in tasks ==>
                  r[t] == if t in pendingOrder[..i] then tasks[t].(dependencies := Remaining(tasks, tasks[t].dependencies))
                          else tasks[t]
    {
      var t := pendingOrder[i];
      assert Incomplete(tasks, t);
      var validDeps := KeepValid(tasks, tasks[t].dependencies);
      r := r[t := r[t].(dependencies := validDeps)];
      assert pendingOrder[..i + 1] == pendingOrder[..i] + [t];
      i := i + 1;
    }
    assert pendingOrder[..i] == pendingOrder;
    forall t | t in tasks ensures r[t] == Validated(tasks)[t] {
      assert t in pendingOrder <==> Incomplete(tasks, t);
    }
  }

  lemma RemainingStep(tasks: Tasks, deps: seq<TaskId>, i: nat)
    requires i < |deps|
    ensures Remaining(tasks, deps[i..])
         == (if Incomplete(tasks, deps[i]) then [deps[i]] else []) + Remaining(tasks, deps[i + 1..])
  {
    assert deps[i..][1..] == deps[i + 1..];
  }

  lemma RemainingNone(tasks: Tasks, deps: seq<TaskId>)
    ensures Remaining(tasks, deps[|deps|..]) == []
  {}

  method KeepValid(tasks: Tasks, deps: seq<TaskId>) returns (r: seq<TaskId>)
    ensures r == Remaining(tasks, deps)
  {
    r := [];
    var i: nat := 0;
    assert deps[0..] == deps;
    RemainingNone(tasks, deps);
    hide Remaining, Incomplete;
    while i < |deps|
      invariant i <= |deps|
      invariant r + Remaining(tasks, deps[i..]) == Remaining(tasks, deps)
    {
      var dep := deps[i];
      RemainingStep(tasks, deps, i);
      ghost var later := Remaining(tasks, deps[i + 1..]);
      if Incomplete(tasks, dep) {
        assert r + ([dep] + later) == (r + [dep]) + later;
        r := r + [dep];
      } else {
        assert r + ([] + later) == r + later;
      }
      i := i + 1;
    }
    assert r + [] == r;
  }

  // ----- the monitor

  predicate DependenciesMet(tasks: Tasks, t: TaskId)
    requires t in tasks
  {
    forall d :: d in tasks[t].dependencies ==> d in tasks && tasks[d].status == Completed
  }

  /** A task the monitor may start. */
  predicate Eligible(tasks: Tasks, t: TaskId) {
    t in tasks && tasks[t].status == Pending && !tasks[t].isParentTask && DependenciesMet(tasks, t)
  }

  ghost function WithStatus(tasks: Tasks, status: Status): set<TaskId> {
    set t | t in tasks && tasks[t].status == status
  }

  predicate Planned(waves: seq<seq<TaskId>>, t: TaskId) {
    exists w, k :: 0 <= w < |waves| && 0 <= k < |waves[w]| && waves[w][k] == t
  }

  /** `t` is at place `k` of wave `w`, and nothing before it can be started. */
  ghost predicate FirstAt(waves: seq<seq<TaskId>>, tasks: Tasks, t: TaskId, w: nat, k: nat) {
    && w < |waves| && k < |waves[w]| && waves[w][k] == t
    && (forall v, j :: 0 <= v < w && 0 <= j < |waves[v]| ==> !Eligible(tasks, waves[v][j]))
    && (forall j :: 0 <= j < k ==> !Eligible(tasks, waves[w][j]))
  }

  /** The first task in wave order that can be started. */
  ghost predicate First(waves: seq<seq<TaskId>>, tasks: Tasks, t: TaskId) {
    Eligible(tasks, t) && exists w: nat, k: nat :: FirstAt(waves, tasks, t, w, k)
  }

  /** The plan as one list of tasks, wave after wave. */
  function InOneList(waves: seq<seq<TaskId>>): seq<TaskId> {
    if waves == [] then [] else waves[0] + InOneList(waves[1..])
  }

  /** The first task of the plan, read as one list, that is pending, no parent header, and has all its dependencies completed. */
  ghost predicate FirstInList(list: seq<TaskId>, tasks: Tasks, t: TaskId) {
    exists i :: 0 <= i < |list| && list[i] == t && Eligible(tasks, t) && forall j :: 0 <= j < i ==> !Eligible(tasks, list[j])
  }

  lemma PlaceInList(front: seq<TaskId>, rest: seq<TaskId>, tasks: Tasks, t: TaskId)
    ensures FirstInList(front + rest, tasks, t)
            <==> FirstInList(front, tasks, t) || ((forall j :: 0 <= j < |front| ==> !Eligible(tasks, front[j])) && FirstInList(rest, tasks, t))
  {
    hide Eligible;
    var list := front + rest;
    if FirstInList(front, tasks, t) {
      var i :| 0 <= i < |front| && front[i] == t && Eligible(tasks, t) && forall j :: 0 <= j < i ==> !Eligible(tasks, front[j]);
      assert list[i] == t;
    }
    if (forall j :: 0 <= j < |front| ==> !Eligible(tasks, front[j])) && FirstInList(rest, tasks, t) {
      var i :| 0 <= i < |rest| && rest[i] == t && Eligible(tasks, t) && forall j :: 0 <= j < i ==> !Eligible(tasks, rest[j]);
      assert list[|front| + i] == t;
      assert forall j :: 0 <= j < |front| + i ==> !Eligible(tasks, list[j]);
    }
    if FirstInList(list, tasks, t) {
      var i :| 0 <= i < |list| && list[i] == t && Eligible(tasks, t) && forall j :: 0 <= j < i ==> !Eligible(tasks, list[j]);
      if i < |front| {
        assert front[i] == t && forall j :: 0 <= j < i ==> front[j] == list[j];
      } else {
        assert rest[i - |front|] == t;
        forall j | 0 <= j < |front| ensures !Eligible(tasks, front[j]) { assert front[j] == list[j]; }
        forall j | 0 <= j < i - |front| ensures !Eligible(tasks, rest[j]) { assert rest[j] == list[|front| + j]; }
      }
    }
  }

  lemma FirstOfWaves(waves: seq<seq<TaskId>>, tasks: Tasks, t: TaskId)
    requires waves != []
    ensures First(waves, tasks, t)
            <==> FirstInList(waves[0], tasks, t)
                 || ((forall j :: 0 <= j < |waves[0]| ==> !Eligible(tasks, waves[0][j])) && First(waves[1..], tasks, t))
  {
    hide Eligible;
    if First(waves, tasks, t) {
      var w: nat, k: nat :| FirstAt(waves, tasks, t, w, k);
      if w == 0 {
        assert waves[0][k] == t;
      } else {
        assert FirstAt(waves[1..], tasks, t, w - 1, k);
      }
    }
    if FirstInList(waves[0], tasks, t) {
      var i :| 0 <= i < |waves[0]| && waves[0][i] == t && Eligible(tasks, t) && forall j :: 0 <= j < i ==> !Eligible(tasks, waves[0][j]);
      assert FirstAt(waves, tasks, t, 0, i);
    }
    if (forall j :: 0 <= j < |waves[0]| ==> !Eligible(tasks, waves[0][j])) && First(waves[1..], tasks, t) {
      var w: nat, k: nat :| FirstAt(waves[1..], tasks, t, w, k);
      assert FirstAt(waves, tasks, t, w + 1, k);
    }
  }

  /** The task the monitor picks is the first of the plan that can be started, the plan read wave after wave as one list. */
  lemma {:induction false} FirstIsFirstInList(waves: seq<seq<TaskId>>, tasks: Tasks, t: TaskId)
    ensures First(waves, tasks, t) <==> FirstInList(InOneList(waves), tasks, t)
    decreases |waves|
  {
    hide Eligible, First, FirstInList;
    if waves == [] {
      NoneFirst(tasks, t);
    } else {
      FirstOfWaves(waves, tasks, t);
      PlaceInList(waves[0], InOneList(waves[1..]), tasks, t);
      FirstIsFirstInList(waves[1..], tasks, t);
    }
  }

  lemma NoneFirst(tasks: Tasks, t: TaskId)
    ensures !First([], tasks, t) && !FirstInList([], tasks, t)
  {}

  /** The tasks with the status among the first `i` of the order. */
  ghost predicate SeenUpTo(tasks: Tasks, status: Status, order: seq<TaskId>, seen: set<TaskId>, i: nat)
    requires i <= |order|
  {
    && (forall t :: t in seen ==> t in tasks && tasks[t].status == status && t in order[..i])
    && (forall k :: 0 <= k < i ==> order[k] in tasks && (tasks[order[k]].status == status ==> order[k] in seen))
  }

  lemma SeesNext(tasks: Tasks, status: Status, order: seq<TaskId>, seen: set<TaskId>, i: nat)
    requires i < |order| && NoDuplicates(order) && order[i] in tasks && SeenUpTo(tasks, status, order, seen, i)
    ensures order[i] !in seen
    ensures SeenUpTo(tasks, status, order, if tasks[order[i]].status == status then seen + {order[i]} else seen, i + 1)
  {
    assert order[..i + 1] == order[..i] + [order[i]];
  }

  class Monitor {
    var tasks: Tasks
    const order: seq<TaskId>           // iteration order of the dictionary
    const waves: seq<seq<TaskId>>
    const maxParallel: nat

    ghost predicate Valid()
      reads this
    {
      (forall t :: t in tasks <==> t in order) && NoDuplicates(order)
    }

    constructor (tasks: Tasks, order: seq<TaskId>, waves: seq<seq<TaskId>>, maxParallel: nat)
      requires (forall t :: t in tasks <==> t in order) && NoDuplicates(order)
      ensures Valid() && this.tasks == tasks && this.waves == waves && this.maxParallel == maxParallel
    {
      this.tasks, this.order, this.waves, this.maxParallel := tasks, order, waves, maxParallel;
    }

    method CountStatus(status: Status) returns (n: nat)
      requires Valid()
      ensures n == |WithStatus(tasks, status)|
    {
      n := 0;
      var i: nat := 0;
      ghost var seen: set<TaskId> := {};
      while i < |order|
        invariant i <= |order| && n == |seen|
        invariant SeenUpTo(tasks, status, order, seen, i)
      {
        hide NoDuplicates;
        SeesNext(tasks, status, order, seen, i);
        var t := order[i];
        if tasks[t].status == status {
          n, seen := n + 1, seen + {t};
        }
        i := i + 1;
      }
      assert seen == WithStatus(tasks, status);
    }

    method CheckDependencies(deps: seq<TaskId>) returns (met: bool)
      ensures met <==> forall d :: d in deps ==> d in tasks && tasks[d].status == Completed
    {
      var i: nat := 0;
      while i < |deps|
        invariant i <= |deps|
        invariant forall k :: 0 <= k < i ==> deps[k] in tasks && tasks[deps[k]].status == Completed
      {
        if deps[i] !in tasks || tasks[deps[i]].status != Completed {
          return false;
        }
        i := i + 1;
      }
      met := true;
    }

    /** The first eligible task in wave order. */
    method GetNextEligibleTask() returns (r: Option<TaskId>)
      ensures r.Some? ==> Eligible(tasks, r.value) && Planned(waves, r.value)
      ensures r.None? ==> forall t :: Planned(waves, t) ==> !Eligible(tasks, t)
      ensures r.Some? ==> First(waves, tasks, r.value)
    {
      var w: nat := 0;
      while w < |waves|
        invariant w <= |waves|
        invariant forall v, j :: 0 <= v < w && 0 <= j < |waves[v]| ==> !Eligible(tasks, waves[v][j])
      {
        var k: nat := 0;
        while k < |waves[w]|
          invariant k <= |waves[w]|
          invariant forall j :: 0 <= j < k ==> !Eligible(tasks, waves[w][j])
        {
          var taskId := waves[w][k];
          if taskId in tasks && tasks[taskId].status == Pending && !tasks[taskId].isParentTask {
            var met := CheckDependencies(tasks[taskId].dependencies);
            if met {
              assert FirstAt(waves, tasks, taskId, w, k);
              return Some(taskId);
            }
          }
          k := k + 1;
        }
        w := w + 1;
      }
      r := None;
    }

    /** Starts one task if a slot is free and a task is eligible. */
    method StartNextTask() returns (started: bool)
      requires Valid()
      modifies this
      ensures Valid()
      ensures started ==> exists t :: && First(waves, old(tasks), t)
                                      && tasks == old(tasks)[t := old(tasks)[t].(status := Running)]
      ensures started ==> |WithStatus(tasks, Running)| == |WithStatus(old(tasks), Running)| + 1 <= maxParallel
      ensures started ==> |WithStatus(tasks, Pending)| < |WithStatus(old(tasks), Pending)|
      ensures !started ==> tasks == old(tasks)
      ensures !started ==> |WithStatus(tasks, Running)| >= maxParallel
                           || forall t :: Planned(waves, t) ==> !Eligible(tasks, t)
    {
      var runningCount := CountStatus(Running);
      if runningCount >= maxParallel {
        return false;
      }
      var next := GetNextEligibleTask();
      if next.None? {
        return false;
      }
      var t := next.value;
      StatusMoves(tasks, t, Running);
      tasks := tasks[t := tasks[t].(status := Running)];
      started := true;
    }

    /** The start loop of the monitor: it ends with every slot taken or nothing left to start. */
    method StartTasks() returns (count: nat)
      requires Valid()
      modifies this
      ensures Valid()
      ensures |WithStatus(tasks, Running)| == |WithStatus(old(tasks), Running)| + count
      ensures count > 0 ==> |WithStatus(tasks, Running)| <= maxParallel
      ensures |WithStatus(tasks, Running)| >= maxParallel || forall t :: Planned(waves, t) ==> !Eligible(tasks, t)
      ensures OnlyStarted(old(tasks), tasks)
    {
      hide Planned;
      count := 0;
      var started := true;
      while started
        invariant Valid() && OnlyStarted(old(tasks), tasks)
        invariant |WithStatus(tasks, Running)| == |WithStatus(old(tasks), Running)| + count
        invariant count > 0 ==> |WithStatus(tasks, Running)| <= maxParallel
        invariant !started ==> |WithStatus(tasks, Running)| >= maxParallel || forall t :: Planned(waves, t) ==> !Eligible(tasks, t)
        decreases |WithStatus(tasks, Pending)|, started
      {
        ghost var before := tasks;
        started := StartNextTask();
        if started {
          ghost var t :| Eligible(before, t) && tasks == before[t := before[t].(status := Running)];
          StartedOneMore(old(tasks), before, t);
          count := count + 1;
        }
      }
    }

    /** A deadlock: nothing runs, and every pending task waits for a failed or stopped one. */
    method CheckDeadlockState() returns (deadlocked: bool, blocked: seq<TaskId>)
      requires Valid()
      ensures deadlocked <==> Deadlocked(tasks)
      ensures deadlocked ==> forall t :: !Eligible(tasks, t)
      ensures WithStatus(tasks, Running) == {} ==> forall t :: t in blocked <==> Waiting(tasks, t) && WaitsForDead(tasks, t)
      ensures WithStatus(tasks, Running) != {} ==> blocked == []
    {
      deadlocked, blocked := false, [];
      var runningCount := CountStatus(Running);
      if runningCount > 0 {
        assert WithStatus(tasks, Running) != {};
        return;
      }
      var pendingCount;
      pendingCount, blocked := ListBlocked();
      deadlocked := pendingCount > 0 && |blocked| == pendingCount;
      DeadlockIsReal(tasks);
    }

    /** The pending tasks are counted, and those that wait for a failed or stopped task listed. */
    method ListBlocked() returns (pendingCount: nat, blocked: seq<TaskId>)
      requires Valid()
      ensures pendingCount > 0 <==> exists t :: Waiting(tasks, t)
      ensures |blocked| == pendingCount <==> forall t :: Waiting(tasks, t) ==> WaitsForDead(tasks, t)
      ensures forall t :: t in blocked <==> Waiting(tasks, t) && WaitsForDead(tasks, t)
    {
      hide WaitsForDead;
      pendingCount, blocked := 0, [];
      var i: nat := 0;
      while i < |order|
        invariant i <= |order| && |blocked| <= pendingCount
        invariant pendingCount > 0 <==> exists k :: 0 <= k < i && Waiting(tasks, order[k])
        invariant |blocked| == pendingCount <==> forall k :: 0 <= k < i && Waiting(tasks, order[k]) ==> WaitsForDead(tasks, order[k])
        invariant forall t :: t in blocked ==> Waiting(tasks, t) && WaitsForDead(tasks, t)
        invariant forall k :: 0 <= k < i && Waiting(tasks, order[k]) && WaitsForDead(tasks, order[k]) ==> order[k] in blocked
      {
        var t := order[i];
        if tasks[t].status == Pending && !tasks[t].isParentTask {
          assert Waiting(tasks, t);
          pendingCount := pendingCount + 1;
          var dead := HasDeadDependency(t);
          if dead {
            blocked := blocked + [t];
          }
        }
        i := i + 1;
      }
      forall t | Waiting(tasks, t) ensures exists k :: 0 <= k < |order| && order[k] == t {
        assert t in order;
      }
    }

    method HasDeadDependency(t: TaskId) returns (dead: bool)
      requires t in tasks
      ensures dead <==> WaitsForDead(tasks, t)
    {
      var deps := tasks[t].dependencies;
      var i: nat := 0;
      while i < |deps|
        invariant i <= |deps|
        invariant forall k :: 0 <= k < i ==> !(deps[k] in tasks && (tasks[deps[k]].status == Failed || tasks[deps[k]].status == Stopped))
      {
        if deps[i] in tasks && (tasks[deps[i]].status == Failed || tasks[deps[i]].status == Stopped) {
          return true;
        }
        i := i + 1;
      }
      dead := false;
    }
  }

  predicate Waiting(tasks: Tasks, t: TaskId) {
    t in tasks && tasks[t].status == Pending && !tasks[t].isParentTask
  }

  predicate WaitsForDead(tasks: Tasks, t: TaskId)
  {
    t in tasks && exists d :: d in tasks[t].dependencies && d in tasks && (tasks[d].status == Failed || tasks[d].status == Stopped)
  }

  /** What the monitor reports: nothing runs, something waits, and all that waits does so for a failed or stopped task. */
  ghost predicate Deadlocked(tasks: Tasks) {
    && WithStatus(tasks, Running) == {}
    && (exists t :: Waiting(tasks, t))
    && (forall t :: Waiting(tasks, t) ==> WaitsForDead(tasks, t))
  }

  /** In a reported deadlock no task runs, some task is pending that is no parent header, and none can be started. */
  lemma DeadlockIsReal(tasks: Tasks)
    ensures Deadlocked(tasks) ==> forall t :: !Eligible(tasks, t)
    ensures Deadlocked(tasks) ==> forall t :: t in tasks ==> tasks[t].status != Running
    ensures Deadlocked(tasks) ==> exists t :: t in tasks && tasks[t].status == Pending && !tasks[t].isParentTask
  {
    if Deadlocked(tasks) {
      forall t ensures !Eligible(tasks, t) {
        if Waiting(tasks, t) {
          assert WaitsForDead(tasks, t);
        }
      }
      forall t | t in tasks ensures tasks[t].status != Running {
        assert t !in WithStatus(tasks, Running);
      }
      var t :| Waiting(tasks, t);
    }
  }

  /** Only direct dependencies count: a task that waits for one that waits for a failed one keeps the report back. */
  lemma IndirectWaitIsNotReported(a: TaskId, b: TaskId, c: TaskId)
    requires a != b && b != c && a != c
    ensures var tasks := map[a := Task(Failed, [], false, 0), b := Task(Pending, [a], false, 1), c := Task(Pending, [b], false, 2)];
            WithStatus(tasks, Running) == {} && (forall t :: !Eligible(tasks, t)) && !Deadlocked(tasks)
  {
    var tasks := map[a := Task(Failed, [], false, 0), b := Task(Pending, [a], false, 1), c := Task(Pending, [b], false, 2)];
    assert a in tasks[b].dependencies && b in tasks[c].dependencies;
    assert Waiting(tasks, c) && !WaitsForDead(tasks, c);
  }

  /** Changing one task's status moves it from one set of equals to another. */
  lemma StatusMoves(tasks: Tasks, t: TaskId, status: Status)
    requires t in tasks && tasks[t].status != status
    ensures var after := tasks[t := tasks[t].(status := status)];
            && |WithStatus(after, status)| == |WithStatus(tasks, status)| + 1
            && |WithStatus(after, tasks[t].status)| == |WithStatus(tasks, tasks[t].status)| - 1
            && forall other :: other != status && other != tasks[t].status ==> WithStatus(after, other) == WithStatus(tasks, other)
  {
    var after := tasks[t := tasks[t].(status := status)];
    assert WithStatus(after, status) == WithStatus(tasks, status) + {t};
    assert WithStatus(after, tasks[t].status) == WithStatus(tasks, tasks[t].status) - {t};
  }

  /**
   The only change is that some tasks now run, each of them pending before, not a parent header,
   and with all its dependencies completed, then and now.
   */
  ghost predicate OnlyStarted(before: Tasks, after: Tasks) {
    && before.Keys == after.Keys
    && forall t :: t in before ==>
         after[t] == before[t] || (after[t] == before[t].(status := Running) && Eligible(before, t) && DependenciesMet(after, t))
  }

  lemma StartedOneMore(first: Tasks, before: Tasks, t: TaskId)
    requires OnlyStarted(first, before) && Eligible(before, t)
    ensures OnlyStarted(first, before[t := before[t].(status := Running)])
  {}

  // ----- progress

  /** `tasks` has moved on from an analysis: every task that is still pending kept its validated dependencies. */
  ghost predicate Follows(initial: Tasks, tasks: Tasks) {
    && tasks.Keys == initial.Keys
    && forall t :: t in tasks && tasks[t].status == Pending ==>
         initial[t].status != Completed && tasks[t].dependencies == Remaining(initial, initial[t].dependencies)
  }

  /** Nothing runs, has failed, been stopped or is blocked, and nothing pending waits for a pending parent header. */
  ghost predicate Quiet(tasks: Tasks) {
    && (forall t :: t in tasks ==> tasks[t].status == Pending || tasks[t].status == Completed)
    && (forall t, d :: Waiting(tasks, t) && d in tasks[t].dependencies && d in tasks && tasks[d].status == Pending
                       ==> !tasks[d].isParentTask)
  }

  /** Right after the analysis, and after anything the monitor starts, the tasks follow it. */
  lemma StartedFollows(initial: Tasks, before: Tasks, after: Tasks)
    ensures forall waves :: Follows(initial, WithWaves(Validated(initial), waves))
    ensures Follows(initial, before) && OnlyStarted(before, after) ==> Follows(initial, after)
  {
    if Follows(initial, before) && OnlyStarted(before, after) {
      forall t | t in after && after[t].status == Pending
        ensures initial[t].status != Completed && after[t].dependencies == Remaining(initial, initial[t].dependencies)
      {
        assert after[t] == before[t];
      }
    }
  }

  lemma {:induction false} ProgressFrom(initial: Tasks, waves: seq<seq<TaskId>>, tasks: Tasks, t: TaskId, w: nat) returns (e: TaskId)
    requires IsWavePlan(PendingGraph(initial), waves) && Follows(initial, tasks) && Quiet(tasks)
    requires w < |waves| && t in waves[w] && Waiting(tasks, t)
    ensures Eligible(tasks, e) && Planned(waves, e)
    decreases w
  {
    hide LongestChain;
    var g := PendingGraph(initial);
    e := t;
    var k :| 0 <= k < |waves[w]| && waves[w][k] == t;
    assert Planned(waves, t);
    if !DependenciesMet(tasks, t) {
      var d :| d in tasks[t].dependencies && !(d in tasks && tasks[d].status == Completed);
      RemainingHas(initial, initial[t].dependencies, d);
      assert Edge(g, t, d);
      var v :| 0 <= v < |waves| && d in waves[v];
      DependenciesComeEarlier(g, waves, t, d, w, v);
      e := ProgressFrom(initial, waves, tasks, d, v);
    }
  }

  /**
   Progress: while some task is waiting and everything else is done or waiting too, some planned
   task can be started.
   */
  lemma Progress(initial: Tasks, waves: seq<seq<TaskId>>, tasks: Tasks, t: TaskId)
    requires IsWavePlan(PendingGraph(initial), waves) && Follows(initial, tasks) && Quiet(tasks) && Waiting(tasks, t)
    ensures exists e :: Eligible(tasks, e) && Planned(waves, e)
  {
    hide LongestChain;
    assert t in PendingGraph(initial);
    var w :| 0 <= w < |waves| && t in waves[w];
    var e := ProgressFrom(initial, waves, tasks, t, w);
  }
}
