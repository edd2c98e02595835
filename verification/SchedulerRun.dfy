/** Whole runs of the monitor: tasks started by it, and tasks that end. */
module SchedulerRun {
  import opened TaskGraph
  import opened WavePlanner
  import opened Scheduler

  /** A start by the monitor, the end of a running task, and a stopped task's work being taken over after all. */
  datatype Event = Start(t: TaskId) | End(t: TaskId, outcome: Status) | TakeOver(t: TaskId)

  predicate Terminal(s: Status) {
    s == Completed || s == Failed || s == Stopped
  }

  /** The status an event gives its task. */
  function NewStatus(e: Event): Status {
    match e
    case Start(_) => Running
    case End(_, outcome) => outcome
    case TakeOver(_) => Completed
  }

  function Apply(tasks: Tasks, e: Event): Tasks {
    if e.t in tasks then tasks[e.t := tasks[e.t].(status := NewStatus(e))] else tasks
  }

  function ApplyAll(tasks: Tasks, events: seq<Event>): Tasks
    decreases |events|
  {
    if events == [] then tasks else ApplyAll(Apply(tasks, events[0]), events[1..])
  }

  /** What may happen: a start only as the monitor starts tasks, an end only of what runs. */
  ghost predicate Possible(tasks: Tasks, maxParallel: nat, e: Event) {
    && e.t in tasks
    && match e
       case Start(t) => Eligible(tasks, t) && |WithStatus(tasks, Running)| < maxParallel
       case End(t, outcome) => tasks[t].status == Running && Terminal(outcome)
       case TakeOver(t) => tasks[t].status == Stopped
  }

  ghost predicate IsRun(tasks: Tasks, maxParallel: nat, events: seq<Event>)
    decreases |events|
  {
    events != [] ==> Possible(tasks, maxParallel, events[0]) && IsRun(Apply(tasks, events[0]), maxParallel, events[1..])
  }

  /** The tasks as the analysis hands them to the monitor. */
  function Prepared(initial: Tasks, waves: seq<seq<TaskId>>): Tasks {
    WithWaves(Validated(initial), waves)
  }

  // ----- safety

  /** Each task that the monitor has started has all its dependencies completed. */
  ghost predicate StartedRightly(initial: Tasks, tasks: Tasks) {
    && tasks.Keys == initial.Keys
    && forall t :: t in tasks ==>
         && tasks[t].dependencies == initial[t].dependencies && tasks[t].isParentTask == initial[t].isParentTask
         && (initial[t].status == Completed ==> tasks[t].status == Completed)
         && (initial[t].status == Pending && tasks[t].status != Pending ==> !tasks[t].isParentTask && DependenciesMet(tasks, t))
  }

  lemma StepSafe(initial: Tasks, tasks: Tasks, maxParallel: nat, e: Event)
    requires StartedRightly(initial, tasks) && |WithStatus(tasks, Running)| <= maxParallel && Possible(tasks, maxParallel, e)
    ensures StartedRightly(initial, Apply(tasks, e)) && |WithStatus(Apply(tasks, e), Running)| <= maxParallel
  {
    hide WithStatus;
    var after := Apply(tasks, e);
    if tasks[e.t].status != NewStatus(e) {
      StatusMoves(tasks, e.t, NewStatus(e));
    }
    assert forall t :: t in tasks && tasks[t].status == Completed ==> after[t].status == Completed;
    forall t | t in after && initial[t].status == Pending && after[t].status != Pending
      ensures !after[t].isParentTask && DependenciesMet(after, t)
    {
      assert DependenciesMet(tasks, t);
    }
  }

  /**
   Over every run: never more than `maxParallel` tasks run, and whatever the monitor has started has all
   its dependencies completed, from its start on.
   */
  lemma {:induction false} RunSafe(initial: Tasks, tasks: Tasks, maxParallel: nat, events: seq<Event>)
    requires StartedRightly(initial, tasks) && |WithStatus(tasks, Running)| <= maxParallel && IsRun(tasks, maxParallel, events)
    ensures var after := ApplyAll(tasks, events);
            StartedRightly(initial, after) && |WithStatus(after, Running)| <= maxParallel
    decreases |events|
  {
    hide StartedRightly, WithStatus, Possible, Apply;
    if events != [] {
      StepSafe(initial, tasks, maxParallel, events[0]);
      RunSafe(initial, Apply(tasks, events[0]), maxParallel, events[1..]);
    }
  }

  /** In terms of the dependencies as first listed: those on tasks that exist are completed before a task is started. */
  lemma StartsInOrder(initial: Tasks, waves: seq<seq<TaskId>>, maxParallel: nat, events: seq<Event>, t: TaskId, d: TaskId)
    requires IsRun(Prepared(initial, waves), maxParallel, events) && |WithStatus(initial, Running)| <= maxParallel
    requires t in initial && initial[t].status == Pending && d in initial[t].dependencies && d in initial
    ensures var after := ApplyAll(Prepared(initial, waves), events);
            t in after && d in after && (after[t].status != Pending ==> after[d].status == Completed)
  {
    hide ApplyAll, IsRun;
    var tasks := Prepared(initial, waves);
    assert WithStatus(tasks, Running) == WithStatus(initial, Running);
    RunSafe(tasks, tasks, maxParallel, events);
    var after := ApplyAll(tasks, events);
    RemainingHas(initial, initial[t].dependencies, d);
  }

  // ----- termination

  /** At most this many events are still to come. */
  ghost function Left(tasks: Tasks): nat {
    3 * |WithStatus(tasks, Pending)| + 2 * |WithStatus(tasks, Running)| + |WithStatus(tasks, Stopped)|
  }

  lemma StepShrinks(tasks: Tasks, maxParallel: nat, e: Event)
    requires Possible(tasks, maxParallel, e)
    ensures Left(Apply(tasks, e)) < Left(tasks)
  {
    StatusMoves(tasks, e.t, NewStatus(e));
    hide WithStatus;
  }

  /** No run goes on for ever. */
  lemma {:induction false} RunsAreBounded(tasks: Tasks, maxParallel: nat, events: seq<Event>)
    requires IsRun(tasks, maxParallel, events)
    ensures |events| + Left(ApplyAll(tasks, events)) <= Left(tasks)
    decreases |events|
  {
    hide Left, Possible, Apply;
    if events != [] {
      StepShrinks(tasks, maxParallel, events[0]);
      RunsAreBounded(Apply(tasks, events[0]), maxParallel, events[1..]);
    }
  }

  // ----- completeness

  /** No task fails or is stopped. */
  predicate AllSucceed(events: seq<Event>) {
    forall e :: e in events && e.End? ==> e.outcome == Completed
  }

  /** The run cannot be continued by starting a planned task or by the end of a running one. */
  ghost predicate Stuck(tasks: Tasks, waves: seq<seq<TaskId>>, maxParallel: nat) {
    && WithStatus(tasks, Running) == {}
    && (|WithStatus(tasks, Running)| >= maxParallel || forall t :: Planned(waves, t) ==> !Eligible(tasks, t))
  }

  ghost predicate OnlyGood(tasks: Tasks) {
    forall t :: t in tasks ==> tasks[t].status == Pending || tasks[t].status == Running || tasks[t].status == Completed
  }

  lemma StepGood(initial: Tasks, tasks: Tasks, maxParallel: nat, e: Event)
    requires Follows(initial, tasks) && OnlyGood(tasks) && Possible(tasks, maxParallel, e)
    requires e.End? ==> e.outcome == Completed
    ensures Follows(initial, Apply(tasks, e)) && OnlyGood(Apply(tasks, e))
  {}

  lemma {:induction false} RunGood(initial: Tasks, tasks: Tasks, maxParallel: nat, events: seq<Event>)
    requires Follows(initial, tasks) && OnlyGood(tasks) && IsRun(tasks, maxParallel, events) && AllSucceed(events)
    ensures Follows(initial, ApplyAll(tasks, events)) && OnlyGood(ApplyAll(tasks, events))
    decreases |events|
  {
    hide Follows, OnlyGood, Possible, Apply;
    if events != [] {
      assert events[0] in events;
      assert AllSucceed(events[1..]) by {
        forall e | e in events[1..] && e.End? ensures e.outcome == Completed { assert e in events; }
      }
      StepGood(initial, tasks, maxParallel, events[0]);
      RunGood(initial, Apply(tasks, events[0]), maxParallel, events[1..]);
    }
  }

  /** The task is a parent header still to do, which the monitor never starts, or waits for one, directly or not. */
  ghost predicate AwaitsParent(initial: Tasks, t: TaskId) {
    exists p :: IsPath(PendingGraph(initial), p) && p[0] == t && p[|p| - 1] in initial && initial[p[|p| - 1]].isParentTask
  }

  lemma {:induction false} NeverStarted(initial: Tasks, waves: seq<seq<TaskId>>, after: Tasks, p: seq<TaskId>)
    requires StartedRightly(Prepared(initial, waves), after)
    requires forall u :: u in initial ==> initial[u].status == Pending || initial[u].status == Completed
    requires IsPath(PendingGraph(initial), p) && p[|p| - 1] in initial && initial[p[|p| - 1]].isParentTask
    ensures p[0] in after && after[p[0]].status == Pending
    decreases |p|
  {
    if |p| >= 2 {
      PathTail(PendingGraph(initial), p);
      NeverStarted(initial, waves, after, p[1..]);
    }
  }

  lemma ParentAwaitsItself(initial: Tasks, t: TaskId)
    requires t in PendingGraph(initial)
    ensures initial[t].isParentTask ==> AwaitsParent(initial, t)
  {
    assert IsPath(PendingGraph(initial), [t]);
  }

  /** For instance, a task that lists a parent header still to do among its dependencies. */
  lemma DependingOnHeader(a: TaskId, b: TaskId)
    requires a != b
    ensures AwaitsParent(map[a := Task(Pending, [], true, 0), b := Task(Pending, [a], false, 1)], b)
  {
    var initial := map[a := Task(Pending, [], true, 0), b := Task(Pending, [a], false, 1)];
    RemainingHas(initial, [a], a);
    var p := [b, a];
    assert Edge(PendingGraph(initial), b, a);
    assert IsPath(PendingGraph(initial), p) && p[|p| - 1] == a;
  }

  lemma AwaitsThrough(initial: Tasks, t: TaskId, d: TaskId)
    requires Edge(PendingGraph(initial), t, d)
    ensures AwaitsParent(initial, d) ==> AwaitsParent(initial, t)
  {
    if AwaitsParent(initial, d) {
      var g := PendingGraph(initial);
      var p :| IsPath(g, p) && p[0] == d && p[|p| - 1] in initial && initial[p[|p| - 1]].isParentTask;
      PathCons(g, t, p);
      assert ([t] + p)[0] == t && ([t] + p)[|p|] == p[|p| - 1];
    }
  }

  lemma AwaitingNeverStarts(initial: Tasks, waves: seq<seq<TaskId>>, after: Tasks, t: TaskId)
    requires StartedRightly(Prepared(initial, waves), after) && AwaitsParent(initial, t)
    requires forall u :: u in initial ==> initial[u].status == Pending || initial[u].status == Completed
    ensures t in after && after[t].status == Pending
  {
    hide StartedRightly;
    var p :| IsPath(PendingGraph(initial), p) && p[0] == t && p[|p| - 1] in initial && initial[p[|p| - 1]].isParentTask;
    NeverStarted(initial, waves, after, p);
  }

  lemma RunFacts(initial: Tasks, waves: seq<seq<TaskId>>, maxParallel: nat, events: seq<Event>)
    requires forall u :: u in initial ==> initial[u].status == Pending || initial[u].status == Completed
    requires IsRun(Prepared(initial, waves), maxParallel, events) && AllSucceed(events)
    ensures var after := ApplyAll(Prepared(initial, waves), events);
            && Follows(initial, after) && OnlyGood(after) && StartedRightly(Prepared(initial, waves), after)
            && forall u :: u in initial && initial[u].status == Completed ==> u in after && after[u].status == Completed
  {
    hide ApplyAll, IsRun, AllSucceed, Possible;
    var tasks := Prepared(initial, waves);
    StartedFollows(initial, initial, initial);
    RunGood(initial, tasks, maxParallel, events);
    NoneRunning(tasks);
    RunSafe(tasks, tasks, maxParallel, events);
  }

  /** When the run is stuck, a task that awaits no parent header is completed: so are all it depends on. */
  lemma {:induction false} Completes(initial: Tasks, waves: seq<seq<TaskId>>, maxParallel: nat, after: Tasks, t: TaskId, w: nat)
    requires IsWavePlan(PendingGraph(initial), waves) && maxParallel > 0
    requires Follows(initial, after) && OnlyGood(after) && StartedRightly(Prepared(initial, waves), after)
    requires Stuck(after, waves, maxParallel)
    requires w < |waves| && t in waves[w] && !AwaitsParent(initial, t)
    ensures t in after && after[t].status == Completed
    decreases w
  {
    hide LongestChain, IsPath, AwaitsParent;
    var g := PendingGraph(initial);
    assert t in g && t in initial;
    if after[t].status != Completed {
      assert t !in WithStatus(after, Running);
      ParentAwaitsItself(initial, t);
      var k :| 0 <= k < |waves[w]| && waves[w][k] == t;
      assert Planned(waves, t) && !Eligible(after, t);
      var d :| d in after[t].dependencies && !(d in after && after[d].status == Completed);
      RemainingHas(initial, initial[t].dependencies, d);
      assert Edge(g, t, d);
      var v :| 0 <= v < |waves| && d in waves[v];
      DependenciesComeEarlier(g, waves, t, d, w, v);
      AwaitsThrough(initial, t, d);
      Completes(initial, waves, maxParallel, after, d, v);
    }
  }

  /**
   With a plan and at least one slot, a run in which nothing fails and that cannot go on has completed exactly
   the tasks that neither are nor await a parent header.
   */
  lemma EverythingCompletes(initial: Tasks, waves: seq<seq<TaskId>>, maxParallel: nat, events: seq<Event>, t: TaskId)
    requires IsWavePlan(PendingGraph(initial), waves) && maxParallel > 0
    requires forall u :: u in initial ==> initial[u].status == Pending || initial[u].status == Completed
    requires IsRun(Prepared(initial, waves), maxParallel, events) && AllSucceed(events)
    requires Stuck(ApplyAll(Prepared(initial, waves), events), waves, maxParallel)
    requires t in initial
    ensures var after := ApplyAll(Prepared(initial, waves), events);
            t in after && (after[t].status == Completed <==> !AwaitsParent(initial, t))
  {
    hide ApplyAll, IsRun, IsWavePlan, AllSucceed, Stuck, AwaitsParent, Follows, OnlyGood, StartedRightly;
    RunFacts(initial, waves, maxParallel, events);
    var after := ApplyAll(Prepared(initial, waves), events);
    if AwaitsParent(initial, t) {
      AwaitingNeverStarts(initial, waves, after, t);
    } else if initial[t].status != Completed {
      var w := WaveOf(PendingGraph(initial), waves, t);
      Completes(initial, waves, maxParallel, after, t, w);
    } else {
      SameTasks(initial, after);
    }
  }

  lemma SameTasks(initial: Tasks, after: Tasks)
    requires Follows(initial, after)
    ensures after.Keys == initial.Keys
  {}

  lemma WaveOf(g: Graph, waves: seq<seq<TaskId>>, t: TaskId) returns (w: nat)
    requires IsWavePlan(g, waves) && t in g
    ensures w < |waves| && t in waves[w]
  {
    hide LongestChain;
    w :| w < |waves| && t in waves[w];
  }

  lemma NoneRunning(tasks: Tasks)
    requires forall u :: u in tasks ==> tasks[u].status == Pending || tasks[u].status == Completed
    ensures |WithStatus(tasks, Running)| == 0
  {
    assert WithStatus(tasks, Running) == {};
  }

  // ----- why a monitor is stuck, and when it says so

  function DependencyGraph(tasks: Tasks): Graph {
    map t | t in tasks :: tasks[t].dependencies
  }

  /** A task no start of the monitor will ever get past. */
  predicate Obstacle(tasks: Tasks, t: TaskId) {
    t in tasks && (tasks[t].status == Failed || tasks[t].status == Stopped || tasks[t].status == Blocked
                   || (tasks[t].status == Pending && tasks[t].isParentTask))
  }

  /** Along its dependencies the task leads to an obstacle. */
  ghost predicate LeadsToObstacle(tasks: Tasks, t: TaskId) {
    exists p :: IsPath(DependencyGraph(tasks), p) && |p| >= 2 && p[0] == t && Obstacle(tasks, p[|p| - 1])
  }

  lemma DirectObstacle(tasks: Tasks, t: TaskId, d: TaskId)
    requires t in tasks && d in tasks[t].dependencies && Obstacle(tasks, d)
    ensures LeadsToObstacle(tasks, t)
  {
    var p := [t, d];
    assert Edge(DependencyGraph(tasks), t, d);
    assert IsPath(DependencyGraph(tasks), p) && p[|p| - 1] == d;
  }

  lemma ObstacleBehind(tasks: Tasks, t: TaskId, d: TaskId)
    requires t in tasks && d in tasks && d in tasks[t].dependencies && LeadsToObstacle(tasks, d)
    ensures LeadsToObstacle(tasks, t)
  {
    var g := DependencyGraph(tasks);
    var p :| IsPath(g, p) && |p| >= 2 && p[0] == d && Obstacle(tasks, p[|p| - 1]);
    PathCons(g, t, p);
    var q := [t] + p;
    assert q[0] == t && q[|q| - 1] == p[|p| - 1];
  }

  /** When nothing runs and nothing planned can be started, whatever waits does so for an obstacle. */
  lemma {:induction false} WaitsForObstacle(initial: Tasks, waves: seq<seq<TaskId>>, maxParallel: nat, tasks: Tasks, t: TaskId, w: nat)
    requires IsWavePlan(PendingGraph(initial), waves) && Follows(initial, tasks) && Stuck(tasks, waves, maxParallel) && maxParallel > 0
    requires w < |waves| && t in waves[w] && Waiting(tasks, t)
    ensures LeadsToObstacle(tasks, t)
    decreases w
  {
    hide LongestChain, LeadsToObstacle;
    var g := PendingGraph(initial);
    var k :| 0 <= k < |waves[w]| && waves[w][k] == t;
    assert Planned(waves, t) && !Eligible(tasks, t);
    var d :| d in tasks[t].dependencies && !(d in tasks && tasks[d].status == Completed);
    RemainingHas(initial, initial[t].dependencies, d);
    assert Edge(g, t, d);
    assert d !in WithStatus(tasks, Running);
    if Obstacle(tasks, d) {
      DirectObstacle(tasks, t, d);
    } else {
      var v :| 0 <= v < |waves| && d in waves[v];
      DependenciesComeEarlier(g, waves, t, d, w, v);
      WaitsForObstacle(initial, waves, maxParallel, tasks, d, v);
      ObstacleBehind(tasks, t, d);
    }
  }

  /**
   With a plan and at least one slot, when nothing runs, nothing planned can be started, and something waits:
   everything that waits leads to a failed, stopped or blocked task or a pending parent header, and this goes
   unreported if and only if some waiting task has no failed or stopped task among its own dependencies.
   */
  lemma StuckIsReportedIff(initial: Tasks, waves: seq<seq<TaskId>>, maxParallel: nat, tasks: Tasks)
    requires IsWavePlan(PendingGraph(initial), waves) && Follows(initial, tasks) && Stuck(tasks, waves, maxParallel) && maxParallel > 0
    requires exists t :: Waiting(tasks, t)
    ensures forall t :: Waiting(tasks, t) ==> LeadsToObstacle(tasks, t)
    ensures !Deadlocked(tasks)
            <==> exists t :: Waiting(tasks, t) && forall d :: d in tasks[t].dependencies && d in tasks ==>
                   tasks[d].status != Failed && tasks[d].status != Stopped
  {
    hide IsWavePlan, LeadsToObstacle;
    forall t | Waiting(tasks, t) ensures LeadsToObstacle(tasks, t) {
      assert t in PendingGraph(initial);
      var w := WaveOf(PendingGraph(initial), waves, t);
      WaitsForObstacle(initial, waves, maxParallel, tasks, t, w);
    }
  }
}
