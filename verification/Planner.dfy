/**
 * Dependency closure over a possibly cyclic task graph, and its layering into phases.
 * A registry maps a task to its declared dependencies, in declaration order.
 */
module Planner {
  import opened Wrappers

  type Task = string

  type Registry = map<Task, seq<Task>>

  // ---------------------------------------------------------------------------
  // Specification

  /** `to` is a declared dependency of `from` that is not excluded. */
  predicate Edge(reg: Registry, excluded: set<Task>, from: Task, to: Task) {
    from in reg && to in reg[from] && to !in excluded
  }

  ghost predicate Path(reg: Registry, excluded: set<Task>, p: seq<Task>) {
    && p != []
    && forall a, b | 0 <= a < |p| && 0 <= b < |p| && b == a + 1 :: Edge(reg, excluded, p[a], p[b])
  }

  ghost predicate Reaches(reg: Registry, excluded: set<Task>, from: Task, to: Task) {
    exists p :: Path(reg, excluded, p) && p[0] == from && p[|p| - 1] == to
  }

  ghost predicate ReachedFrom(reg: Registry, excluded: set<Task>, roots: seq<Task>, to: Task) {
    exists r :: r in roots && r !in excluded && Reaches(reg, excluded, r, to)
  }

  ghost predicate Closed(reg: Registry, excluded: set<Task>, s: set<Task>) {
    forall t, d | t in s && Edge(reg, excluded, t, d) :: d in s
  }

  /**
   * The dependency closure of the targets: it holds the non-excluded targets, nothing
   * excluded, every non-excluded dependency of what it holds, and nothing that was not
   * needed.
   */
  ghost predicate IsClosure(reg: Registry, excluded: set<Task>, targets: seq<Task>, s: set<Task>) {
    && (forall t | t in targets && t !in excluded :: t in s)
    && s !! excluded
    && Closed(reg, excluded, s)
    && s <= reg.Keys
    && (forall t | t in s :: ReachedFrom(reg, excluded, targets, t))
  }

  /** A task the targets need is not in the registry. */
  ghost predicate SomeTaskMissing(reg: Registry, excluded: set<Task>, targets: seq<Task>) {
    exists t :: t !in reg && ReachedFrom(reg, excluded, targets, t)
  }

  lemma ReachesSelf(reg: Registry, excluded: set<Task>, t: Task)
    ensures Reaches(reg, excluded, t, t)
  {
    assert Path(reg, excluded, [t]) && [t][0] == t && [t][|[t]| - 1] == t;
  }

  lemma ReachesThroughEdge(reg: Registry, excluded: set<Task>, from: Task, mid: Task, to: Task)
    requires Edge(reg, excluded, from, mid) && Reaches(reg, excluded, mid, to)
    ensures Reaches(reg, excluded, from, to)
  {
    var p :| Path(reg, excluded, p) && p[0] == mid && p[|p| - 1] == to;
    var q := [from] + p;
    assert Path(reg, excluded, q) && q[0] == from && q[|q| - 1] == to;
  }

  /** A closed set holds everything its members reach. */
  lemma {:induction false} ClosedHoldsReached(reg: Registry, excluded: set<Task>, s: set<Task>, p: seq<Task>)
    requires Closed(reg, excluded, s) && Path(reg, excluded, p) && p[0] in s
    ensures p[|p| - 1] in s
    decreases |p|
  {
    if 1 < |p| {
      assert Edge(reg, excluded, p[0], p[1]);
      ClosedHoldsReached(reg, excluded, s, p[1..]);
    }
  }

  /** The closure is unique: it is what the targets reach, and exists only when nothing is missing. */
  lemma ClosureIsReachability(reg: Registry, excluded: set<Task>, targets: seq<Task>, s: set<Task>)
    requires IsClosure(reg, excluded, targets, s)
    ensures forall t :: t in s <==> ReachedFrom(reg, excluded, targets, t)
    ensures !SomeTaskMissing(reg, excluded, targets)
    ensures forall other: set<Task> | (forall t | t in targets && t !in excluded :: t in other)
                                      && Closed(reg, excluded, other) :: s <= other
  {
    forall t, other: set<Task> | (forall r | r in targets && r !in excluded :: r in other)
                                 && Closed(reg, excluded, other)
                                 && ReachedFrom(reg, excluded, targets, t)
      ensures t in other
    {
      var r :| r in targets && r !in excluded && Reaches(reg, excluded, r, t);
      var p :| Path(reg, excluded, p) && p[0] == r && p[|p| - 1] == t;
      ClosedHoldsReached(reg, excluded, other, p);
    }
  }

  // ---------------------------------------------------------------------------
  // The depth-first closure

  /** What one depth-first visit may add: tasks this one reaches, with their dependencies. */
  ghost predicate Visited(reg: Registry, excluded: set<Task>, task: Task, before: set<Task>, after: set<Task>) {
    && before <= after
    && after - before <= reg.Keys
    && (after - before) !! excluded
    && (forall t | t in after - before :: Reaches(reg, excluded, task, t))
    && (forall t, d | t in after - before && Edge(reg, excluded, t, d) :: d in after)
  }

  method ResolveExcluding(task: Task, reg: Registry, excluded: set<Task>, seen: set<Task>)
    returns (ok: bool, seen': set<Task>)
    requires seen <= reg.Keys
    ensures seen' <= reg.Keys
    ensures ok ==> Visited(reg, excluded, task, seen, seen') && (task in seen' || task in excluded)
    ensures !ok ==> task !in excluded && task !in seen' && exists t :: t !in reg && Reaches(reg, excluded, task, t)
    decreases reg.Keys - seen
  {
    if task in seen {
      return true, seen;
    }
    if task in excluded {
      return true, seen;
    }
    if task !in reg {
      ReachesSelf(reg, excluded, task);
      return false, seen;
    }
    seen' := seen + {task};
    ReachesSelf(reg, excluded, task);
    var deps := reg[task];
    for i := 0 to |deps|
      invariant seen + {task} <= seen' <= reg.Keys
      invariant (seen' - seen) !! excluded
      invariant forall t | t in seen' - seen :: Reaches(reg, excluded, task, t)
      invariant forall t, d | t in seen' - seen && t != task && Edge(reg, excluded, t, d) :: d in seen'
      invariant forall j | 0 <= j < i :: deps[j] in seen' || deps[j] in excluded
    {
      var dep := deps[i];
      if dep in excluded {
        continue;
      }
      var found;
      ghost var before := seen';
      found, seen' := ResolveExcluding(dep, reg, excluded, seen');
      assert Edge(reg, excluded, task, dep);
      if !found {
        ghost var t :| t !in reg && Reaches(reg, excluded, dep, t);
        ReachesThroughEdge(reg, excluded, task, dep, t);
        return false, seen' - {task};
      }
      forall t | t in seen' - before ensures Reaches(reg, excluded, task, t) {
        ReachesThroughEdge(reg, excluded, task, dep, t);
      }
    }
    return true, seen';
  }

  /** The closure of the targets, or nothing exactly when a task they need is missing from the registry. */
  method ResolveDependenciesExcluding(targets: seq<Task>, reg: Registry, excluded: set<Task>)
    returns (result: Option<set<Task>>)
    ensures result.Some? ==> IsClosure(reg, excluded, targets, result.value)
    ensures result.None? <==> SomeTaskMissing(reg, excluded, targets)
  {
    var seen: set<Task> := {};
    for i := 0 to |targets|
      invariant seen <= reg.Keys && seen !! excluded && Closed(reg, excluded, seen)
      invariant forall j | 0 <= j < i :: targets[j] in seen || targets[j] in excluded
      invariant forall t | t in seen :: ReachedFrom(reg, excluded, targets, t)
    {
      var t := targets[i];
      if t in excluded {
        continue;
      }
      ghost var before := seen;
      var ok;
      ok, seen := ResolveExcluding(t, reg, excluded, seen);
      if !ok {
        ghost var missing :| missing !in reg && Reaches(reg, excluded, t, missing);
        assert ReachedFrom(reg, excluded, targets, missing);
        return None;
      }
      forall u | u in seen - before ensures ReachedFrom(reg, excluded, targets, u) {
        assert Reaches(reg, excluded, t, u);
      }
    }
    ClosureIsReachability(reg, excluded, targets, seen);
    return Some(seen);
  }

  // ---------------------------------------------------------------------------
  // Phases

  /** Every non-excluded dependency of the task is in `completed`. */
  predicate Ready(reg: Registry, excluded: set<Task>, t: Task, completed: set<Task>)
    requires t in reg
  {
    forall d | d in reg[t] && d !in excluded :: d in completed
  }

  function Completed(plan: seq<set<Task>>): (tasks: set<Task>) {
    if plan == [] then {} else Completed(plan[..|plan| - 1]) + plan[|plan| - 1]
  }

  /**
   * Each phase is non-empty and holds exactly the tasks of the set, not placed before,
   * whose dependencies were all placed before: every dependency is in an earlier phase
   * and no task could have run earlier.
   */
  ghost predicate Layered(tasks: set<Task>, reg: Registry, excluded: set<Task>, plan: seq<set<Task>>)
    requires tasks <= reg.Keys
  {
    forall k | 0 <= k < |plan| ::
      && plan[k] != {}
      && (forall t :: t in plan[k] <==>
            t in tasks && t !in Completed(plan[..k]) && Ready(reg, excluded, t, Completed(plan[..k])))
  }

  method CollectReadyTasks(tasks: set<Task>, completed: set<Task>, reg: Registry, excluded: set<Task>)
    returns (phase: set<Task>)
    requires tasks <= reg.Keys
    ensures forall t :: t in phase <==> t in tasks && t !in completed && Ready(reg, excluded, t, completed)
  {
    phase := {};
    var left := tasks;
    while left != {}
      invariant left <= tasks
      invariant forall t :: t in phase <==> t in tasks - left && t !in completed && Ready(reg, excluded, t, completed)
      decreases left
    {
      var t :| t in left;
      left := left - {t};
      if t !in completed {
        var ready := AllDepsCompleted(reg[t], excluded, completed);
        if ready {
          phase := phase + {t};
        }
      }
    }
  }

  method AllDepsCompleted(deps: seq<Task>, excluded: set<Task>, completed: set<Task>) returns (all: bool)
    ensures all <==> forall d | d in deps && d !in excluded :: d in completed
  {
    for i := 0 to |deps|
      invariant forall j | 0 <= j < i :: deps[j] in excluded || deps[j] in completed
    {
      if deps[i] !in excluded && deps[i] !in completed {
        return false;
      }
    }
    return true;
  }

  /** A cycle of dependencies among the tasks of a set. */
  ghost predicate HasCycle(tasks: set<Task>, reg: Registry, excluded: set<Task>) {
    exists p :: IsCycle(tasks, reg, excluded, p)
  }

  ghost predicate IsCycle(tasks: set<Task>, reg: Registry, excluded: set<Task>, p: seq<Task>) {
    && 2 <= |p| && p[0] == p[|p| - 1]
    && Path(reg, excluded, p)
    && forall t | t in p :: t in tasks
  }

  /** The task waits for one of `s`. */
  ghost predicate WaitsFor(reg: Registry, excluded: set<Task>, s: iset<Task>, t: Task) {
    exists d :: d in s && Edge(reg, excluded, t, d)
  }

  /** Every task of the set waits for one of `others`. */
  ghost predicate AllWait(reg: Registry, excluded: set<Task>, s: set<Task>, others: iset<Task>) {
    forall t {:trigger WaitsFor(reg, excluded, others, t)} | t in s :: WaitsFor(reg, excluded, others, t)
  }

  ghost function Infinite(s: set<Task>): (tasks: iset<Task>) {
    iset t | t in s
  }

  /** A set whose every task waits for another of the set never gets a phase. */
  ghost predicate Stuck(reg: Registry, excluded: set<Task>, s: set<Task>) {
    s != {} && AllWait(reg, excluded, s, Infinite(s))
  }

  /** Plans the phases; fails exactly when some tasks wait for each other or for tasks outside the set. */
  method PlanPhasesExcluding(tasks: set<Task>, reg: Registry, excluded: set<Task>)
    returns (plan: Option<seq<set<Task>>>)
    requires tasks <= reg.Keys
    ensures plan.Some? ==> Layered(tasks, reg, excluded, plan.value) && Completed(plan.value) == tasks
    ensures plan.None? <==> exists s :: s != {} && s <= tasks && NeverReady(tasks, reg, excluded, s)
  {
    var completed: set<Task> := {};
    var phases: seq<set<Task>> := [];
    while |completed| < |tasks|
      invariant completed == Completed(phases) <= tasks
      invariant Layered(tasks, reg, excluded, phases)
      decreases tasks - completed
    {
      var phase := CollectReadyTasks(tasks, completed, reg, excluded);
      if phase == {} {
        NothingReady(tasks, completed, reg, excluded);
        return None;
      }
      LayeredAppend(tasks, reg, excluded, phases, phase);
      phases := phases + [phase];
      completed := completed + phase;
    }
    assert completed == tasks by {
      SubsetOfSameSize(completed, tasks);
    }
    forall s | s != {} && s <= tasks ensures !NeverReady(tasks, reg, excluded, s) {
      PlannedTasksGetReady(tasks, reg, excluded, phases, s);
    }
    return Some(phases);
  }

  /** Each of these tasks waits for one of them, or for a task outside the set being planned. */
  ghost predicate NeverReady(tasks: set<Task>, reg: Registry, excluded: set<Task>, s: set<Task>) {
    AllWait(reg, excluded, s, iset t | t in s || t !in tasks)
  }

  lemma NothingReady(tasks: set<Task>, completed: set<Task>, reg: Registry, excluded: set<Task>)
    requires tasks <= reg.Keys && completed <= tasks && |completed| < |tasks|
    requires forall t | t in tasks && t !in completed :: !Ready(reg, excluded, t, completed)
    ensures exists s :: s != {} && s <= tasks && NeverReady(tasks, reg, excluded, s)
  {
    var s := tasks - completed;
    assert tasks == completed + s;
    var others := iset t | t in s || t !in tasks;
    forall t | t in s ensures WaitsFor(reg, excluded, others, t) {
      var d :| d in reg[t] && d !in excluded && d !in completed;
      assert Edge(reg, excluded, t, d);
    }
    assert NeverReady(tasks, reg, excluded, s);
  }

  lemma SubsetOfSameSize<T>(a: set<T>, b: set<T>)
    requires a <= b && |b| <= |a|
    ensures a == b
  {
    assert b == a + (b - a);
    assert |b| == |a| + |b - a|;
  }

  lemma LayeredAppend(tasks: set<Task>, reg: Registry, excluded: set<Task>, plan: seq<set<Task>>, phase: set<Task>)
    requires tasks <= reg.Keys && Layered(tasks, reg, excluded, plan) && phase != {}
    requires forall t :: t in phase <==> t in tasks && t !in Completed(plan) && Ready(reg, excluded, t, Completed(plan))
    ensures Layered(tasks, reg, excluded, plan + [phase])
    ensures Completed(plan + [phase]) == Completed(plan) + phase
  {
    var longer := plan + [phase];
    assert longer[..|plan|] == plan;
    forall k | 0 <= k < |plan| ensures longer[..k] == plan[..k] {
    }
  }

  // ---------------------------------------------------------------------------
  // What a plan is

  lemma {:induction false} CompletedGrows(plan: seq<set<Task>>, j: nat, k: nat)
    requires j < k <= |plan|
    ensures plan[j] <= Completed(plan[..k])
    decreases k
  {
    assert plan[..k][..k - 1] == plan[..k - 1];
    if j < k - 1 {
      CompletedGrows(plan, j, k - 1);
    }
  }

  lemma {:induction false} PhaseOf(plan: seq<set<Task>>, t: Task) returns (k: nat)
    requires t in Completed(plan)
    ensures k < |plan| && t in plan[k]
  {
    if t in plan[|plan| - 1] {
      k := |plan| - 1;
    } else {
      k := PhaseOf(plan[..|plan| - 1], t);
    }
  }

  /** The task is in a phase before the `k`th. */
  ghost predicate Earlier(plan: seq<set<Task>>, t: Task, k: nat)
    requires k <= |plan|
  {
    exists j :: 0 <= j < k && t in plan[j]
  }

  lemma DependencyIsEarlier(tasks: set<Task>, reg: Registry, excluded: set<Task>, plan: seq<set<Task>>, k: nat,
                            t: Task, d: Task)
    requires tasks <= reg.Keys && Layered(tasks, reg, excluded, plan)
    requires k < |plan| && t in plan[k] && Edge(reg, excluded, t, d)
    ensures Earlier(plan, d, k)
  {
    assert Ready(reg, excluded, t, Completed(plan[..k]));
    var j := PhaseOf(plan[..k], d);
    assert plan[..k][j] == plan[j];
  }

  /** A plan places each task in exactly one phase, and each dependency in a strictly earlier one. */
  lemma PlanRespectsDependencies(tasks: set<Task>, reg: Registry, excluded: set<Task>, plan: seq<set<Task>>)
    requires tasks <= reg.Keys && Layered(tasks, reg, excluded, plan) && Completed(plan) == tasks
    ensures forall t | t in tasks :: Earlier(plan, t, |plan|)
    ensures forall j, k, t | 0 <= j < k < |plan| && t in plan[j] :: t !in plan[k]
    ensures forall k, t, d | 0 <= k < |plan| && t in plan[k] && Edge(reg, excluded, t, d) :: Earlier(plan, d, k)
  {
    forall t | t in tasks ensures Earlier(plan, t, |plan|) {
      var k := PhaseOf(plan, t);
    }
    forall j, k, t | 0 <= j < k < |plan| && t in plan[j] ensures t !in plan[k] {
      CompletedGrows(plan, j, k);
    }
    forall k, t, d | 0 <= k < |plan| && t in plan[k] && Edge(reg, excluded, t, d) ensures Earlier(plan, d, k) {
      DependencyIsEarlier(tasks, reg, excluded, plan, k, t, d);
    }
  }

  lemma {:induction false} PhaseOutsideNeverReady(tasks: set<Task>, reg: Registry, excluded: set<Task>,
                                                  plan: seq<set<Task>>, s: set<Task>, k: nat)
    requires tasks <= reg.Keys && Layered(tasks, reg, excluded, plan) && k < |plan|
    requires s <= tasks && NeverReady(tasks, reg, excluded, s)
    ensures plan[k] !! s
    decreases k
  {
    forall t | t in plan[k] ensures t !in s {
      if t in s {
        var others := iset u | u in s || u !in tasks;
        assert WaitsFor(reg, excluded, others, t);
        var d :| d in others && Edge(reg, excluded, t, d);
        assert Ready(reg, excluded, t, Completed(plan[..k]));
        var j := PhaseOf(plan[..k], d);
        assert d in plan[j] && d in tasks;
        PhaseOutsideNeverReady(tasks, reg, excluded, plan, s, j);
      }
    }
  }

  /** A set with a plan has no part that is never ready. */
  lemma PlannedTasksGetReady(tasks: set<Task>, reg: Registry, excluded: set<Task>, plan: seq<set<Task>>, s: set<Task>)
    requires tasks <= reg.Keys && Layered(tasks, reg, excluded, plan) && Completed(plan) == tasks
    requires s != {} && s <= tasks
    ensures !NeverReady(tasks, reg, excluded, s)
  {
    var t :| t in s;
    var k := PhaseOf(plan, t);
    if NeverReady(tasks, reg, excluded, s) {
      PhaseOutsideNeverReady(tasks, reg, excluded, plan, s, k);
    }
  }

  /** Phases assigned in any way that respects dependencies: `level[t]` is above that of every dependency. */
  ghost predicate RespectsDependencies(tasks: set<Task>, reg: Registry, excluded: set<Task>, level: map<Task, nat>) {
    && tasks <= level.Keys
    && forall t, d | t in tasks && d in tasks && Edge(reg, excluded, t, d) :: level[d] < level[t]
  }

  /** No assignment of phases runs any task earlier than the plan does. */
  lemma {:induction false} PlanIsEarliest(tasks: set<Task>, reg: Registry, excluded: set<Task>, plan: seq<set<Task>>,
                                          level: map<Task, nat>, k: nat)
    requires tasks <= reg.Keys && Layered(tasks, reg, excluded, plan) && Completed(plan) == tasks && k < |plan|
    requires RespectsDependencies(tasks, reg, excluded, level)
    ensures forall t | t in plan[k] :: t in tasks && k <= level[t]
    decreases k
  {
    if 0 < k {
      PlanIsEarliest(tasks, reg, excluded, plan, level, k - 1);
      assert plan[..k][..k - 1] == plan[..k - 1];
      forall t | t in plan[k] ensures k <= level[t] {
        // not ready one phase earlier, so it waits for a task of that phase
        assert t in tasks && t !in Completed(plan[..k - 1]);
        assert !Ready(reg, excluded, t, Completed(plan[..k - 1]));
        var d :| d in reg[t] && d !in excluded && d !in Completed(plan[..k - 1]);
        assert Ready(reg, excluded, t, Completed(plan[..k]));
        assert d in plan[k - 1] && d in tasks && Edge(reg, excluded, t, d);
      }
    }
  }

  // ---------------------------------------------------------------------------
  // Planning fails only on a real cycle

  /** Walking dependencies inside a stuck set gives a path as long as wanted. */
  lemma {:induction false} StuckWalk(reg: Registry, excluded: set<Task>, s: set<Task>, n: nat) returns (p: seq<Task>)
    requires Stuck(reg, excluded, s)
    ensures |p| == n + 1 && Path(reg, excluded, p) && forall t | t in p :: t in s
  {
    if n == 0 {
      var t :| t in s;
      p := [t];
    } else {
      var q := StuckWalk(reg, excluded, s, n - 1);
      var last := q[|q| - 1];
      assert last in q && WaitsFor(reg, excluded, Infinite(s), last);
      var d :| d in s && Edge(reg, excluded, last, d);
      p := q + [d];
    }
  }

  function Members(p: seq<Task>): (tasks: set<Task>) {
    set t | t in p
  }

  lemma {:induction false} DistinctSize(p: seq<Task>)
    requires forall a, b | 0 <= a < b < |p| :: p[a] != p[b]
    ensures |Members(p)| == |p|
  {
    if p != [] {
      var init, last := p[..|p| - 1], p[|p| - 1];
      DistinctSize(init);
      assert Members(p) == Members(init) + {last};
      assert last !in init;
    }
  }

  lemma SubsetSize<T>(a: set<T>, b: set<T>)
    requires a <= b
    ensures |a| <= |b|
  {
    assert b == a + (b - a);
  }

  /** A path longer than the set it stays in comes back to a task it has been at. */
  lemma StuckHasCycle(reg: Registry, excluded: set<Task>, s: set<Task>)
    requires Stuck(reg, excluded, s)
    ensures HasCycle(s, reg, excluded)
  {
    var p := StuckWalk(reg, excluded, s, |s|);
    var a, b := Repeats(p, s);
    var cycle := p[a..b + 1];
    assert Path(reg, excluded, cycle);
    assert IsCycle(s, reg, excluded, cycle);
  }

  lemma Repeats(p: seq<Task>, s: set<Task>) returns (a: nat, b: nat)
    requires |s| < |p| && forall t | t in p :: t in s
    ensures a < b < |p| && p[a] == p[b]
  {
    if forall a, b | 0 <= a < b < |p| :: p[a] != p[b] {
      DistinctSize(p);
      SubsetSize(Members(p), s);
      assert false;
    }
    a, b :| 0 <= a < b < |p| && p[a] == p[b];
  }

  /** A cycle among the tasks admits no plan. */
  lemma CycleHasNoPlan(tasks: set<Task>, reg: Registry, excluded: set<Task>, plan: seq<set<Task>>)
    requires tasks <= reg.Keys && Layered(tasks, reg, excluded, plan) && Completed(plan) == tasks
    ensures !HasCycle(tasks, reg, excluded)
  {
    if HasCycle(tasks, reg, excluded) {
      var p :| IsCycle(tasks, reg, excluded, p);
      assert p[0] in p;
      var k := PhaseOf(plan, p[0]);
      AlongPathPhasesFall(tasks, reg, excluded, plan, p, |p| - 1, k);
      var j :| 0 <= j < k && p[0] in plan[j];
      PlanRespectsDependencies(tasks, reg, excluded, plan);
    }
  }

  /** Following dependencies from phase `k`, every later task of the path is in a phase before `k`. */
  lemma {:induction false} AlongPathPhasesFall(tasks: set<Task>, reg: Registry, excluded: set<Task>,
                                               plan: seq<set<Task>>, p: seq<Task>, n: nat, k: nat)
    requires tasks <= reg.Keys && Layered(tasks, reg, excluded, plan) && Completed(plan) == tasks
    requires Path(reg, excluded, p) && 1 <= n < |p| && k < |plan| && p[0] in plan[k]
    ensures Earlier(plan, p[n], k)
    decreases n
  {
    var j := k;
    if 1 < n {
      AlongPathPhasesFall(tasks, reg, excluded, plan, p, n - 1, k);
      j :| 0 <= j < k && p[n - 1] in plan[j];
    }
    assert Edge(reg, excluded, p[n - 1], p[n]);
    DependencyIsEarlier(tasks, reg, excluded, plan, j, p[n - 1], p[n]);
  }

  lemma NeverReadyHasCycle(tasks: set<Task>, reg: Registry, excluded: set<Task>, s: set<Task>)
    requires Closed(reg, excluded, tasks) && s != {} && s <= tasks && NeverReady(tasks, reg, excluded, s)
    ensures HasCycle(tasks, reg, excluded)
  {
    forall t | t in s ensures WaitsFor(reg, excluded, Infinite(s), t) {
      var others := iset u | u in s || u !in tasks;
      assert WaitsFor(reg, excluded, others, t);
      var d :| d in others && Edge(reg, excluded, t, d);
      assert d in tasks;
    }
    StuckHasCycle(reg, excluded, s);
    var p :| IsCycle(s, reg, excluded, p);
    assert IsCycle(tasks, reg, excluded, p);
  }

  /**
   * Resolving and then planning with one set of exclusions fails exactly when a task
   * is missing or the tasks needed really depend on each other in a cycle: leaving
   * excluded tasks out never makes up a cycle.
   */
  method BuildPlan(targets: seq<Task>, reg: Registry, excluded: set<Task>)
    returns (tasks: Option<set<Task>>, plan: Option<seq<set<Task>>>)
    ensures tasks.None? <==> SomeTaskMissing(reg, excluded, targets)
    ensures tasks.None? ==> plan.None?
    ensures tasks.Some? ==> IsClosure(reg, excluded, targets, tasks.value)
    ensures tasks.Some? ==> (plan.None? <==> HasCycle(tasks.value, reg, excluded))
    ensures plan.Some? ==> Layered(tasks.value, reg, excluded, plan.value) && Completed(plan.value) == tasks.value
  {
    tasks := ResolveDependenciesExcluding(targets, reg, excluded);
    plan := None;
    if tasks.Some? {
      plan := PlanPhasesExcluding(tasks.value, reg, excluded);
      if plan.None? {
        ghost var s :| s != {} && s <= tasks.value && NeverReady(tasks.value, reg, excluded, s);
        NeverReadyHasCycle(tasks.value, reg, excluded, s);
      } else {
        CycleHasNoPlan(tasks.value, reg, excluded, plan.value);
      }
    }
  }
}
