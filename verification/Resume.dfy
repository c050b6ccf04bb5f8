/**
 * The extract as a protocol: tasks and projects interleaving in any order, failures,
 * outages, and resumed runs in one extract directory. What must survive is that a
 * done marker can be believed.
 */
module Resume {
  import opened Wrappers
  import opened Executor
  import Planner

  /** One unit a task fans out over; `project` is absent for a rule, a user, a profile. */
  datatype Item = Item(project: Option<Project>, id: nat)

  /** An item's data on disk, whether it is all of it, and the run that wrote it. */
  datatype Output = Output(item: Item, complete: bool, run: nat)

  /** What is fixed across attempts: the plan in phase order, the dependencies, each task's items. */
  datatype Job = Job(plan: seq<set<Task>>, deps: map<Task, set<Task>>, work: map<Task, set<Item>>) {
    ghost predicate Valid() {
      && (forall t | t in Planned() :: t in work && t in deps)
      && (forall k, t, d | 0 <= k < |plan| && t in plan[k] && t in deps && d in deps[t] ::
            exists j :: 0 <= j < k && d in plan[j])
    }

    function Planned(): (all: set<Task>)
      ensures forall t :: t in all <==> exists k :: 0 <= k < |plan| && t in plan[k]
    {
      set k, t | 0 <= k < |plan| && t in plan[k] :: t
    }
  }

  /**
   * How far a task got in this run: the items it is through with, how many of its
   * items are between completing a failure streak and ending the outage, and whether
   * an item stopped it. A stopped task's other items go on until they return.
   */
  datatype Status =
    | Running(settled: set<Item>, stopping: nat, stopped: bool)
    | Returned(ok: bool)

  /** The extract directory: done markers, the failed projects list, and the tasks' output. */
  datatype Directory = Directory(done: set<Task>, saved: set<Project>, output: map<Task, set<Output>>)

  /** The run under way: its number, the tasks it has to run, its phase, and each started task's status. */
  datatype Attempt = Attempt(active: bool, run: nat, toRun: set<Task>, cursor: nat, status: map<Task, Status>)

  datatype World = World(dir: Directory, attempt: Attempt, failures: Failures)

  datatype Step =
    | StartRun
    | Begin(task: Task)
    | Write(task: Task, item: Item)
    | Process(task: Task, item: Item)
    | Skip(task: Task, item: Item)
    | Fail(task: Task, item: Item, error: string)
    | EndOutage(task: Task)
    | Succeed
    | Abort(task: Task)
    | Return(task: Task)
    | Finish(task: Task)
    | NextPhase
    | EndRun

  const NO_FAILURES := Failures(map[], 0, [], [], false)

  /** A new extract directory, before its first run. */
  const FRESH := World(Directory({}, {}, map[]), Attempt(false, 0, {}, 0, map[]), NO_FAILURES)

  predicate InPhase(job: Job, a: Attempt, t: Task) {
    a.cursor < |job.plan| && t in job.plan[a.cursor]
  }

  predicate IsRunning(a: Attempt, t: Task) {
    a.active && t in a.status && a.status[t].Running?
  }

  /** An item of a running task that is still to be settled, stopped or not. */
  predicate Open(job: Job, a: Attempt, t: Task, i: Item) {
    IsRunning(a, t) && t in job.work && i in job.work[t] && i !in a.status[t].settled
  }

  predicate Enabled(job: Job, w: World, s: Step) {
    var a := w.attempt;
    match s
    case StartRun => !a.active
    case Begin(t) => a.active && InPhase(job, a, t) && t in a.toRun && t !in a.status
    case Write(t, i) => Open(job, a, t, i)
    case Process(t, i) => Open(job, a, t, i)
    case Skip(t, i) => Open(job, a, t, i) && i.project.Some? && i.project.value in w.failures.failed
    case Fail(t, i, _) => Open(job, a, t, i) && i.project.Some?
    case EndOutage(t) => IsRunning(a, t) && 0 < a.status[t].stopping
    case Succeed => a.active
    case Abort(t) => IsRunning(a, t)
    case Return(t) => IsRunning(a, t) && a.status[t].stopped && a.status[t].stopping == 0
    case Finish(t) =>
      && IsRunning(a, t) && !a.status[t].stopped && a.status[t].stopping == 0
      && t in job.work && a.status[t].settled == job.work[t]
    case NextPhase =>
      && a.active && a.cursor < |job.plan|
      && forall t | t in job.plan[a.cursor] && t in a.toRun :: t in a.status && a.status[t] == Returned(true)
    case EndRun => a.active && forall t | t in a.status :: a.status[t].Returned?
  }

  function OutputOf(dir: Directory, t: Task): (output: set<Output>) {
    if t in dir.output then dir.output[t] else {}
  }

  function WithStatus(a: Attempt, t: Task, s: Status): (after: Attempt) {
    a.(status := a.status[t := s])
  }

  function Settled(a: Attempt, t: Task, i: Item): (after: Attempt)
    requires t in a.status && a.status[t].Running?
  {
    WithStatus(a, t, a.status[t].(settled := a.status[t].settled + {i}))
  }

  function Stopping(a: Attempt, t: Task): (after: Attempt)
    requires t in a.status && a.status[t].Running?
  {
    WithStatus(a, t, a.status[t].(stopping := a.status[t].stopping + 1))
  }

  function Written(dir: Directory, t: Task, o: Output): (after: Directory) {
    dir.(output := dir.output[t := OutputOf(dir, t) + {o}])
  }

  /** The failures an earlier attempt saved, restored without their streak. */
  function Restored(saved: set<Project>): (failures: Failures) {
    NO_FAILURES.(failed := map p | p in saved :: FailedProject(p, "", ""))
  }

  /** A failure that brings the streak to the limit. */
  predicate CompletesStreak(f: Failures, p: Project) {
    f.IsNewFailure(p) && MAX_CONSECUTIVE_PROJECT_FAILURES <= f.failStreak + 1
  }

  function Apply(job: Job, w: World, s: Step): (after: World)
    requires Enabled(job, w, s)
  {
    var (dir, a, f) := (w.dir, w.attempt, w.failures);
    match s
    case StartRun =>
      // finished tasks are dropped from the plan; the partial output of the others is deleted
      var toRun := job.Planned() - dir.done;
      World(dir.(output := map t | t in dir.output && t !in toRun :: dir.output[t]),
            Attempt(true, a.run + 1, toRun, 0, map[]),
            Restored(dir.saved))
    case Begin(t) => w.(attempt := WithStatus(a, t, Running({}, 0, false)))
    case Write(t, i) => w.(dir := Written(dir, t, Output(i, false, a.run)))
    case Process(t, i) => w.(dir := Written(dir, t, Output(i, true, a.run)), attempt := Settled(a, t, i))
    case Skip(t, i) => w.(attempt := Settled(a, t, i))
    case Fail(t, i, error) =>
      w.(failures := f.AfterFailure(i.project.value, t, error),
         attempt := if CompletesStreak(f, i.project.value) then Stopping(a, t) else Settled(a, t, i))
    case EndOutage(t) =>
      World(dir.(done := f.DoneAfterOutage(dir.done)),
            WithStatus(a, t, a.status[t].(stopping := a.status[t].stopping - 1, stopped := true)),
            f.AfterOutage())
    case Succeed => w.(failures := f.AfterSuccess())
    case Abort(t) => w.(attempt := WithStatus(a, t, a.status[t].(stopped := true)))
    case Return(t) => w.(attempt := WithStatus(a, t, Returned(false)))
    case Finish(t) =>
      World(dir.(done := f.DoneAfterDone(dir.done, t)), WithStatus(a, t, Returned(true)), f.AfterDone(t))
    case NextPhase => w.(attempt := a.(cursor := a.cursor + 1))
    case EndRun => w.(dir := dir.(saved := f.failed.Keys), attempt := a.(active := false))
  }

  predicate IsRun(job: Job, w: World, steps: seq<Step>)
    decreases |steps|
  {
    steps == [] || (Enabled(job, w, steps[0]) && IsRun(job, Apply(job, w, steps[0]), steps[1..]))
  }

  function Run(job: Job, w: World, steps: seq<Step>): (after: World)
    requires IsRun(job, w, steps)
    decreases |steps|
  {
    if steps == [] then w else Run(job, Apply(job, w, steps[0]), steps[1..])
  }

  // ---------------------------------------------------------------------------
  // What a done marker promises

  /** All the item's data is in the task's output, or its project is among those left out. */
  ghost predicate Accounted(dir: Directory, t: Task, i: Item, leftOut: set<Project>) {
    || (exists o :: o in OutputOf(dir, t) && o.item == i && o.complete)
    || (i.project.Some? && i.project.value in leftOut)
  }

  ghost predicate AllAccounted(dir: Directory, t: Task, items: set<Item>, leftOut: set<Project>) {
    forall i | i in items :: Accounted(dir, t, i, leftOut)
  }

  ghost predicate OneAttempt(dir: Directory, t: Task) {
    forall o, o' | o in OutputOf(dir, t) && o' in OutputOf(dir, t) :: o.run == o'.run
  }

  ghost predicate ClosedUnderDependencies(job: Job, done: set<Task>) {
    forall t, d | t in done && t in job.deps && d in job.deps[t] :: d in done
  }

  /**
   * The directory between runs can be believed: a done task processed every item
   * completely or the item's project is in the saved list, its dependencies are done
   * too, and its output comes from one attempt.
   */
  ghost predicate Believable(job: Job, dir: Directory) {
    && dir.done <= job.Planned()
    && (forall t | t in dir.done && t in job.work :: AllAccounted(dir, t, job.work[t], dir.saved))
    && ClosedUnderDependencies(job, dir.done)
    && (forall t | t in dir.done :: OneAttempt(dir, t))
  }

  // ---------------------------------------------------------------------------
  // What every step keeps

  /** The projects a done task may count on staying left out, whatever an outage takes back. */
  ghost function LeftOut(f: Failures, t: Task): (projects: set<Project>) {
    if t in f.doneInStreak then f.failed.Keys else f.failed.Keys - Elements(f.streakKeys)
  }

  ghost predicate StreakConsistent(f: Failures, done: set<Task>) {
    && (f.outage ==> f.doneInStreak == [])
    && (!f.outage && f.failStreak == 0 ==> f.streakKeys == [] && f.doneInStreak == [])
    && (forall t | t in f.doneInStreak :: t in done)
  }

  ghost predicate DoneIsSound(job: Job, dir: Directory, f: Failures) {
    forall t | t in dir.done && t in job.work :: AllAccounted(dir, t, job.work[t], LeftOut(f, t))
  }

  /** A running task settled only items it processed or whose project is left out, until an outage. */
  ghost predicate RunningIsSound(job: Job, w: World) {
    forall t | t in w.attempt.status && w.attempt.status[t].Running? && !w.failures.outage ::
      AllAccounted(w.dir, t, w.attempt.status[t].settled, w.failures.failed.Keys)
  }

  /** A task that depends on one finished during the streak finished during it too. */
  ghost predicate StreakIsSuffix(job: Job, done: set<Task>, f: Failures) {
    forall t, d | t in done && t !in f.doneInStreak && t in job.deps && d in job.deps[t] :: d !in f.doneInStreak
  }

  ghost predicate PhasesInOrder(job: Job, w: World) {
    var a := w.attempt;
    && a.cursor <= |job.plan|
    && (forall t | t in a.status :: t in a.toRun)
    && (forall t | t in a.status && !a.status[t].Returned? :: InPhase(job, a, t))
    && (forall t | t in a.toRun && t in w.dir.done :: t in a.status && a.status[t] == Returned(true))
    && (!w.failures.outage ==>
          && (forall t | t in job.Planned() && t !in a.toRun :: t in w.dir.done)
          && (forall t | t in a.status && a.status[t] == Returned(true) :: t in w.dir.done)
          && (forall j, t | 0 <= j < a.cursor && t in job.plan[j] :: t in w.dir.done))
  }

  ghost predicate OutputIsFresh(job: Job, w: World) {
    && (forall t | t in w.dir.done :: OneAttempt(w.dir, t))
    && (forall t, o | t in w.attempt.toRun && o in OutputOf(w.dir, t) :: o.run == w.attempt.run)
  }

  ghost predicate Invariant(job: Job, w: World) {
    if !w.attempt.active then Believable(job, w.dir)
    else
      && w.dir.done <= job.Planned()
      && StreakConsistent(w.failures, w.dir.done)
      && DoneIsSound(job, w.dir, w.failures)
      && RunningIsSound(job, w)
      && ClosedUnderDependencies(job, w.dir.done)
      && StreakIsSuffix(job, w.dir.done, w.failures)
      && PhasesInOrder(job, w)
      && OutputIsFresh(job, w)
  }

  /**
   * Starting a run is what filtering its plan does: the same tasks are left, and the
   * same output.
   */
  lemma StartingIsFiltering(job: Job, w: World, plan: seq<seq<Task>>)
    requires Enabled(job, w, StartRun)
    requires |plan| == |job.plan| && forall k | 0 <= k < |plan| :: Elements(plan[k]) == job.plan[k]
    ensures var v := Apply(job, w, StartRun);
            && v.attempt.toRun == TasksOf(Unfinished(plan, w.dir.done))
            && v.dir.output.Keys == w.dir.output.Keys - (TasksOf(plan) - w.dir.done)
  {
    UnfinishedTasks(plan, w.dir.done);
    forall t ensures t in TasksOf(plan) <==> t in job.Planned() {
      if t in TasksOf(plan) {
        var k :| 0 <= k < |plan| && t in plan[k];
        assert t in job.plan[k];
      }
      if t in job.Planned() {
        var k :| 0 <= k < |job.plan| && t in job.plan[k];
        assert t in Elements(plan[k]);
      }
    }
  }

  lemma StartKeeps(job: Job, w: World)
    requires job.Valid() && Invariant(job, w) && Enabled(job, w, StartRun)
    ensures Invariant(job, Apply(job, w, StartRun))
  {
    var v := Apply(job, w, StartRun);
    forall t | t in v.dir.done ensures OutputOf(v.dir, t) == OutputOf(w.dir, t) {
    }
    forall t | t in v.dir.done && t in job.work ensures AllAccounted(v.dir, t, job.work[t], LeftOut(v.failures, t)) {
      assert AllAccounted(w.dir, t, job.work[t], w.dir.saved);
      assert LeftOut(v.failures, t) == w.dir.saved;
    }
  }

  /** Writing more output and leaving out more projects keeps everything accounted for. */
  lemma AccountedGrows(dir: Directory, dir': Directory, t: Task, items: set<Item>, left: set<Project>,
                       left': set<Project>)
    requires AllAccounted(dir, t, items, left) && left <= left'
    requires OutputOf(dir, t) <= OutputOf(dir', t)
    ensures AllAccounted(dir', t, items, left')
  {
    forall i | i in items ensures Accounted(dir', t, i, left') {
      assert Accounted(dir, t, i, left);
    }
  }

  /** Output written for an unsettled item is this run's, and its task is not done. */
  lemma WriterIsNotDone(job: Job, w: World, t: Task, i: Item)
    requires job.Valid() && Invariant(job, w) && Open(job, w.attempt, t, i)
    ensures t in w.attempt.toRun && t !in w.dir.done
  {
  }

  lemma WriteKeepsSound(job: Job, w: World, s: Step)
    requires job.Valid() && Invariant(job, w) && Enabled(job, w, s) && (s.Write? || s.Process?)
    ensures var v := Apply(job, w, s); DoneIsSound(job, v.dir, v.failures) && RunningIsSound(job, v)
  {
    var v := Apply(job, w, s);
    assert s.Process? ==> Output(s.item, true, w.attempt.run) in OutputOf(v.dir, s.task);
    forall u, items: set<Item>, left: set<Project> | AllAccounted(w.dir, u, items, left)
      ensures AllAccounted(v.dir, u, items, left)
    {
      AccountedGrows(w.dir, v.dir, u, items, left, left);
    }
  }

  lemma WriteKeepsFresh(job: Job, w: World, s: Step)
    requires job.Valid() && Invariant(job, w) && Enabled(job, w, s) && (s.Write? || s.Process?)
    ensures OutputIsFresh(job, Apply(job, w, s))
  {
    var v := Apply(job, w, s);
    WriterIsNotDone(job, w, s.task, s.item);
    assert forall u | u != s.task :: OutputOf(v.dir, u) == OutputOf(w.dir, u);
    forall u | u in v.dir.done ensures OneAttempt(v.dir, u) {
      assert OneAttempt(w.dir, u);
    }
  }

  lemma WriteKeeps(job: Job, w: World, s: Step)
    requires job.Valid() && Invariant(job, w) && Enabled(job, w, s) && (s.Write? || s.Process?)
    ensures Invariant(job, Apply(job, w, s))
  {
    WriteKeepsSound(job, w, s);
    WriteKeepsFresh(job, w, s);
    WriterIsNotDone(job, w, s.task, s.item);
  }

  /** A step that writes nothing keeps the output fresh when the tasks it marks done have theirs from one attempt. */
  lemma SameOutputStaysFresh(job: Job, w: World, v: World)
    requires OutputIsFresh(job, w) && v.dir.output == w.dir.output
    requires v.attempt.toRun == w.attempt.toRun && v.attempt.run == w.attempt.run
    requires forall t | t in v.dir.done :: t in w.dir.done || t in w.attempt.toRun
    ensures OutputIsFresh(job, v)
  {
    forall t ensures OutputOf(v.dir, t) == OutputOf(w.dir, t) {
    }
    forall t | t in v.dir.done ensures OneAttempt(v.dir, t) {
      assert t in w.dir.done ==> OneAttempt(w.dir, t);
    }
  }

  /** A running task may change its status to anything short of success. */
  lemma RunningStaysInPhase(job: Job, w: World, v: World, t: Task)
    requires PhasesInOrder(job, w) && IsRunning(w.attempt, t)
    requires t in v.attempt.status && v.attempt.status[t] != Returned(true)
    requires v.attempt == WithStatus(w.attempt, t, v.attempt.status[t])
    requires v.dir.done == w.dir.done && v.failures.outage == w.failures.outage
    ensures PhasesInOrder(job, v)
  {
  }

  lemma FailKeepsDone(job: Job, w: World, t: Task, i: Item, error: string)
    requires job.Valid() && Invariant(job, w) && Enabled(job, w, Fail(t, i, error))
    ensures var v := Apply(job, w, Fail(t, i, error)); DoneIsSound(job, v.dir, v.failures)
  {
    var v := Apply(job, w, Fail(t, i, error));
    forall u | u in w.dir.done && u in job.work ensures AllAccounted(v.dir, u, job.work[u], LeftOut(v.failures, u)) {
      AccountedGrows(w.dir, v.dir, u, job.work[u], LeftOut(w.failures, u), LeftOut(v.failures, u));
    }
  }

  lemma FailKeepsRunning(job: Job, w: World, t: Task, i: Item, error: string)
    requires job.Valid() && Invariant(job, w) && Enabled(job, w, Fail(t, i, error))
    ensures RunningIsSound(job, Apply(job, w, Fail(t, i, error)))
  {
    var v := Apply(job, w, Fail(t, i, error));
    assert w.failures.failed.Keys <= v.failures.failed.Keys && i.project.value in v.failures.failed.Keys;
  }

  lemma FailKeeps(job: Job, w: World, t: Task, i: Item, error: string)
    requires job.Valid() && Invariant(job, w) && Enabled(job, w, Fail(t, i, error))
    ensures Invariant(job, Apply(job, w, Fail(t, i, error)))
  {
    FailKeepsDone(job, w, t, i, error);
    FailKeepsRunning(job, w, t, i, error);
    RunningStaysInPhase(job, w, Apply(job, w, Fail(t, i, error)), t);
    SameOutputStaysFresh(job, w, Apply(job, w, Fail(t, i, error)));
  }

  /** What is taken back: a task that may count on a project of the streak loses its marker. */
  lemma EndOutageKeepsDone(job: Job, w: World, t: Task)
    requires job.Valid() && Invariant(job, w) && Enabled(job, w, EndOutage(t))
    ensures var v := Apply(job, w, EndOutage(t)); DoneIsSound(job, v.dir, v.failures)
  {
    var v := Apply(job, w, EndOutage(t));
    forall u | u in v.dir.done ensures LeftOut(v.failures, u) == LeftOut(w.failures, u) {
      assert u !in w.failures.doneInStreak;
      assert LeftOut(v.failures, u) == v.failures.failed.Keys;
    }
  }

  lemma EndOutageKeepsPhases(job: Job, w: World, t: Task)
    requires job.Valid() && Invariant(job, w) && Enabled(job, w, EndOutage(t))
    ensures PhasesInOrder(job, Apply(job, w, EndOutage(t)))
  {
  }

  lemma EndOutageKeeps(job: Job, w: World, t: Task)
    requires job.Valid() && Invariant(job, w) && Enabled(job, w, EndOutage(t))
    ensures Invariant(job, Apply(job, w, EndOutage(t)))
  {
    EndOutageKeepsDone(job, w, t);
    EndOutageKeepsPhases(job, w, t);
    SameOutputStaysFresh(job, w, Apply(job, w, EndOutage(t)));
  }

  lemma SucceedKeeps(job: Job, w: World)
    requires job.Valid() && Invariant(job, w) && Enabled(job, w, Succeed)
    ensures Invariant(job, Apply(job, w, Succeed))
  {
    var v := Apply(job, w, Succeed);
    forall u ensures LeftOut(w.failures, u) <= LeftOut(v.failures, u) {
    }
  }

  /** A task that may be marked done waits for nothing: its dependencies are all done. */
  lemma FinisherIsReady(job: Job, w: World, t: Task)
    requires job.Valid() && Invariant(job, w) && Enabled(job, w, Finish(t)) && !w.failures.outage
    ensures t in job.Planned() && t !in w.dir.done
    ensures forall d | d in job.deps[t] :: d in w.dir.done
  {
    assert InPhase(job, w.attempt, t);
    forall d | d in job.deps[t] ensures d in w.dir.done {
      var j :| 0 <= j < w.attempt.cursor && d in job.plan[j];
    }
  }

  lemma FinishKeepsDone(job: Job, w: World, t: Task)
    requires job.Valid() && Invariant(job, w) && Enabled(job, w, Finish(t)) && !w.failures.outage
    ensures var v := Apply(job, w, Finish(t)); DoneIsSound(job, v.dir, v.failures)
  {
    var v := Apply(job, w, Finish(t));
    FinisherIsReady(job, w, t);
    assert LeftOut(v.failures, t) == w.failures.failed.Keys;
    assert AllAccounted(w.dir, t, job.work[t], w.failures.failed.Keys);
    forall u | u in v.dir.done && u in job.work ensures AllAccounted(v.dir, u, job.work[u], LeftOut(v.failures, u)) {
      if u != t {
        assert LeftOut(v.failures, u) == LeftOut(w.failures, u);
      }
    }
  }

  lemma FinishKeepsRunning(job: Job, w: World, t: Task)
    requires job.Valid() && Invariant(job, w) && Enabled(job, w, Finish(t)) && !w.failures.outage
    ensures RunningIsSound(job, Apply(job, w, Finish(t)))
  {
  }

  lemma FinishKeepsDependencies(job: Job, w: World, t: Task)
    requires job.Valid() && Invariant(job, w) && Enabled(job, w, Finish(t)) && !w.failures.outage
    ensures ClosedUnderDependencies(job, Apply(job, w, Finish(t)).dir.done)
  {
    FinisherIsReady(job, w, t);
  }

  lemma FinishKeepsStreak(job: Job, w: World, t: Task)
    requires job.Valid() && Invariant(job, w) && Enabled(job, w, Finish(t)) && !w.failures.outage
    ensures var v := Apply(job, w, Finish(t));
            StreakIsSuffix(job, v.dir.done, v.failures) && StreakConsistent(v.failures, v.dir.done)
  {
    FinisherIsReady(job, w, t);
  }

  lemma FinishKeepsPhases(job: Job, w: World, t: Task)
    requires job.Valid() && Invariant(job, w) && Enabled(job, w, Finish(t)) && !w.failures.outage
    ensures PhasesInOrder(job, Apply(job, w, Finish(t)))
  {
  }

  lemma FinishKeepsFresh(job: Job, w: World, t: Task)
    requires job.Valid() && Invariant(job, w) && Enabled(job, w, Finish(t)) && !w.failures.outage
    ensures OutputIsFresh(job, Apply(job, w, Finish(t)))
  {
    assert t in w.attempt.toRun;
    SameOutputStaysFresh(job, w, Apply(job, w, Finish(t)));
  }

  lemma FinishKeeps(job: Job, w: World, t: Task)
    requires job.Valid() && Invariant(job, w) && Enabled(job, w, Finish(t))
    ensures Invariant(job, Apply(job, w, Finish(t)))
  {
    if !w.failures.outage {
      FinisherIsReady(job, w, t);
      FinishKeepsDone(job, w, t);
      FinishKeepsRunning(job, w, t);
      FinishKeepsDependencies(job, w, t);
      FinishKeepsStreak(job, w, t);
      FinishKeepsPhases(job, w, t);
      FinishKeepsFresh(job, w, t);
    }
  }

  lemma NextPhaseKeeps(job: Job, w: World)
    requires job.Valid() && Invariant(job, w) && Enabled(job, w, NextPhase)
    ensures Invariant(job, Apply(job, w, NextPhase))
  {
    forall t | t in job.plan[w.attempt.cursor] && t !in w.attempt.toRun ensures t in job.Planned() {
    }
  }

  lemma EndRunKeeps(job: Job, w: World)
    requires job.Valid() && Invariant(job, w) && Enabled(job, w, EndRun)
    ensures Invariant(job, Apply(job, w, EndRun))
  {
    forall t ensures LeftOut(w.failures, t) <= w.failures.failed.Keys {
    }
  }

  lemma StatusKeepsSound(job: Job, w: World, s: Step)
    requires job.Valid() && Invariant(job, w) && Enabled(job, w, s)
    requires s.Begin? || s.Skip? || s.Abort? || s.Return?
    ensures var v := Apply(job, w, s); DoneIsSound(job, v.dir, v.failures) && RunningIsSound(job, v)
  {
  }

  lemma StatusKeeps(job: Job, w: World, s: Step)
    requires job.Valid() && Invariant(job, w) && Enabled(job, w, s)
    requires s.Begin? || s.Skip? || s.Abort? || s.Return?
    ensures Invariant(job, Apply(job, w, s))
  {
    StatusKeepsSound(job, w, s);
    SameOutputStaysFresh(job, w, Apply(job, w, s));
    if !s.Begin? {
      RunningStaysInPhase(job, w, Apply(job, w, s), s.task);
    }
  }

  lemma StepKeepsInvariant(job: Job, w: World, s: Step)
    requires job.Valid() && Invariant(job, w) && Enabled(job, w, s)
    ensures Invariant(job, Apply(job, w, s))
  {
    match s
    case StartRun => StartKeeps(job, w);
    case Begin(t) => StatusKeeps(job, w, s);
    case Write(t, i) => WriteKeeps(job, w, s);
    case Process(t, i) => WriteKeeps(job, w, s);
    case Skip(t, i) => StatusKeeps(job, w, s);
    case Fail(t, i, error) => FailKeeps(job, w, t, i, error);
    case EndOutage(t) => EndOutageKeeps(job, w, t);
    case Succeed => SucceedKeeps(job, w);
    case Abort(t) => StatusKeeps(job, w, s);
    case Return(t) => StatusKeeps(job, w, s);
    case Finish(t) => FinishKeeps(job, w, t);
    case NextPhase => NextPhaseKeeps(job, w);
    case EndRun => EndRunKeeps(job, w);
  }

  lemma {:induction false} EveryRunKeepsInvariant(job: Job, w: World, steps: seq<Step>)
    requires job.Valid() && Invariant(job, w) && IsRun(job, w, steps)
    ensures Invariant(job, Run(job, w, steps))
    decreases |steps|
  {
    if steps != [] {
      StepKeepsInvariant(job, w, steps[0]);
      EveryRunKeepsInvariant(job, Apply(job, w, steps[0]), steps[1..]);
    }
  }

  /**
   * Over any sequence of attempts in one directory, with any interleaving of tasks,
   * projects, failures, successes and outages, the directory is believable whenever no
   * run is under way.
   */
  lemma DoneMarkersCanBeBelieved(job: Job, steps: seq<Step>)
    requires job.Valid() && IsRun(job, FRESH, steps)
    ensures var w := Run(job, FRESH, steps); !w.attempt.active ==> Believable(job, w.dir)
  {
    EveryRunKeepsInvariant(job, FRESH, steps);
  }

  // ---------------------------------------------------------------------------
  // Exactly what a run leaves out and marks done

  /** The steps of one run, between its start and its end. */
  predicate WithinRun(steps: seq<Step>) {
    forall k | 0 <= k < |steps| :: !steps[k].StartRun? && !steps[k].EndRun?
  }

  lemma {:induction false} RunLast(job: Job, w: World, init: seq<Step>, last: Step)
    requires IsRun(job, w, init + [last])
    ensures IsRun(job, w, init) && Enabled(job, Run(job, w, init), last)
    ensures Run(job, w, init + [last]) == Apply(job, Run(job, w, init), last)
    decreases |init|
  {
    var steps := init + [last];
    if init == [] {
      assert steps[1..] == [];
    } else {
      assert steps[1..] == init[1..] + [last];
      RunLast(job, Apply(job, w, init[0]), init[1..], last);
    }
  }

  predicate Fails(s: Step, p: Project) {
    s.Fail? && s.item.project == Some(p)
  }

  /** Some request succeeded after step `k` and before step `j`. */
  ghost predicate SuccessBetween(steps: seq<Step>, k: int, j: int) {
    exists s :: 0 <= s < |steps| && k < s < j && steps[s].Succeed?
  }

  /** No outage that ended after step `k` takes back what happened there: a success came in between. */
  ghost predicate Confirmed(steps: seq<Step>, k: int) {
    forall j | 0 <= j < |steps| && k < j && steps[j].EndOutage? :: SuccessBetween(steps, k, j)
  }

  /** The project failed, and no outage took it back. */
  ghost predicate FailedForGood(steps: seq<Step>, p: Project) {
    exists k :: 0 <= k < |steps| && Fails(steps[k], p) && Confirmed(steps, k)
  }

  /** It failed before the latest success, and no outage took it back. */
  ghost predicate FailedBeforeSuccess(steps: seq<Step>, p: Project) {
    exists k :: 0 <= k < |steps| && Fails(steps[k], p) && Confirmed(steps, k) && SuccessBetween(steps, k, |steps|)
  }

  /** What the failure state says about the steps that led to it. */
  ghost predicate Explained(f: Failures, saved: set<Project>, steps: seq<Step>) {
    && (f.streakKeys != [] ==> 0 < f.failStreak)
    && (forall p :: p in f.failed <==> p in saved || FailedForGood(steps, p))
    && (forall p | p in f.streakKeys :: p !in saved && !FailedBeforeSuccess(steps, p))
    && (forall p | p in f.failed && p !in saved && p !in f.streakKeys :: FailedBeforeSuccess(steps, p))
  }

  lemma SuccessStays(steps: seq<Step>, s: Step, k: int, j: int)
    requires j <= |steps|
    ensures SuccessBetween(steps + [s], k, j) <==> SuccessBetween(steps, k, j)
  {
    if SuccessBetween(steps, k, j) {
      var m :| 0 <= m < |steps| && k < m < j && steps[m].Succeed?;
      assert (steps + [s])[m] == steps[m];
    }
    if SuccessBetween(steps + [s], k, j) {
      var m :| 0 <= m < |steps + [s]| && k < m < j && (steps + [s])[m].Succeed?;
      assert steps[m].Succeed?;
    }
  }

  /** One more step leaves a step confirmed, unless it ends an outage and nothing succeeded since. */
  lemma ConfirmedByLast(steps: seq<Step>, s: Step, k: int)
    requires 0 <= k < |steps|
    ensures Confirmed(steps + [s], k) <==>
              Confirmed(steps, k) && (s.EndOutage? ==> SuccessBetween(steps, k, |steps|))
  {
    var more := steps + [s];
    forall j | 0 <= j <= |steps| ensures SuccessBetween(more, k, j) <==> SuccessBetween(steps, k, j) {
      SuccessStays(steps, s, k, j);
    }
    assert forall j | 0 <= j < |steps| :: more[j] == steps[j];
    if Confirmed(more, k) {
      forall j | 0 <= j < |steps| && k < j && steps[j].EndOutage? ensures SuccessBetween(steps, k, j) {
        assert more[j].EndOutage?;
      }
      if s.EndOutage? {
        assert more[|steps|].EndOutage?;
      }
    }
  }

  lemma SuccessByLast(steps: seq<Step>, s: Step, k: int)
    requires 0 <= k < |steps|
    ensures SuccessBetween(steps + [s], k, |steps| + 1) <==> SuccessBetween(steps, k, |steps|) || s.Succeed?
  {
    var more := steps + [s];
    if SuccessBetween(steps, k, |steps|) {
      var m :| 0 <= m < |steps| && k < m < |steps| && steps[m].Succeed?;
      assert more[m].Succeed?;
    }
    if s.Succeed? {
      assert more[|steps|].Succeed?;
    }
    if SuccessBetween(more, k, |steps| + 1) && !s.Succeed? {
      var m :| 0 <= m < |more| && k < m < |steps| + 1 && more[m].Succeed?;
      assert steps[m].Succeed?;
    }
  }

  lemma ForGoodByLast(steps: seq<Step>, s: Step, p: Project)
    ensures FailedForGood(steps + [s], p) <==>
              Fails(s, p) || (if s.EndOutage? then FailedBeforeSuccess(steps, p) else FailedForGood(steps, p))
    ensures FailedBeforeSuccess(steps + [s], p) <==>
              if s.Succeed? then FailedForGood(steps, p) else FailedBeforeSuccess(steps, p)
  {
    var more := steps + [s];
    assert forall k | 0 <= k < |steps| :: more[k] == steps[k];
    forall k | 0 <= k < |steps|
      ensures Confirmed(more, k) <==> Confirmed(steps, k) && (s.EndOutage? ==> SuccessBetween(steps, k, |steps|))
      ensures SuccessBetween(more, k, |more|) <==> SuccessBetween(steps, k, |steps|) || s.Succeed?
    {
      ConfirmedByLast(steps, s, k);
      SuccessByLast(steps, s, k);
    }
    if Fails(s, p) {
      assert Fails(more[|steps|], p) && Confirmed(more, |steps|);
    }
    if FailedForGood(steps, p) {
      var k :| 0 <= k < |steps| && Fails(steps[k], p) && Confirmed(steps, k);
      assert Fails(more[k], p);
    }
    if FailedBeforeSuccess(steps, p) {
      var k :| 0 <= k < |steps| && Fails(steps[k], p) && Confirmed(steps, k) && SuccessBetween(steps, k, |steps|);
      assert Fails(more[k], p) && Confirmed(more, k) && SuccessBetween(more, k, |more|);
    }
    if FailedForGood(more, p) && !Fails(s, p) {
      var k :| 0 <= k < |more| && Fails(more[k], p) && Confirmed(more, k);
      assert Fails(steps[k], p);
    }
    if FailedBeforeSuccess(more, p) {
      var k :| 0 <= k < |more| && Fails(more[k], p) && Confirmed(more, k) && SuccessBetween(more, k, |more|);
      assert k < |steps| && Fails(steps[k], p);
    }
  }

  lemma ExplainedStep(f: Failures, g: Failures, saved: set<Project>, steps: seq<Step>, s: Step, job: Job, w: World)
    requires Enabled(job, w, s) && !s.StartRun? && !s.EndRun? && f == w.failures && g == Apply(job, w, s).failures
    requires Explained(f, saved, steps)
    ensures Explained(g, saved, steps + [s])
  {
    forall p
      ensures FailedForGood(steps + [s], p) <==>
                Fails(s, p) || (if s.EndOutage? then FailedBeforeSuccess(steps, p) else FailedForGood(steps, p))
      ensures FailedBeforeSuccess(steps + [s], p) <==>
                if s.Succeed? then FailedForGood(steps, p) else FailedBeforeSuccess(steps, p)
      ensures FailedBeforeSuccess(steps, p) ==> FailedForGood(steps, p)
    {
      ForGoodByLast(steps, s, p);
    }
  }

  lemma {:induction false} RunIsExplained(job: Job, w: World, steps: seq<Step>)
    requires IsRun(job, w, steps) && WithinRun(steps) && w.failures == Restored(w.dir.saved)
    ensures Explained(Run(job, w, steps).failures, w.dir.saved, steps)
    decreases |steps|
  {
    if steps != [] {
      var init, last := steps[..|steps| - 1], steps[|steps| - 1];
      assert steps == init + [last];
      RunLast(job, w, init, last);
      RunIsExplained(job, w, init);
      ExplainedStep(Run(job, w, init).failures, Run(job, w, steps).failures, w.dir.saved, init, last, job,
                    Run(job, w, init));
    }
  }

  /**
   * What a run saves: the projects saved before, and those that failed in it, except
   * where every failure was taken back by an outage that no success came before.
   */
  lemma SavedIsWhatFailed(job: Job, w: World, steps: seq<Step>)
    requires WithinRun(steps) && IsRun(job, w, [StartRun] + (steps + [EndRun]))
    ensures forall p :: p in Run(job, w, [StartRun] + (steps + [EndRun])).dir.saved
                        <==> p in w.dir.saved || FailedForGood(steps, p)
  {
    var whole := [StartRun] + (steps + [EndRun]);
    assert whole[1..] == steps + [EndRun];
    var v := Apply(job, w, StartRun);
    RunLast(job, v, steps, EndRun);
    RunIsExplained(job, v, steps);
  }

  ghost predicate NoOutage(steps: seq<Step>, k: int) {
    forall j | 0 <= j < |steps| && j < k :: !steps[j].EndOutage?
  }

  /** A project has newly failed since the latest success. */
  ghost predicate InStreak(saved: set<Project>, steps: seq<Step>) {
    steps != [] &&
    var init, last := steps[..|steps| - 1], steps[|steps| - 1];
    if last.Succeed? then false
    else
      || InStreak(saved, init)
      || (last.Fail? && last.item.project.Some?
          && !(last.item.project.value in saved || FailedForGood(init, last.item.project.value)))
  }

  /** The task finished at step `k`, before any outage, and none took its marker back. */
  ghost predicate FinishedForGoodAt(saved: set<Project>, steps: seq<Step>, t: Task, k: int) {
    && 0 <= k < |steps| && steps[k] == Finish(t) && NoOutage(steps, k)
    && (Confirmed(steps, k) || !InStreak(saved, steps[..k]))
  }

  /** And an outage ending now would not. */
  ghost predicate FinishedSafelyAt(saved: set<Project>, steps: seq<Step>, t: Task, k: int) {
    && FinishedForGoodAt(saved, steps, t, k)
    && (SuccessBetween(steps, k, |steps|) || !InStreak(saved, steps[..k]))
  }

  ghost predicate FinishedForGood(saved: set<Project>, steps: seq<Step>, t: Task) {
    exists k :: FinishedForGoodAt(saved, steps, t, k)
  }

  ghost predicate FinishedSafely(saved: set<Project>, steps: seq<Step>, t: Task) {
    exists k :: FinishedSafelyAt(saved, steps, t, k)
  }

  ghost predicate DoneExplained(f: Failures, done: set<Task>, saved: set<Project>, before: set<Task>, steps: seq<Step>)
  {
    && (f.outage <==> !NoOutage(steps, |steps|))
    && (0 < f.failStreak <==> InStreak(saved, steps))
    && (forall t :: t in done <==> t in before || FinishedForGood(saved, steps, t))
    && (forall t | t in f.doneInStreak :: t !in before && !FinishedSafely(saved, steps, t))
    && (forall t | t in done && t !in before && t !in f.doneInStreak :: FinishedSafely(saved, steps, t))
  }

  lemma OutageByLast(steps: seq<Step>, s: Step, k: int)
    requires k <= |steps|
    ensures NoOutage(steps + [s], k) <==> NoOutage(steps, k)
    ensures NoOutage(steps + [s], |steps| + 1) <==> NoOutage(steps, |steps|) && !s.EndOutage?
  {
    var more := steps + [s];
    assert more[|steps|] == s;
    assert forall j | 0 <= j < |steps| :: more[j] == steps[j];
  }

  /** What one more step makes of a task that finished at step `k`. */
  lemma FinishedAtByLast(saved: set<Project>, steps: seq<Step>, s: Step, t: Task, k: int)
    requires k < |steps|
    ensures FinishedForGoodAt(saved, steps + [s], t, k) <==>
              if s.EndOutage? then FinishedSafelyAt(saved, steps, t, k) else FinishedForGoodAt(saved, steps, t, k)
    ensures FinishedSafelyAt(saved, steps + [s], t, k) <==>
              if s.Succeed? then FinishedForGoodAt(saved, steps, t, k) else FinishedSafelyAt(saved, steps, t, k)
  {
    hide InStreak, Confirmed, SuccessBetween, NoOutage;
    if 0 <= k {
      assert (steps + [s])[k] == steps[k] && (steps + [s])[..k] == steps[..k];
      OutageByLast(steps, s, k);
      ConfirmedByLast(steps, s, k);
      SuccessByLast(steps, s, k);
    }
  }

  lemma FinishedByLast(saved: set<Project>, steps: seq<Step>, s: Step, t: Task)
    requires s != Finish(t)
    ensures FinishedForGood(saved, steps + [s], t) <==>
              if s.EndOutage? then FinishedSafely(saved, steps, t) else FinishedForGood(saved, steps, t)
    ensures FinishedSafely(saved, steps + [s], t) <==>
              if s.Succeed? then FinishedForGood(saved, steps, t) else FinishedSafely(saved, steps, t)
  {
    var more := steps + [s];
    forall k
      ensures FinishedForGoodAt(saved, more, t, k) <==>
                if s.EndOutage? then FinishedSafelyAt(saved, steps, t, k) else FinishedForGoodAt(saved, steps, t, k)
      ensures FinishedSafelyAt(saved, more, t, k) <==>
                if s.Succeed? then FinishedForGoodAt(saved, steps, t, k) else FinishedSafelyAt(saved, steps, t, k)
    {
      if k < |steps| {
        FinishedAtByLast(saved, steps, s, t, k);
      }
    }
    hide FinishedForGoodAt, FinishedSafelyAt;
  }

  /** A task that finishes now keeps its marker, unless an outage ended before or the streak it is in does. */
  lemma FinishingNow(saved: set<Project>, steps: seq<Step>, t: Task)
    ensures NoOutage(steps, |steps|) ==> FinishedForGood(saved, steps + [Finish(t)], t)
    ensures FinishedForGood(saved, steps + [Finish(t)], t)
            ==> NoOutage(steps, |steps|) || FinishedForGood(saved, steps, t)
    ensures FinishedSafely(saved, steps + [Finish(t)], t) <==>
              FinishedSafely(saved, steps, t) || (NoOutage(steps, |steps|) && !InStreak(saved, steps))
  {
    var more := steps + [Finish(t)];
    OutageByLast(steps, Finish(t), |steps|);
    assert more[..|steps|] == steps && !SuccessBetween(more, |steps|, |more|) && Confirmed(more, |steps|);
    assert FinishedForGoodAt(saved, more, t, |steps|) <==> NoOutage(steps, |steps|);
    assert FinishedSafelyAt(saved, more, t, |steps|) <==> NoOutage(steps, |steps|) && !InStreak(saved, steps);
    forall k | k != |steps|
      ensures FinishedForGoodAt(saved, more, t, k) <==> FinishedForGoodAt(saved, steps, t, k)
      ensures FinishedSafelyAt(saved, more, t, k) <==> FinishedSafelyAt(saved, steps, t, k)
    {
      if k < |steps| {
        FinishedAtByLast(saved, steps, Finish(t), t, k);
      }
    }
    hide FinishedForGoodAt, FinishedSafelyAt;
  }

  lemma StreakByLast(saved: set<Project>, steps: seq<Step>, s: Step)
    ensures InStreak(saved, steps + [s]) <==>
              !s.Succeed? && (InStreak(saved, steps)
                              || (s.Fail? && s.item.project.Some?
                                  && !(s.item.project.value in saved || FailedForGood(steps, s.item.project.value))))
  {
    assert (steps + [s])[..|steps + [s]| - 1] == steps;
  }

  lemma DoneStep(job: Job, w: World, saved: set<Project>, before: set<Task>, steps: seq<Step>, s: Step)
    requires job.Valid() && Invariant(job, w) && Enabled(job, w, s) && !s.StartRun? && !s.EndRun?
    requires Explained(w.failures, saved, steps) && DoneExplained(w.failures, w.dir.done, saved, before, steps)
    ensures var v := Apply(job, w, s); DoneExplained(v.failures, v.dir.done, saved, before, steps + [s])
  {
    var v := Apply(job, w, s);
    OutageByLast(steps, s, |steps|);
    StreakByLast(saved, steps, s);
    forall t
      ensures s != Finish(t) ==>
                && (FinishedForGood(saved, steps + [s], t) <==>
                      if s.EndOutage? then FinishedSafely(saved, steps, t) else FinishedForGood(saved, steps, t))
                && (FinishedSafely(saved, steps + [s], t) <==>
                      if s.Succeed? then FinishedForGood(saved, steps, t) else FinishedSafely(saved, steps, t))
      ensures FinishedSafely(saved, steps, t) ==> FinishedForGood(saved, steps, t)
    {
      if s != Finish(t) {
        FinishedByLast(saved, steps, s, t);
      }
    }
    if s.Finish? {
      FinishingNow(saved, steps, s.task);
      if !w.failures.outage {
        FinisherIsReady(job, w, s.task);
      }
    }
  }

  lemma {:induction false} RunIsDoneExplained(job: Job, w: World, steps: seq<Step>)
    requires job.Valid() && Invariant(job, w) && IsRun(job, w, steps) && WithinRun(steps)
    requires w.failures == Restored(w.dir.saved)
    ensures var v := Run(job, w, steps); DoneExplained(v.failures, v.dir.done, w.dir.saved, w.dir.done, steps)
    decreases |steps|
  {
    if steps != [] {
      var init, last := steps[..|steps| - 1], steps[|steps| - 1];
      assert steps == init + [last];
      RunLast(job, w, init, last);
      RunIsDoneExplained(job, w, init);
      RunIsExplained(job, w, init);
      EveryRunKeepsInvariant(job, w, init);
      DoneStep(job, Run(job, w, init), w.dir.saved, w.dir.done, init, last);
    }
  }

  /**
   * The markers a run leaves: those that were there, and one for each task that
   * finished in it before any outage, except where an outage took it back: the task
   * had finished inside a streak, and no success came before the outage. A run that
   * gets through all phases without an outage marks every planned task.
   */
  lemma DoneIsWhatFinished(job: Job, w: World, steps: seq<Step>)
    requires job.Valid() && !w.attempt.active && Believable(job, w.dir)
    requires WithinRun(steps) && IsRun(job, w, [StartRun] + (steps + [EndRun]))
    ensures var v := Run(job, w, [StartRun] + (steps + [EndRun]));
            && (forall t :: t in v.dir.done <==> t in w.dir.done || FinishedForGood(w.dir.saved, steps, t))
            && (v.attempt.cursor == |job.plan| && NoOutage(steps, |steps|) ==> v.dir.done == job.Planned())
  {
    var whole := [StartRun] + (steps + [EndRun]);
    assert whole[1..] == steps + [EndRun];
    var v := Apply(job, w, StartRun);
    StartKeeps(job, w);
    RunLast(job, v, steps, EndRun);
    RunIsDoneExplained(job, v, steps);
    EveryRunKeepsInvariant(job, v, steps);
  }

  // ---------------------------------------------------------------------------
  // The job a plan makes

  /** The dependencies a run waits for: those declared, less the excluded ones. */
  function PlannedJob(tasks: set<Task>, reg: Planner.Registry, excluded: set<Task>, plan: seq<set<Task>>,
                      work: map<Task, set<Item>>): (job: Job)
  {
    Job(plan, map t | t in tasks && t in reg :: Elements(reg[t]) - excluded, work)
  }

  lemma PlannedTasks(tasks: set<Task>, reg: Planner.Registry, excluded: set<Task>, job: Job)
    requires tasks <= reg.Keys && Planner.Layered(tasks, reg, excluded, job.plan)
            && Planner.Completed(job.plan) == tasks
    ensures job.Planned() == tasks
  {
    Planner.PlanRespectsDependencies(tasks, reg, excluded, job.plan);
    forall k, t | 0 <= k < |job.plan| && t in job.plan[k] ensures t in tasks {
      assert Planner.Ready(reg, excluded, t, Planner.Completed(job.plan[..k]));
    }
    forall t | t in tasks ensures t in job.Planned() {
      assert Planner.Earlier(job.plan, t, |job.plan|);
    }
  }

  /** Whatever the planner returns is a job the protocol can run, for any items its tasks fan out over. */
  lemma PlannedJobIsValid(tasks: set<Task>, reg: Planner.Registry, excluded: set<Task>, plan: seq<set<Task>>,
                          work: map<Task, set<Item>>)
    requires tasks <= reg.Keys && Planner.Layered(tasks, reg, excluded, plan) && Planner.Completed(plan) == tasks
    requires tasks <= work.Keys
    ensures PlannedJob(tasks, reg, excluded, plan, work).Valid()
    ensures PlannedJob(tasks, reg, excluded, plan, work).Planned() == tasks
  {
    var job := PlannedJob(tasks, reg, excluded, plan, work);
    PlannedTasks(tasks, reg, excluded, job);
    forall k, t, d | 0 <= k < |plan| && t in plan[k] && t in job.deps && d in job.deps[t]
      ensures exists j :: 0 <= j < k && d in plan[j]
    {
      Planner.DependencyIsEarlier(tasks, reg, excluded, plan, k, t, d);
      assert Planner.Earlier(plan, d, k);
    }
  }
}
