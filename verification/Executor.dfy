/**
 * The extract's failure bookkeeping: which projects failed, whether failures come in
 * an unbroken streak, which tasks finished during it, and what an outage takes back.
 * Each mutex-held body is one method.
 */
module Executor {
  type Project = string
  type Task = string

  /** How many project failures in a row, with no success between them, stop the run. */
  const MAX_CONSECUTIVE_PROJECT_FAILURES := 25

  datatype FailedProject = FailedProject(key: Project, task: Task, error: string)

  // ---------------------------------------------------------------------------
  // Specification

  /** The failure state of one run. */
  datatype Failures = Failures(
    failed: map<Project, FailedProject>, failStreak: nat,
    streakKeys: seq<Project>, doneInStreak: seq<Task>, outage: bool)
  {
    predicate IsNewFailure(p: Project) {
      p !in failed
    }

    function AfterFailure(p: Project, task: Task, error: string): (after: Failures) {
      if IsNewFailure(p) then
        this.(failed := failed[p := FailedProject(p, task, error)], streakKeys := streakKeys + [p],
              failStreak := failStreak + 1)
      else this
    }

    function AfterSuccess(): (after: Failures) {
      if failStreak == 0 then this else this.(streakKeys := [], doneInStreak := [], failStreak := 0)
    }

    function AfterOutage(): (after: Failures) {
      this.(failed := failed - Elements(streakKeys), streakKeys := [], doneInStreak := [], outage := true)
    }

    function DoneAfterOutage(done: set<Task>): (left: set<Task>) {
      done - Elements(doneInStreak)
    }

    function AfterDone(task: Task): (after: Failures) {
      if !outage && failStreak > 0 then this.(doneInStreak := doneInStreak + [task]) else this
    }

    function DoneAfterDone(done: set<Task>, task: Task): (after: set<Task>) {
      if outage then done else done + {task}
    }
  }

  function Elements<T(==)>(s: seq<T>): (elements: set<T>) {
    set x | x in s
  }

  lemma ElementsAppend<T>(s: seq<T>, x: T)
    ensures Elements(s + [x]) == Elements(s) + {x}
  {
  }

  // ---------------------------------------------------------------------------
  // Resuming: what is left of a plan

  function NotDone(phase: seq<Task>, done: set<Task>): (left: seq<Task>)
    ensures forall t :: t in left <==> t in phase && t !in done
  {
    if phase == [] then []
    else
      assert phase == phase[..|phase| - 1] + [phase[|phase| - 1]];
      NotDone(phase[..|phase| - 1], done) + if phase[|phase| - 1] in done then [] else [phase[|phase| - 1]]
  }

  /** The phases with a task left to run, without the finished ones. */
  function Unfinished(plan: seq<seq<Task>>, done: set<Task>): (left: seq<seq<Task>>) {
    if plan == [] then []
    else
      var left := NotDone(plan[|plan| - 1], done);
      Unfinished(plan[..|plan| - 1], done) + if left == [] then [] else [left]
  }

  function TasksOf(plan: seq<seq<Task>>): (tasks: set<Task>) {
    set k, t | 0 <= k < |plan| && t in plan[k] :: t
  }

  ghost predicate RunsBefore(plan: seq<seq<Task>>, d: Task, t: Task) {
    exists j, k :: 0 <= j < k < |plan| && d in plan[j] && t in plan[k]
  }

  /** A resumed run has exactly the unfinished tasks left, and no empty phase. */
  lemma {:induction false} UnfinishedTasks(plan: seq<seq<Task>>, done: set<Task>)
    ensures TasksOf(Unfinished(plan, done)) == TasksOf(plan) - done
    ensures forall k | 0 <= k < |Unfinished(plan, done)| :: Unfinished(plan, done)[k] != []
  {
    if plan != [] {
      var init, last := plan[..|plan| - 1], plan[|plan| - 1];
      UnfinishedTasks(init, done);
      var left := NotDone(last, done);
      TasksOfAppend(init, last);
      assert plan == init + [last];
      if left != [] {
        TasksOfAppend(Unfinished(init, done), left);
      } else {
        assert Elements(last) - done == {} by {
          assert forall t | t in last :: t in done || t in left;
        }
        assert Unfinished(plan, done) == Unfinished(init, done);
      }
    }
  }

  lemma TasksOfAppend(plan: seq<seq<Task>>, phase: seq<Task>)
    ensures TasksOf(plan + [phase]) == TasksOf(plan) + Elements(phase)
  {
    var more := plan + [phase];
    forall t | t in TasksOf(plan) + Elements(phase) ensures t in TasksOf(more) {
      if t in TasksOf(plan) {
        var k :| 0 <= k < |plan| && t in plan[k];
        assert t in more[k];
      } else {
        assert t in more[|plan|];
      }
    }
  }

  lemma RunsBeforeAppend(plan: seq<seq<Task>>, phase: seq<Task>, d: Task, t: Task)
    ensures RunsBefore(plan, d, t) ==> RunsBefore(plan + [phase], d, t)
    ensures d in TasksOf(plan) && t in phase ==> RunsBefore(plan + [phase], d, t)
  {
    var more := plan + [phase];
    if RunsBefore(plan, d, t) {
      var j, k :| 0 <= j < k < |plan| && d in plan[j] && t in plan[k];
      assert d in more[j] && t in more[k];
    }
    if d in TasksOf(plan) && t in phase {
      var j :| 0 <= j < |plan| && d in plan[j];
      assert d in more[j] && t in more[|plan|];
    }
  }

  /** What ran before an unfinished task still does, or is finished. */
  lemma {:induction false} UnfinishedKeepsOrder(plan: seq<seq<Task>>, done: set<Task>, d: Task, t: Task)
    requires RunsBefore(plan, d, t) && t !in done
    ensures d in done || RunsBefore(Unfinished(plan, done), d, t)
    decreases |plan|
  {
    var j, k :| 0 <= j < k < |plan| && d in plan[j] && t in plan[k];
    var init, last := plan[..|plan| - 1], plan[|plan| - 1];
    var left, before := NotDone(last, done), Unfinished(init, done);
    assert d in init[j];
    RunsBeforeAppend(before, left, d, t);
    if k < |init| {
      assert t in init[k];
      UnfinishedKeepsOrder(init, done, d, t);
      if left == [] {
        assert Unfinished(plan, done) == before;
      }
    } else {
      assert t in left;
      assert d in TasksOf(init);
      UnfinishedTasks(init, done);
    }
  }

  // ---------------------------------------------------------------------------
  // The executor and the done markers it keeps

  /** The done markers and the task directories under the extract directory. */
  class DataStore {
    var done: set<Task>
    var dirs: set<Task>

    constructor (done: set<Task>, dirs: set<Task>)
      ensures this.done == done && this.dirs == dirs
    {
      this.done, this.dirs := done, dirs;
    }

    method MarkDone(task: Task)
      modifies this`done
      ensures done == old(done) + {task}
    {
      done := done + {task};
    }

    method ClearDone(task: Task)
      modifies this`done
      ensures done == old(done) - {task}
    {
      done := done - {task};
    }

    /** Deletes what an unfinished task left behind. */
    method DiscardUnfinished(task: Task) returns (gone: bool)
      modifies this`dirs
      ensures gone <==> task in old(dirs) && task !in done
      ensures dirs == if gone then old(dirs) - {task} else old(dirs)
    {
      if task in done || task !in dirs {
        return false;
      }
      dirs := dirs - {task};
      return true;
    }

    /** The tasks of a phase still to run; none of them keeps any output. */
    method TasksToRun(phase: seq<Task>) returns (run: seq<Task>, discarded: seq<Task>)
      modifies this`dirs
      ensures run == NotDone(phase, done)
      ensures dirs == old(dirs) - Elements(run)
      ensures forall t :: t in discarded <==> t in run && t in old(dirs)
    {
      run, discarded := [], [];
      for i := 0 to |phase|
        invariant run == NotDone(phase[..i], done)
        invariant dirs == old(dirs) - Elements(run)
        invariant forall t :: t in discarded <==> t in run && t in old(dirs)
      {
        assert phase[..i + 1][..i] == phase[..i];
        if phase[i] in done {
          continue;
        }
        var gone := DiscardUnfinished(phase[i]);
        if gone {
          discarded := discarded + [phase[i]];
        }
        ElementsAppend(run, phase[i]);
        run := run + [phase[i]];
      }
      assert phase[..|phase|] == phase;
    }

    /** Drops the finished tasks from the plan, and the output of the others from the directory. */
    method FilterCompleted(plan: seq<seq<Task>>) returns (filtered: seq<seq<Task>>)
      modifies this`dirs
      ensures filtered == Unfinished(plan, done)
      ensures dirs == old(dirs) - (TasksOf(plan) - done)
    {
      filtered := [];
      for k := 0 to |plan|
        invariant filtered == Unfinished(plan[..k], done)
        invariant dirs == old(dirs) - (TasksOf(plan[..k]) - done)
      {
        assert plan[..k + 1][..k] == plan[..k];
        assert plan[..k + 1] == plan[..k] + [plan[k]];
        TasksOfAppend(plan[..k], plan[k]);
        var run, discarded := TasksToRun(plan[k]);
        if 0 < |run| {
          filtered := filtered + [run];
        }
      }
      assert plan[..|plan|] == plan;
    }
  }

  class Executor {
    const store: DataStore
    var failedProjects: map<Project, FailedProject>
    var failStreak: nat
    var streakKeys: seq<Project>
    var doneInStreak: seq<Task>
    var outage: bool

    constructor (store: DataStore)
      ensures this.store == store && View() == Failures(map[], 0, [], [], false)
    {
      this.store := store;
      failedProjects, failStreak, streakKeys, doneInStreak, outage := map[], 0, [], [], false;
    }

    function View(): (state: Failures)
      reads this
    {
      Failures(failedProjects, failStreak, streakKeys, doneInStreak, outage)
    }

    /** Skips a project for the rest of the run; it counts once. */
    method RecordProjectFailure(p: Project, task: Task, error: string) returns (streak: nat, isNew: bool)
      modifies this
      ensures View() == old(View()).AfterFailure(p, task, error)
      ensures failedProjects.Keys == old(failedProjects).Keys + {p} && outage == old(outage)
      ensures p in old(failedProjects) ==> View() == old(View())
      ensures p !in old(failedProjects) ==> streakKeys == old(streakKeys) + [p] && failStreak == old(failStreak) + 1
      ensures isNew == old(View()).IsNewFailure(p) && streak == failStreak
    {
      if p in failedProjects {
        return failStreak, false;
      }
      failedProjects := failedProjects[p := FailedProject(p, task, error)];
      streakKeys := streakKeys + [p];
      failStreak := failStreak + 1;
      return failStreak, true;
    }

    /** Ends the streak: nothing finished or failed so far can be taken back any more. */
    method RecordProjectSuccess()
      modifies this
      ensures View() == old(View()).AfterSuccess()
      ensures failStreak == 0 && failedProjects == old(failedProjects) && outage == old(outage)
      ensures old(failStreak) != 0 ==> streakKeys == [] && doneInStreak == []
    {
      if failStreak == 0 {
        return;
      }
      streakKeys, doneInStreak := [], [];
      failStreak := 0;
    }

    /** Takes back the projects of the streak, and the markers of the tasks that finished during it. */
    method EndOutage()
      modifies this, store`done
      ensures View() == old(View()).AfterOutage()
      ensures failedProjects.Keys == old(failedProjects).Keys - Elements(old(streakKeys))
      ensures forall p | p in failedProjects :: failedProjects[p] == old(failedProjects)[p]
      ensures store.done == old(store.done) - Elements(old(doneInStreak))
      ensures streakKeys == [] && doneInStreak == [] && outage && failStreak == old(failStreak)
      ensures store.done == old(View()).DoneAfterOutage(old(store.done))
    {
      outage := true;
      var taken: set<Project> := {};
      for i := 0 to |streakKeys|
        invariant streakKeys == old(streakKeys) && doneInStreak == old(doneInStreak) && failStreak == old(failStreak)
        invariant outage && store.done == old(store.done)
        invariant taken == Elements(streakKeys[..i])
        invariant failedProjects == old(failedProjects) - taken
      {
        assert streakKeys[..i + 1] == streakKeys[..i] + [streakKeys[i]];
        taken := taken + {streakKeys[i]};
        failedProjects := failedProjects - {streakKeys[i]};
      }
      assert streakKeys[..|streakKeys|] == streakKeys;
      for i := 0 to |doneInStreak|
        invariant streakKeys == old(streakKeys) && doneInStreak == old(doneInStreak) && failStreak == old(failStreak)
        invariant outage && failedProjects == old(failedProjects) - Elements(streakKeys)
        invariant store.done == old(store.done) - Elements(doneInStreak[..i])
      {
        assert doneInStreak[..i + 1] == doneInStreak[..i] + [doneInStreak[i]];
        store.ClearDone(doneInStreak[i]);
      }
      assert doneInStreak[..|doneInStreak|] == doneInStreak;
      streakKeys, doneInStreak := [], [];
    }

    /** During an outage no task is recorded as finished; during a streak it is noted, so it can be taken back. */
    method MarkTaskDone(task: Task)
      modifies this, store`done
      ensures store.done == old(store.done) + if old(outage) then {} else {task}
      ensures !old(outage) && 0 < old(failStreak) ==> task in doneInStreak
      ensures failedProjects == old(failedProjects) && streakKeys == old(streakKeys) && outage == old(outage)
      ensures View() == old(View()).AfterDone(task)
      ensures store.done == old(View()).DoneAfterDone(old(store.done), task)
    {
      if outage {
        return;
      }
      store.MarkDone(task);
      if failStreak > 0 {
        doneInStreak := doneInStreak + [task];
      }
    }

    /** Keeps skipping the projects an earlier attempt skipped. */
    method RestoreFailedProjects(list: seq<FailedProject>)
      modifies this
      ensures failedProjects.Keys == old(failedProjects).Keys + (set fp | fp in list :: fp.key)
      ensures View() == old(View()).(failed := failedProjects)
    {
      for i := 0 to |list|
        invariant failedProjects.Keys == old(failedProjects).Keys + (set fp | fp in list[..i] :: fp.key)
        invariant View() == old(View()).(failed := failedProjects)
      {
        assert list[..i + 1] == list[..i] + [list[i]];
        failedProjects := failedProjects[list[i].key := list[i]];
      }
      assert list[..|list|] == list;
    }

    /**
     * What a failed request does to the run: an error that is not one project's
     * failure stops it, and so does the last failure of an outage; any other
     * failure skips the project.
     */
    method SkipFailedProject(task: Task, p: Project, error: string, isProjectFailure: bool) returns (stops: bool)
      modifies this, store`done
      ensures p == "" || !isProjectFailure ==> stops && View() == old(View()) && store.done == old(store.done)
      ensures p != "" && isProjectFailure ==>
                var counted := old(View()).AfterFailure(p, task, error);
                && (stops <==> old(View()).IsNewFailure(p) && MAX_CONSECUTIVE_PROJECT_FAILURES <= counted.failStreak)
                && View() == (if stops then counted.AfterOutage() else counted)
                && store.done == (if stops then counted.DoneAfterOutage(old(store.done)) else old(store.done))
      // an outage leaves out what failed before the streak, and no project of it; any other failure leaves out its own
      ensures p != "" && isProjectFailure ==>
                && (stops <==> p !in old(failedProjects) && 25 <= old(failStreak) + 1)
                && failedProjects.Keys == (if stops then old(failedProjects).Keys - Elements(old(streakKeys))
                                           else old(failedProjects).Keys + {p})
                && store.done == (if stops then old(store.done) - Elements(old(doneInStreak)) else old(store.done))
    {
      if p == "" || !isProjectFailure {
        return true;
      }
      var streak, isNew := RecordProjectFailure(p, task, error);
      if !isNew {
        return false;
      }
      if streak >= MAX_CONSECUTIVE_PROJECT_FAILURES {
        EndOutage();
        return true;
      }
      return false;
    }
  }
}
