/** MultiTaskProgress of oss_crs/src/ui.py: one object whose tables every task body updates. */
module MultiTaskProgressModel {
  import opened Outcomes
  import opened TaskTree
  import opened TaskTreeLaws
  import opened ProgressBoard
  import opened ProgressSteps
  import opened ProgressOutcomes

  class MultiTaskProgress {
    var subtasks: map<Path, seq<Path>>
    var cleanupTasks: map<Path, seq<Path>>
    var taskFuncs: map<Path, Script>
    var statuses: map<Path, Status>
    var currentTask: Path
    var deadline: Option<int>
    ghost var log: seq<Event>

    ghost function Now(): Board
      reads this
    {
      Board(subtasks, cleanupTasks, taskFuncs, statuses)
    }

    ghost function Here(): World
      reads this
    {
      World(statuses, log)
    }

    /** With the list of top-level tasks. */
    constructor (tasks: seq<Task>, deadline: Option<int>)
      requires DistinctTasks(tasks) && forall t :: t in tasks ==> WellNamed(t.body, {})
      ensures currentTask == [] && this.deadline == deadline && log == []
      ensures Ready(Now(), [])
      ensures PendingSubtasks(Now(), []) == tasks && PendingCleanups(Now(), []) == []
    {
      subtasks, cleanupTasks, taskFuncs, statuses := map[], map[], map[], map[];
      currentTask := [];
      this.deadline := deadline;
      log := [];
      new;
      for i := 0 to |tasks|
        invariant currentTask == [] && this.deadline == deadline && log == []
        invariant Ready(Now(), [])
        invariant PendingSubtasks(Now(), []) == tasks[..i] && PendingCleanups(Now(), []) == []
        invariant NamesUsed(Now(), [], FirstNames(tasks, i))
      {
        ghost var before := Now();
        AddTask(tasks[i].name, tasks[i].body);
        NextName(tasks, i);
        AddedReady(before, Now(), [], tasks[i].name, tasks[i].body, FirstNames(tasks, i));
      }
    }

    /** add_task: a new pending child of the current task. */
    method AddTask(name: string, body: Script)
      modifies this
      ensures Now() == AddedSubtask(old(Now()), currentTask, name, body)
      ensures currentTask == old(currentTask) && deadline == old(deadline) && log == old(log)
    {
      var parent := currentTask;
      var taskId := parent + [name];
      if parent !in subtasks {
        subtasks := subtasks[parent := []];
      }
      subtasks := subtasks[parent := subtasks[parent] + [taskId]];
      taskFuncs := taskFuncs[taskId := body];
      statuses := statuses[taskId := Pending];
    }

    /** add_cleanup_task: a new pending cleanup of the current task. */
    method AddCleanupTask(name: string, body: Script)
      modifies this
      ensures Now() == AddedCleanup(old(Now()), currentTask, name, body)
      ensures currentTask == old(currentTask) && deadline == old(deadline) && log == old(log)
    {
      var parent := currentTask;
      var taskId := parent + [name];
      if parent !in cleanupTasks {
        cleanupTasks := cleanupTasks[parent := []];
      }
      cleanupTasks := cleanupTasks[parent := cleanupTasks[parent] + [taskId]];
      taskFuncs := taskFuncs[taskId := body];
      statuses := statuses[taskId := Pending];
    }

    /** A task function called with this object. */
    method RunBody(s: Script, ghost used: set<string>) returns (c: Completion)
      requires Ready(Now(), currentTask)
      requires WellNamed(s, used) && NamesUsed(Now(), currentTask, used)
      modifies this
      ensures currentTask == old(currentTask) && deadline == old(deadline)
      ensures BodyDone(currentTask, deadline, s, old(Now()), old(Here()), Now(), Here(), c)
      decreases Size(s) + Weight(PendingSubtasks(Now(), currentTask)) + Weight(PendingCleanups(Now(), currentTask)), 5
    {
      ghost var b0, w0 := Now(), Here();
      match s {
        case Return(result) =>
          c := Returned(result);
        case Raise(message) =>
          c := Raised(message);
        case Add(name, body, next) =>
          WeightAppend(PendingSubtasks(b0, currentTask), Task(name, body));
          AddTask(name, body);
          ghost var b1, w1 := Now(), Here();
          AddedReady(b0, b1, currentTask, name, body, used);
          c := RunBody(next, used + {name});
          BodyGoesOn(currentTask, deadline, s, next, b0, w0, b1, w1, Now(), Here(), c);
        case AddCleanup(name, body, next) =>
          WeightAppend(PendingCleanups(b0, currentTask), Task(name, body));
          AddCleanupTask(name, body);
          ghost var b1, w1 := Now(), Here();
          AddedReady(b0, b1, currentTask, name, body, used);
          c := RunBody(next, used + {name});
          BodyGoesOn(currentTask, deadline, s, next, b0, w0, b1, w1, Now(), Here(), c);
        case Run(_, _, _) =>
          c := RunChildren(s, used);
        case ReturnRun(_) =>
          c := RunChildren(s, used);
      }
    }

    /** A task function at the point where it calls run_added_tasks. */
    method RunChildren(s: Script, ghost used: set<string>) returns (c: Completion)
      requires s.Run? || s.ReturnRun?
      requires Ready(Now(), currentTask)
      requires WellNamed(s, used) && NamesUsed(Now(), currentTask, used)
      modifies this
      ensures currentTask == old(currentTask) && deadline == old(deadline)
      ensures BodyDone(currentTask, deadline, s, old(Now()), old(Here()), Now(), Here(), c)
      decreases Size(s) + Weight(PendingSubtasks(Now(), currentTask)) + Weight(PendingCleanups(Now(), currentTask)), 4
    {
      ghost var b0, w0 := Now(), Here();
      var result := RunPending(s.cleanupFailureIsError);
      if s.ReturnRun? {
        return Returned(result);
      }
      ghost var b1, w1 := Now(), Here();
      RunLessToDo(currentTask, deadline, s.cleanupFailureIsError, b0, w0, b1, w1, result);
      var next := if result.success then s.ifOk else s.ifFailed;
      c := RunBody(next, used);
      BodyGoesOn(currentTask, deadline, s, next, b0, w0, b1, w1, Now(), Here(), c);
    }

    /** One round of the loops below: the task is in progress while its function runs, and is then
        marked by how the function ended; an exception counts as a failure. */
    method RunTask(taskId: Path, ghost name: string) returns (c: Completion)
      requires Ready(Now(), currentTask) && taskId == currentTask + [name] && IsPending(Now(), taskId)
      requires taskId in taskFuncs
      modifies this
      ensures currentTask == old(currentTask) && deadline == old(deadline)
      ensures TaskDone(currentTask, name, deadline, old(taskFuncs)[taskId], old(Now()), old(Here()), Now(), Here(), c)
      decreases 1 + Size(taskFuncs[taskId]), 0
    {
      ghost var b0, w0 := Now(), Here();
      var prevTask := currentTask;
      currentTask := taskId;
      statuses := statuses[taskId := InProgress];
      log := log + [Start(taskId, deadline)];
      ghost var b1 := Now();
      TaskEnters(b0, b1, prevTask, name);
      c := RunBody(taskFuncs[taskId], {});
      ghost var b2, w2 := Now(), Here();
      statuses := statuses[taskId := FinalStatus(c)];
      currentTask := prevTask;
      TaskLeaves(prevTask, name, deadline, b0.funcs[taskId], b0, w0, b1, b2, w2, Now(), c);
    }

    /** run_added_tasks: the pending children of the current task, then its cleanups; and what this
        means on the tables. */
    method RunAddedTasks(cleanupFailureIsError: bool) returns (r: TaskResult)
      requires Ready(Now(), currentTask)
      modifies this
      ensures currentTask == old(currentTask) && deadline == old(deadline)
      ensures RunDone(currentTask, deadline, cleanupFailureIsError, old(Now()), old(Here()), Now(), Here(), r)
      ensures RunMeans(currentTask, deadline, cleanupFailureIsError, old(Now()), old(Here()), Now(), Here(), r)
    {
      ghost var b0, w0 := Now(), Here();
      r := RunPending(cleanupFailureIsError);
      RunDoneMeans(currentTask, deadline, cleanupFailureIsError, b0, w0, Now(), Here(), r);
    }

    /** What run_added_tasks does: both loops, and the choice of the result. */
    method RunPending(cleanupFailureIsError: bool) returns (r: TaskResult)
      requires Ready(Now(), currentTask)
      modifies this
      ensures currentTask == old(currentTask) && deadline == old(deadline)
      ensures RunDone(currentTask, deadline, cleanupFailureIsError, old(Now()), old(Here()), Now(), Here(), r)
      decreases Weight(PendingSubtasks(Now(), currentTask)) + Weight(PendingCleanups(Now(), currentTask)), 3
    {
      ghost var b0, w0 := Now(), Here();
      var parent := currentTask;
      var mainResult := RunRegularTasks(parent);
      ghost var b1, w1 := Now(), Here();
      var cleanupResult := RunCleanupTasks(parent);
      RunCompletes(parent, deadline, cleanupFailureIsError, mainResult, cleanupResult, b0, w0, b1, w1, Now(), Here());
      if !mainResult.success {
        return mainResult;
      }
      if !cleanupFailureIsError && !cleanupResult.success {
        return OK;
      }
      return cleanupResult;
    }

    /** The first half of run_added_tasks: the pending children, up to a failure or early exit. */
    method RunRegularTasks(parent: Path) returns (mainResult: TaskResult)
      requires Ready(Now(), currentTask) && parent == currentTask
      modifies this
      ensures currentTask == old(currentTask) && deadline == old(deadline)
      ensures MainDone(currentTask, deadline, old(Now()), old(Here()), Now(), Here(), mainResult)
      decreases Weight(PendingSubtasks(Now(), currentTask)), 2
    {
      ghost var b0, w0 := Now(), Here();
      mainResult := OK;
      var ids := Lookup(subtasks, parent);
      var i, stopped := 0, false;
      MainStart(parent, deadline, b0, w0);
      while i < |ids| && !stopped
        invariant currentTask == parent && deadline == old(deadline)
        invariant MainSoFar(parent, deadline, ids, i, stopped, mainResult, b0, w0, Now(), Here())
        invariant !stopped ==> mainResult == OK
        decreases |ids| - i
      {
        stopped, mainResult := RunRegularTask(parent, ids, i, b0, w0);
        i := i + 1;
      }
      MainEnds(parent, deadline, ids, i, stopped, mainResult, b0, w0, Now(), Here());
    }

    /** One round of the loop over the regular tasks: a task that is no longer pending is skipped; a
        failure, an exception or an early exit stops the loop. */
    method RunRegularTask(parent: Path, ids: seq<Path>, i: nat, ghost b0: Board, ghost w0: World)
      returns (stopped: bool, mainResult: TaskResult)
      requires Ready(Now(), currentTask) && parent == currentTask && i < |ids|
      requires MainSoFar(parent, deadline, ids, i, false, OK, b0, w0, Now(), Here())
      modifies this
      ensures currentTask == old(currentTask) && deadline == old(deadline)
      ensures MainSoFar(parent, deadline, ids, i + 1, stopped, mainResult, b0, w0, Now(), Here())
      ensures !stopped ==> mainResult == OK
      decreases Weight(TasksOf(ids[i..], Now())), 1
    {
      var taskId := ids[i];
      ghost var b, w := Now(), Here();
      stopped, mainResult := false, OK;
      EntryIsChild(parent, b, ids, i);
      if statuses[taskId] != Pending {
        MainSkips(parent, deadline, ids, i, b0, w0, b, w);
        return;
      }
      ghost var name := taskId[|parent|];
      TasksOfHead(ids, i, b);
      var c := RunTask(taskId, name);
      MainRuns(parent, deadline, ids, i, b0, w0, b, w, name, b.funcs[taskId], Now(), Here(), c);
      match c {
        case Returned(result) =>
          if result.success {
            if result.interrupted {
              mainResult := TaskResult(true, result.output, None, true, result.reason);
              stopped := true;
            }
          } else {
            mainResult := TaskResult(false, None, result.error, result.interrupted, result.reason);
            stopped := true;
          }
        case Raised(message) =>
          mainResult := TaskResult(false, None, Some(message), false, None);
          stopped := true;
      }
      assert stopped == !GoesOn(c) && mainResult == if GoesOn(c) then OK else MainResult(c);
    }

    /** _run_cleanup_tasks: every pending cleanup, with the deadline suspended. */
    method RunCleanupTasks(parent: Path) returns (r: TaskResult)
      requires Ready(Now(), currentTask) && parent == currentTask
      modifies this
      ensures currentTask == old(currentTask) && deadline == old(deadline)
      ensures CleanupsDone(parent, old(Now()), old(Here()), Now(), Here(), r)
      decreases Weight(PendingCleanups(Now(), currentTask)), 2
    {
      ghost var b0, w0 := Now(), Here();
      CleanupsStart(parent, b0, w0);
      if parent !in cleanupTasks {
        CleanupsEnd(parent, [], true, None, b0, w0, b0, w0);
        return OK;
      }
      var savedDeadline := deadline;
      deadline := None;
      var firstError: Option<string> := None;
      var allSuccess := true;
      var ids := cleanupTasks[parent];
      for i := 0 to |ids|
        invariant currentTask == parent && deadline == None
        invariant CleanupsSoFar(parent, ids, i, allSuccess, firstError, b0, w0, Now(), Here())
      {
        allSuccess, firstError := RunCleanupTask(parent, ids, i, allSuccess, firstError, b0, w0);
      }
      CleanupsEnd(parent, ids, allSuccess, firstError, b0, w0, Now(), Here());
      deadline := savedDeadline;
      return TaskResult(allSuccess, None, firstError, false, None);
    }

    /** One round of the loop over the cleanups: whatever happens, the loop goes on. */
    method RunCleanupTask(parent: Path, ids: seq<Path>, i: nat, allSuccessSoFar: bool, firstErrorSoFar: Option<string>,
                          ghost b0: Board, ghost w0: World)
      returns (allSuccess: bool, firstError: Option<string>)
      requires Ready(Now(), currentTask) && parent == currentTask && deadline == None && i < |ids|
      requires CleanupsSoFar(parent, ids, i, allSuccessSoFar, firstErrorSoFar, b0, w0, Now(), Here())
      modifies this
      ensures currentTask == old(currentTask) && deadline == None
      ensures CleanupsSoFar(parent, ids, i + 1, allSuccess, firstError, b0, w0, Now(), Here())
      decreases Weight(TasksOf(ids[i..], Now())), 1
    {
      var taskId := ids[i];
      ghost var b, w := Now(), Here();
      allSuccess, firstError := allSuccessSoFar, firstErrorSoFar;
      EntryIsChild(parent, b, ids, i);
      if statuses[taskId] != Pending {
        CleanupsSkip(parent, ids, i, allSuccess, firstError, b0, w0, b, w);
        return;
      }
      ghost var name := taskId[|parent|];
      TasksOfHead(ids, i, b);
      var c := RunTask(taskId, name);
      CleanupsRun(parent, ids, i, allSuccess, firstError, b0, w0, b, w, name, b.funcs[taskId], Now(), Here(), c);
      match c {
        case Returned(result) =>
          if !result.success {
            allSuccess := false;
            if firstError == None {
              firstError := result.error;
            }
          }
        case Raised(message) =>
          allSuccess := false;
          if firstError == None {
            firstError := Some(message);
          }
      }
      assert allSuccess == (allSuccessSoFar && Succeeds(c));
      assert firstError == if Succeeds(c) || firstErrorSoFar.Some? then firstErrorSoFar else ErrorOf(c);
    }
  }

  ghost function FirstNames(tasks: seq<Task>, i: nat): set<string>
    requires i <= |tasks|
  {
    set j | 0 <= j < i :: tasks[j].name
  }

  lemma NextName(tasks: seq<Task>, i: nat)
    requires i < |tasks| && DistinctTasks(tasks)
    ensures tasks[i].name !in FirstNames(tasks, i)
    ensures FirstNames(tasks, i + 1) == FirstNames(tasks, i) + {tasks[i].name}
    ensures tasks[..i + 1] == tasks[..i] + [Task(tasks[i].name, tasks[i].body)]
  {
  }
}
