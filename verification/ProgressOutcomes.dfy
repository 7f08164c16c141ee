/** What one call of run_added_tasks means on the tables of MultiTaskProgress (oss_crs/src/ui.py):
    the laws of task trees, carried over along the refinement. */
module ProgressOutcomes {
  import opened Outcomes
  import opened TaskTree
  import opened TaskEnds
  import opened TaskTreeLaws
  import opened ProgressBoard
  import opened ProgressSteps

  ghost predicate AreChildren(p: Path, ids: seq<Path>) {
    forall id :: id in ids ==> IsChild(p, id)
  }

  /** The entry a pending task comes from. */
  lemma {:induction false} TaskHasEntry(p: Path, ids: seq<Path>, b: Board, t: Task)
    requires AreChildren(p, ids) && t in TasksOf(ids, b)
    ensures p + [t.name] in ids && IsPending(b, p + [t.name])
  {
    var first := ids[0];
    assert IsChild(p, first) && first == p + [first[|first| - 1]];
    if t !in TasksOf(ids[1..], b) {
      assert t.name == first[|first| - 1];
    } else {
      TaskHasEntry(p, ids[1..], b, t);
    }
  }

  lemma {:induction false} TasksDistinct(p: Path, ids: seq<Path>, b: Board)
    requires AreChildren(p, ids) && DistinctIds(ids)
    ensures DistinctTasks(TasksOf(ids, b))
  {
    if ids != [] {
      var first := ids[0];
      TasksDistinct(p, ids[1..], b);
      assert IsChild(p, first) && first == p + [first[|first| - 1]];
      forall t | t in TasksOf(ids[1..], b)
        ensures t.name != first[|first| - 1]
      {
        TaskHasEntry(p, ids[1..], b, t);
        assert first !in ids[1..];
      }
    }
  }

  lemma {:induction false} TasksOfConcat(x: seq<Path>, y: seq<Path>, b: Board)
    ensures TasksOf(x + y, b) == TasksOf(x, b) + TasksOf(y, b)
  {
    if x == [] {
      assert x + y == y;
    } else {
      assert (x + y)[1..] == x[1..] + y;
      TasksOfConcat(x[1..], y, b);
    }
  }

  lemma ListsAreChildren(b: Board, p: Path)
    requires Valid(b)
    ensures AreChildren(p, Lookup(b.subtasks, p)) && AreChildren(p, Lookup(b.cleanups, p))
  {
    forall id | id in Lookup(b.subtasks, p)
      ensures IsChild(p, id)
    {
      assert GoodId(b, p, id);
    }
    forall id | id in Lookup(b.cleanups, p)
      ensures IsChild(p, id)
    {
      assert GoodId(b, p, id);
    }
  }

  /** On well-formed tables the pending tasks and cleanups of a task have different names. */
  lemma ReadyDistinct(b: Board, p: Path)
    requires Ready(b, p)
    ensures DistinctTasks(PendingSubtasks(b, p) + PendingCleanups(b, p))
  {
    var x, y := Lookup(b.subtasks, p), Lookup(b.cleanups, p);
    ListsAreChildren(b, p);
    TasksOfConcat(x, y, b);
    TasksDistinct(p, x + y, b);
  }

  /** A call of run_added_tasks by task `path` under a deadline, with these pending subtasks and cleanups, of
      which the subtasks in `left` stay pending: it started the other subtasks, which are those up to the first
      whose body does not end plainly, each under the deadline, and then every cleanup, each once and in order,
      and nothing that started from the first cleanup on, at any depth, saw a deadline. All that were started
      are marked as their bodies ended, those left are pending, and the result is told from the bodies. */
  ghost predicate CallMeans(path: Path, deadline: Option<int>, flag: bool, pending: seq<Task>, cleanups: seq<Task>,
                            left: seq<Task>, w: World, w': World, r: TaskResult) {
    && |left| <= |pending|
    && var k := |pending| - |left|;
    && left == pending[k..]
    && StopsAfter(pending, k)
    && StartedInOrder(path, deadline, pending, cleanups, k, w, w')
    && SubtasksAt(path, pending, k, w')
    && AllMarked(path, cleanups, w')
    && CallReturns(flag, pending, k, cleanups, r)
  }

  ghost predicate StartedInOrder(path: Path, deadline: Option<int>, pending: seq<Task>, cleanups: seq<Task>, k: nat,
                                 w: World, w': World)
    requires k <= |pending|
  {
    && |w.log| <= |w'.log|
    && exists m: nat :: CleanupsFrom(path, deadline, pending[..k], cleanups, |w.log|, m, w'.log)
  }

  /** From position `start` of the log on, the subtasks start under the deadline; from m on, the cleanups,
      without a deadline. */
  ghost predicate CleanupsFrom(path: Path, deadline: Option<int>, subtasks: seq<Task>, cleanups: seq<Task>,
                               start: nat, m: nat, log: seq<Event>) {
    && start <= m <= |log|
    && Starts(path, log[start..m]) == Names(subtasks) && ChildrenSee(path, log[start..m], deadline)
    && Starts(path, log[m..]) == Names(cleanups)
    && forall i :: m <= i < |log| ==> log[i].deadline == None
  }

  /** The first k subtasks were started, the others were not. */
  ghost predicate SubtasksAt(path: Path, pending: seq<Task>, k: nat, w': World)
    requires k <= |pending|
  {
    && AllMarked(path, pending[..k], w')
    && (forall i :: k <= i < |pending| ==> StatusIs(w', path + [pending[i].name], Pending))
  }

  ghost predicate AllPending(path: Path, pending: seq<Task>, w: World) {
    forall t :: t in pending ==> StatusIs(w, path + [t.name], Pending)
  }

  /** If no subtask raises, fails or exits early, all are started and none is left. */
  lemma NoneLeftBehind(path: Path, deadline: Option<int>, flag: bool, pending: seq<Task>, cleanups: seq<Task>,
                       left: seq<Task>, w: World, w': World, r: TaskResult)
    requires CallMeans(path, deadline, flag, pending, cleanups, left, w, w', r)
    ensures left == [] <==> forall i :: 0 <= i < |pending| - 1 ==> EndsPlainly(pending[i].body)
  {
  }

  lemma EvalStatuses(path: Path, deadline: Option<int>, pending: seq<Task>, cleanups: seq<Task>, flag: bool, w: World)
    requires DistinctTasks(pending + cleanups) && AllPending(path, pending, w)
    ensures var e := EvalRun(path, deadline, pending, cleanups, flag, w);
      && |e.pending| <= |pending|
      && SubtasksAt(path, pending, |pending| - |e.pending|, e.world) && AllMarked(path, cleanups, e.world)
  {
    RunOutcome(path, deadline, pending, cleanups, flag, w);
  }

  lemma EvalMeans(path: Path, deadline: Option<int>, pending: seq<Task>, cleanups: seq<Task>, flag: bool, w: World)
    requires DistinctTasks(pending + cleanups) && AllPending(path, pending, w)
    ensures var e := EvalRun(path, deadline, pending, cleanups, flag, w);
            CallMeans(path, deadline, flag, pending, cleanups, e.pending, w, e.world, e.result)
  {
    EvalStatuses(path, deadline, pending, cleanups, flag, w);
    RunReturns(path, deadline, pending, cleanups, flag, w);
    EvalOrder(path, deadline, pending, cleanups, flag, w);
  }

  lemma EvalOrder(path: Path, deadline: Option<int>, pending: seq<Task>, cleanups: seq<Task>, flag: bool, w: World)
    ensures var e := EvalRun(path, deadline, pending, cleanups, flag, w);
      && |e.pending| <= |pending| && e.pending == pending[|pending| - |e.pending|..]
      && StartedInOrder(path, deadline, pending, cleanups, |pending| - |e.pending|, w, e.world)
  {
    var e := EvalRun(path, deadline, pending, cleanups, flag, w);
    var middle := RunOrder(path, deadline, pending, cleanups, flag, w);
    CleanupsGrow(path, deadline, cleanups, middle);
    var m, log := |middle.log|, e.world.log;
    assert log[..m] == middle.log;
    assert log[|w.log|..m] == Since(w, middle) && log[m..] == Since(middle, e.world);
    assert CleanupsFrom(path, deadline, pending[..|pending| - |e.pending|], cleanups, |w.log|, m, log);
  }

  lemma PendingIsPending(b: Board, w: World, p: Path)
    requires Ready(b, p) && w.statuses == b.statuses
    ensures AllPending(p, PendingSubtasks(b, p), w)
  {
    ListsAreChildren(b, p);
    forall t | t in PendingSubtasks(b, p)
      ensures StatusIs(w, p + [t.name], Pending)
    {
      TaskHasEntry(p, Lookup(b.subtasks, p), b, t);
    }
  }

  /** All this holds of a call on the tables of MultiTaskProgress, and no cleanup is left pending. */
  ghost predicate RunMeans(path: Path, deadline: Option<int>, flag: bool,
                           b: Board, w: World, b': Board, w': World, r: TaskResult) {
    && CallMeans(path, deadline, flag, PendingSubtasks(b, path), PendingCleanups(b, path),
                 PendingSubtasks(b', path), w, w', r)
    && PendingCleanups(b', path) == []
  }

  lemma RunDoneMeans(path: Path, deadline: Option<int>, flag: bool,
                     b: Board, w: World, b': Board, w': World, r: TaskResult)
    requires Ready(b, path) && w.statuses == b.statuses
    requires RunDone(path, deadline, flag, b, w, b', w', r)
    ensures RunMeans(path, deadline, flag, b, w, b', w', r)
  {
    ReadyDistinct(b, path);
    PendingIsPending(b, w, path);
    EvalMeans(path, deadline, PendingSubtasks(b, path), PendingCleanups(b, path), flag, w);
  }
}
