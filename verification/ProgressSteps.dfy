/** The steps of the executor of MultiTaskProgress, as relations between its tables and the
    tree evaluator. */
module ProgressSteps {
  import opened Outcomes
  import opened TaskTree
  import opened TaskTreeLaws
  import opened ProgressBoard

  /** No child of p has appeared. */
  ghost predicate NoNewChildren(b: Board, b': Board, p: Path) {
    forall n :: p + [n] in b'.statuses ==> p + [n] in b.statuses
  }

  /** A body run as task `path` did what the evaluator says and kept the tables in order. */
  ghost predicate BodyDone(path: Path, deadline: Option<int>, s: Script,
                           b: Board, w: World, b': Board, w': World, c: Completion) {
    var e := EvalBody(path, deadline, s, PendingSubtasks(b, path), PendingCleanups(b, path), w);
    && c == e.completion && w' == e.world
    && PendingSubtasks(b', path) == e.pending && PendingCleanups(b', path) == e.cleanups
    && Ready(b', path) && SameOutside(path, b, b')
  }

  /** So did a call of run_added_tasks. */
  ghost predicate RunDone(path: Path, deadline: Option<int>, flag: bool,
                          b: Board, w: World, b': Board, w': World, r: TaskResult) {
    var e := EvalRun(path, deadline, PendingSubtasks(b, path), PendingCleanups(b, path), flag, w);
    && r == e.result && w' == e.world
    && PendingSubtasks(b', path) == e.pending && PendingCleanups(b', path) == []
    && Kept(path, b, b')
  }

  /** After a call there is no more to run than before it. */
  lemma RunLessToDo(path: Path, deadline: Option<int>, flag: bool,
                    b: Board, w: World, b': Board, w': World, r: TaskResult)
    requires RunDone(path, deadline, flag, b, w, b', w', r)
    ensures Weight(PendingSubtasks(b', path)) <= Weight(PendingSubtasks(b, path))
    ensures Weight(PendingCleanups(b', path)) == 0
  {
  }

  /** A body that starts by adding a task, or by running the tasks added, goes on from there. */
  lemma BodyGoesOn(path: Path, deadline: Option<int>, s: Script, next: Script,
                   b: Board, w: World, b1: Board, w1: World, b2: Board, w2: World, c: Completion)
    requires EvalBody(path, deadline, s, PendingSubtasks(b, path), PendingCleanups(b, path), w) ==
               EvalBody(path, deadline, next, PendingSubtasks(b1, path), PendingCleanups(b1, path), w1)
    requires SameOutside(path, b, b1) && BodyDone(path, deadline, next, b1, w1, b2, w2, c)
    ensures BodyDone(path, deadline, s, b, w, b2, w2, c)
  {
    SameOutsideTransitive(path, b, b1, b2);
  }

  /** What running children leaves intact. */
  ghost predicate Kept(path: Path, b: Board, b': Board) {
    Ready(b', path) && SameOutside(path, b, b') && NoNewChildren(b, b', path)
  }

  lemma KeptTransitive(path: Path, a: Board, b: Board, c: Board)
    requires Kept(path, a, b) && Kept(path, b, c)
    ensures Kept(path, a, c)
  {
    SameOutsideTransitive(path, a, b, c);
  }

  // ----- one task -----

  /** Child `name` of `parent` ran as the evaluator says. */
  ghost predicate TaskDone(parent: Path, name: string, deadline: Option<int>, body: Script,
                           b: Board, w: World, b': Board, w': World, c: Completion) {
    && c == EvalTask(parent + [name], deadline, body, w).completion
    && OnlyTask(parent, name, deadline, body, b, w, b', w')
    && Kept(parent, b, b')
  }

  /** Of this, what matters to the other children: nothing else has touched the tables. */
  ghost predicate OnlyTask(parent: Path, name: string, deadline: Option<int>, body: Script,
                           b: Board, w: World, b': Board, w': World) {
    && w' == EvalTask(parent + [name], deadline, body, w).world
    && w.statuses == b.statuses && w'.statuses == b'.statuses
    && SameOutside(parent + [name], b, b')
  }

  function SetStatus(b: Board, id: Path, status: Status): Board {
    b.(statuses := b.statuses[id := status])
  }

  lemma TaskEnters(b: Board, b': Board, parent: Path, name: string)
    requires Ready(b, parent) && IsPending(b, parent + [name])
    requires b' == SetStatus(b, parent + [name], InProgress)
    ensures var id := parent + [name];
      && Ready(b', id) && NamesUsed(b', id, {}) && id in b'.funcs && WellNamed(b'.funcs[id], {})
      && PendingSubtasks(b', id) == [] && PendingCleanups(b', id) == []
  {
    var id := parent + [name];
    PendingIsLeaf(b, id);
    StatusValid(b, b', id, InProgress);
    EntersProgress(b, b', parent, name);
    forall n
      ensures id + [n] !in b'.statuses
    {
      ChildIsUnder(id, n);
      assert id + [n] in b.statuses ==> n in {};
    }
  }

  lemma TaskLeaves(parent: Path, name: string, deadline: Option<int>, body: Script,
                   b: Board, w: World, b1: Board, b2: Board, w2: World, b3: Board, c: Completion)
    requires Ready(b, parent) && IsPending(b, parent + [name]) && w.statuses == b.statuses
    requires b1 == SetStatus(b, parent + [name], InProgress)
    requires PendingSubtasks(b1, parent + [name]) == [] && PendingCleanups(b1, parent + [name]) == []
    requires BodyDone(parent + [name], deadline, body, b1, Started(w, parent + [name], deadline), b2, w2, c)
    requires w2.statuses == b2.statuses
    requires b3 == SetStatus(b2, parent + [name], FinalStatus(c))
    ensures TaskDone(parent, name, deadline, body, b, w, b3, Ended(w2, parent + [name], c), c)
  {
    var id := parent + [name];
    var w3 := Ended(w2, id, c);
    assert w3 == EvalTask(id, deadline, body, w).world;
    TaskKeepsFamily(parent, name, deadline, body, w);
    LeavesReady(parent, name, b2, b3, FinalStatus(c));
    LeavesOthers(parent, name, b, b1, b2, b3, FinalStatus(c));
  }

  /** Running a known child adds no sibling and leaves the parent's status alone. */
  lemma TaskKeepsFamily(parent: Path, name: string, deadline: Option<int>, body: Script, w: World)
    requires parent + [name] in w.statuses
    ensures var w' := EvalTask(parent + [name], deadline, body, w).world;
      && SameAt(w, w', parent)
      && forall n :: parent + [n] in w'.statuses ==> parent + [n] in w.statuses
  {
    var w' := EvalTask(parent + [name], deadline, body, w).world;
    TaskGrows(parent + [name], deadline, body, w);
    NotUnderChild(parent, name);
    forall n | n != name
      ensures SameAt(w, w', parent + [n])
    {
      SiblingNotUnder(parent, name, n);
    }
  }

  lemma LeavesReady(parent: Path, name: string, b: Board, b': Board, status: Status)
    requires Ready(b, parent + [name]) && status != Pending && status != InProgress
    requires b' == SetStatus(b, parent + [name], status)
    requires Known(b', parent)
    ensures Ready(b', parent)
  {
    assert Known(b, parent + [name]) && parent + [name] != [];
    StatusValid(b, b', parent + [name], status);
    LeavesProgress(b, b', parent, name, status);
  }

  lemma LeavesOthers(parent: Path, name: string, b: Board, b1: Board, b2: Board, b3: Board, status: Status)
    requires b1 == SetStatus(b, parent + [name], InProgress) && b3 == SetStatus(b2, parent + [name], status)
    requires SameOutside(parent + [name], b1, b2)
    ensures SameOutside(parent + [name], b, b3) && SameOutside(parent, b, b3)
  {
    var id := parent + [name];
    SameOutsideTransitive(id, b1, b2, b3);
    SameOutsideTransitive(id, b, b1, b3);
    SameOutsideWiden(parent, name, b, b3);
  }

  lemma NotUnderChild(parent: Path, name: string)
    ensures !Under(parent + [name], false, parent)
  {
    assert |parent + [name]| > |parent|;
  }

  lemma SiblingNotUnder(parent: Path, name: string, other: string)
    requires other != name
    ensures !Under(parent + [name], false, parent + [other])
  {
    assert (parent + [name])[|parent|] != (parent + [other])[|parent|];
  }

  /** Running one child leaves the other children and their lists as they were. */
  lemma OthersKept(parent: Path, name: string, deadline: Option<int>, body: Script,
                   b: Board, w: World, b': Board, w': World, ids: seq<Path>)
    requires OnlyTask(parent, name, deadline, body, b, w, b', w')
    requires forall id :: id in ids ==> IsChild(parent, id) && id != parent + [name]
    ensures TasksOf(ids, b) == TasksOf(ids, b')
  {
    forall id | id in ids
      ensures (IsPending(b, id) <==> IsPending(b', id)) && SameFunc(b, b', id)
    {
      OtherKept(parent, name, deadline, body, b, w, b', w', id);
    }
    TasksOfSame(ids, b, b');
  }

  lemma OtherKept(parent: Path, name: string, deadline: Option<int>, body: Script,
                  b: Board, w: World, b': Board, w': World, id: Path)
    requires OnlyTask(parent, name, deadline, body, b, w, b', w')
    requires IsChild(parent, id) && id != parent + [name]
    ensures (IsPending(b, id) <==> IsPending(b', id)) && SameFunc(b, b', id)
  {
    var other := id[|parent|];
    assert id == parent + [other];
    OtherStatus(parent, name, deadline, body, b, w, b', w', other);
    OtherFunc(parent, name, other, b, b');
  }

  lemma OtherStatus(parent: Path, name: string, deadline: Option<int>, body: Script,
                    b: Board, w: World, b': Board, w': World, other: string)
    requires OnlyTask(parent, name, deadline, body, b, w, b', w') && other != name
    ensures IsPending(b, parent + [other]) <==> IsPending(b', parent + [other])
  {
    TaskKeepsSibling(parent, name, deadline, body, w, other);
    assert SameAt(w, w', parent + [other]);
  }

  lemma OtherFunc(parent: Path, name: string, other: string, b: Board, b': Board)
    requires SameOutside(parent + [name], b, b') && other != name
    ensures SameFunc(b, b', parent + [other])
  {
    SiblingNotUnder(parent, name, other);
    assert !Under(parent + [name], true, parent + [other]);
  }

  lemma ListsKept(parent: Path, name: string, b: Board, b': Board)
    requires SameOutside(parent + [name], b, b')
    ensures Lookup(b.subtasks, parent) == Lookup(b'.subtasks, parent)
    ensures Lookup(b.cleanups, parent) == Lookup(b'.cleanups, parent)
  {
    NotUnderChild(parent, name);
  }

  // ----- the loop over the regular tasks -----

  /** After looking at the first i entries of ids, with main the result if the loop was left. */
  ghost predicate MainSoFar(parent: Path, deadline: Option<int>, ids: seq<Path>, i: nat, stopped: bool,
                            main: TaskResult,
                            b0: Board, w0: World, b: Board, w: World) {
    && i <= |ids| && ids == Lookup(b0.subtasks, parent)
    && w.statuses == b.statuses
    && Kept(parent, b0, b)
    && Lookup(b.subtasks, parent) == ids
    && Lookup(b.cleanups, parent) == Lookup(b0.cleanups, parent)
    && PendingCleanups(b, parent) == PendingCleanups(b0, parent)
    && (forall j :: 0 <= j < i ==> !IsPending(b, ids[j]))
    && Weight(TasksOf(ids[i..], b)) <= Weight(TasksOf(ids, b0))
    && EvalMain(parent, deadline, TasksOf(ids, b0), w0) ==
         (if stopped then RunEnd(main, TasksOf(ids[i..], b), w)
          else EvalMain(parent, deadline, TasksOf(ids[i..], b), w))
  }

  lemma MainStart(parent: Path, deadline: Option<int>, b: Board, w: World)
    requires Ready(b, parent) && w.statuses == b.statuses
    ensures MainSoFar(parent, deadline, Lookup(b.subtasks, parent), 0, false, OK, b, w, b, w)
  {
    assert Lookup(b.subtasks, parent)[0..] == Lookup(b.subtasks, parent);
  }

  lemma TasksOfHead(ids: seq<Path>, i: nat, b: Board)
    requires i < |ids|
    ensures !IsPending(b, ids[i]) ==> TasksOf(ids[i..], b) == TasksOf(ids[i + 1..], b)
    ensures IsPending(b, ids[i]) && ids[i] in b.funcs && ids[i] != [] ==>
              TasksOf(ids[i..], b) == [Task(ids[i][|ids[i]| - 1], b.funcs[ids[i]])] + TasksOf(ids[i + 1..], b)
  {
    assert ids[i..][1..] == ids[i + 1..];
  }

  lemma MainSkips(parent: Path, deadline: Option<int>, ids: seq<Path>, i: nat, b0: Board, w0: World, b: Board, w: World)
    requires MainSoFar(parent, deadline, ids, i, false, OK, b0, w0, b, w)
    requires i < |ids| && !IsPending(b, ids[i])
    ensures MainSoFar(parent, deadline, ids, i + 1, false, OK, b0, w0, b, w)
  {
    TasksOfHead(ids, i, b);
  }

  /** The entry looked at is a pending child with a body. */
  lemma EntryIsChild(parent: Path, b: Board, ids: seq<Path>, i: nat)
    requires Valid(b) && i < |ids|
    requires ids == Lookup(b.subtasks, parent) || ids == Lookup(b.cleanups, parent)
    ensures IsChild(parent, ids[i]) && ids[i] in b.funcs && ids[i] in b.statuses
    ensures ids[i] == parent + [ids[i][|parent|]] && ids[i][|ids[i]| - 1] == ids[i][|parent|]
    ensures forall id :: id in ids[i + 1..] ==> IsChild(parent, id) && id != ids[i]
    ensures forall j :: 0 <= j < i ==> IsChild(parent, ids[j]) && ids[j] != ids[i]
  {
    DistinctParts(Lookup(b.subtasks, parent), Lookup(b.cleanups, parent));
    ChildrenOf(parent, b, ids, i);
  }

  lemma ChildrenOf(parent: Path, b: Board, ids: seq<Path>, i: nat)
    requires GoodList(b, parent, ids) && DistinctIds(ids) && i < |ids|
    ensures IsChild(parent, ids[i]) && ids[i] in b.funcs && ids[i] in b.statuses
    ensures ids[i] == parent + [ids[i][|parent|]] && ids[i][|ids[i]| - 1] == ids[i][|parent|]
    ensures forall id :: id in ids[i + 1..] ==> IsChild(parent, id) && id != ids[i]
    ensures forall j :: 0 <= j < i ==> IsChild(parent, ids[j]) && ids[j] != ids[i]
  {
    assert GoodId(b, parent, ids[i]);
    forall id | id in ids[i + 1..]
      ensures IsChild(parent, id) && id != ids[i]
    {
      assert GoodId(b, parent, id);
    }
    forall j | 0 <= j < i
      ensures IsChild(parent, ids[j])
    {
      assert GoodId(b, parent, ids[j]);
    }
  }

  lemma DistinctParts(x: seq<Path>, y: seq<Path>)
    requires DistinctIds(x + y)
    ensures DistinctIds(x) && DistinctIds(y)
    ensures forall id :: id in x ==> id !in y
  {
    var z := x + y;
    assert forall i :: 0 <= i < |x| ==> z[i] == x[i];
    assert forall i :: 0 <= i < |y| ==> z[|x| + i] == y[i];
  }

  lemma OtherListKept(parent: Path, name: string, deadline: Option<int>, body: Script,
                      b: Board, w: World, b': Board, w': World, mine: seq<Path>, other: seq<Path>)
    requires OnlyTask(parent, name, deadline, body, b, w, b', w')
    requires Valid(b) && parent + [name] in mine
    requires (mine == Lookup(b.subtasks, parent) && other == Lookup(b.cleanups, parent))
          || (mine == Lookup(b.cleanups, parent) && other == Lookup(b.subtasks, parent))
    ensures TasksOf(other, b) == TasksOf(other, b')
  {
    DistinctParts(Lookup(b.subtasks, parent), Lookup(b.cleanups, parent));
    assert GoodList(b, parent, other);
    assert forall id :: id in other ==> GoodId(b, parent, id);
    OthersKept(parent, name, deadline, body, b, w, b', w', other);
  }

  /** After an attempted task, the entries before it are still settled. */
  lemma StillSettled(parent: Path, name: string, deadline: Option<int>, body: Script,
                     b: Board, w: World, b': Board, w': World, ids: seq<Path>, i: nat)
    requires OnlyTask(parent, name, deadline, body, b, w, b', w')
    requires i < |ids| && ids[i] == parent + [name]
    requires forall j :: 0 <= j < i ==> IsChild(parent, ids[j]) && ids[j] != ids[i] && !IsPending(b, ids[j])
    ensures forall j :: 0 <= j <= i ==> !IsPending(b', ids[j])
  {
    TaskStatus(parent + [name], deadline, body, w);
    assert !IsPending(b', ids[i]);
    forall j | 0 <= j < i
      ensures !IsPending(b', ids[j])
    {
      assert IsChild(parent, ids[j]) && ids[j] != ids[i] && !IsPending(b, ids[j]);
      OtherKept(parent, name, deadline, body, b, w, b', w', ids[j]);
    }
  }

  lemma MainRuns(parent: Path, deadline: Option<int>, ids: seq<Path>, i: nat,
                 b0: Board, w0: World, b: Board, w: World, name: string, body: Script, b': Board, w': World,
                 c: Completion)
    requires MainSoFar(parent, deadline, ids, i, false, OK, b0, w0, b, w)
    requires i < |ids| && IsPending(b, ids[i]) && ids[i] == parent + [name] && name == ids[i][|ids[i]| - 1]
    requires ids[i] in b.funcs && body == b.funcs[ids[i]]
    requires TaskDone(parent, name, deadline, body, b, w, b', w', c)
    ensures MainSoFar(parent, deadline, ids, i + 1, !GoesOn(c), if GoesOn(c) then OK else MainResult(c), b0, w0, b', w')
  {
    EntryIsChild(parent, b, ids, i);
    TasksOfHead(ids, i, b);
    OthersKept(parent, name, deadline, body, b, w, b', w', ids[i + 1..]);
    OtherListKept(parent, name, deadline, body, b, w, b', w', ids, Lookup(b.cleanups, parent));
    StillSettled(parent, name, deadline, body, b, w, b', w', ids, i);
    ListsKept(parent, name, b, b');
    KeptTransitive(parent, b0, b, b');
    MainUnfolds(parent, deadline, Task(name, body), TasksOf(ids[i + 1..], b), w);
  }

  /** The evaluator on a non-empty list, unfolded once. */
  lemma MainUnfolds(parent: Path, deadline: Option<int>, t: Task, rest: seq<Task>, w: World)
    ensures var ended := EvalTask(parent + [t.name], deadline, t.body, w);
            EvalMain(parent, deadline, [t] + rest, w) ==
              (if GoesOn(ended.completion) then EvalMain(parent, deadline, rest, ended.world)
               else RunEnd(MainResult(ended.completion), rest, ended.world))
    ensures Weight([t] + rest) == 1 + Size(t.body) + Weight(rest)
  {
    assert ([t] + rest)[1..] == rest;
  }

  lemma CleanupsUnfold(parent: Path, t: Task, rest: seq<Task>, w: World)
    ensures var ended := EvalTask(parent + [t.name], None, t.body, w);
            var others := EvalCleanups(parent, rest, ended.world);
            EvalCleanups(parent, [t] + rest, w) ==
              RunEnd(CleanupResult(ended.completion, others.result), [], others.world)
    ensures Weight([t] + rest) == 1 + Size(t.body) + Weight(rest)
  {
    assert ([t] + rest)[1..] == rest;
  }

  /** The regular tasks ran as the evaluator says. */
  ghost predicate MainDone(parent: Path, deadline: Option<int>, b: Board, w: World, b': Board, w': World,
                           r: TaskResult) {
    && EvalMain(parent, deadline, PendingSubtasks(b, parent), w) == RunEnd(r, PendingSubtasks(b', parent), w')
    && PendingCleanups(b', parent) == PendingCleanups(b, parent)
    && Kept(parent, b, b')
  }

  /** When the loop is left, the evaluator's regular part is done. */
  lemma MainEnds(parent: Path, deadline: Option<int>, ids: seq<Path>, i: nat, stopped: bool, main: TaskResult,
                 b0: Board, w0: World, b: Board, w: World)
    requires MainSoFar(parent, deadline, ids, i, stopped, main, b0, w0, b, w)
    requires stopped || (i == |ids| && main == OK)
    ensures MainDone(parent, deadline, b0, w0, b, w, main)
  {
    TasksOfSuffix(ids, i, b);
  }

  // ----- the loop over the cleanups -----

  /** The result so far, completed by the result of the cleanups to come. */
  function Completed(allSuccess: bool, firstError: Option<string>, rest: TaskResult): TaskResult {
    if allSuccess then rest
    else TaskResult(false, None, if firstError.Some? then firstError else rest.error, false, None)
  }

  ghost predicate CleanupsSoFar(parent: Path, ids: seq<Path>, i: nat, allSuccess: bool, firstError: Option<string>,
                                b0: Board, w0: World, b: Board, w: World) {
    && i <= |ids| && ids == Lookup(b0.cleanups, parent)
    && w.statuses == b.statuses
    && Kept(parent, b0, b)
    && Lookup(b.cleanups, parent) == ids
    && PendingSubtasks(b, parent) == PendingSubtasks(b0, parent)
    && (forall j :: 0 <= j < i ==> !IsPending(b, ids[j]))
    && Weight(TasksOf(ids[i..], b)) <= Weight(TasksOf(ids, b0))
    && (allSuccess ==> firstError == None)
    && var rest := EvalCleanups(parent, TasksOf(ids[i..], b), w);
       EvalCleanups(parent, TasksOf(ids, b0), w0) ==
         RunEnd(Completed(allSuccess, firstError, rest.result), [], rest.world)
  }

  lemma CleanupsStart(parent: Path, b: Board, w: World)
    requires Ready(b, parent) && w.statuses == b.statuses
    ensures CleanupsSoFar(parent, Lookup(b.cleanups, parent), 0, true, None, b, w, b, w)
  {
    assert Lookup(b.cleanups, parent)[0..] == Lookup(b.cleanups, parent);
    CleanupsLeaveNone(parent, TasksOf(Lookup(b.cleanups, parent), b), w);
  }

  lemma CleanupsLeaveNone(parent: Path, tasks: seq<Task>, w: World)
    ensures EvalCleanups(parent, tasks, w).pending == []
  {
  }

  lemma CleanupsSkip(parent: Path, ids: seq<Path>, i: nat, allSuccess: bool, firstError: Option<string>,
                     b0: Board, w0: World, b: Board, w: World)
    requires CleanupsSoFar(parent, ids, i, allSuccess, firstError, b0, w0, b, w)
    requires i < |ids| && !IsPending(b, ids[i])
    ensures CleanupsSoFar(parent, ids, i + 1, allSuccess, firstError, b0, w0, b, w)
  {
    TasksOfHead(ids, i, b);
  }

  function ErrorOf(c: Completion): Option<string> {
    if c.Raised? then Some(c.message) else c.result.error
  }

  predicate Succeeds(c: Completion) {
    c.Returned? && c.result.success
  }

  lemma CleanupsRun(parent: Path, ids: seq<Path>, i: nat, allSuccess: bool, firstError: Option<string>,
                    b0: Board, w0: World, b: Board, w: World, name: string, body: Script, b': Board, w': World,
                    c: Completion)
    requires CleanupsSoFar(parent, ids, i, allSuccess, firstError, b0, w0, b, w)
    requires i < |ids| && IsPending(b, ids[i]) && ids[i] == parent + [name] && name == ids[i][|ids[i]| - 1]
    requires ids[i] in b.funcs && body == b.funcs[ids[i]]
    requires TaskDone(parent, name, None, body, b, w, b', w', c)
    ensures CleanupsSoFar(parent, ids, i + 1,
                          allSuccess && Succeeds(c),
                          if Succeeds(c) || firstError.Some? then firstError else ErrorOf(c), b0, w0, b', w')
  {
    EntryIsChild(parent, b, ids, i);
    TasksOfHead(ids, i, b);
    OthersKept(parent, name, None, body, b, w, b', w', ids[i + 1..]);
    OtherListKept(parent, name, None, body, b, w, b', w', ids, Lookup(b.subtasks, parent));
    StillSettled(parent, name, None, body, b, w, b', w', ids, i);
    ListsKept(parent, name, b, b');
    KeptTransitive(parent, b0, b, b');
    CleanupsUnfold(parent, Task(name, body), TasksOf(ids[i + 1..], b), w);
  }

  /** All cleanups of the parent were attempted as the evaluator says. */
  ghost predicate CleanupsDone(parent: Path, b: Board, w: World, b': Board, w': World, r: TaskResult) {
    && EvalCleanups(parent, PendingCleanups(b, parent), w) == RunEnd(r, [], w')
    && PendingCleanups(b', parent) == []
    && PendingSubtasks(b', parent) == PendingSubtasks(b, parent)
    && Kept(parent, b, b')
  }

  lemma CleanupsEnd(parent: Path, ids: seq<Path>, allSuccess: bool, firstError: Option<string>,
                    b0: Board, w0: World, b: Board, w: World)
    requires CleanupsSoFar(parent, ids, |ids|, allSuccess, firstError, b0, w0, b, w)
    ensures CleanupsDone(parent, b0, w0, b, w, TaskResult(allSuccess, None, firstError, false, None))
  {
    TasksOfSuffix(ids, |ids|, b);
  }

  /** Both parts together are one call of run_added_tasks. */
  lemma RunCompletes(parent: Path, deadline: Option<int>, flag: bool, main: TaskResult, cleanup: TaskResult,
                     b0: Board, w0: World, b1: Board, w1: World, b2: Board, w2: World)
    requires MainDone(parent, deadline, b0, w0, b1, w1, main)
    requires CleanupsDone(parent, b1, w1, b2, w2, cleanup)
    ensures RunDone(parent, deadline, flag, b0, w0, b2, w2, RunResult(main, cleanup, flag))
  {
    KeptTransitive(parent, b0, b1, b2);
  }
}
