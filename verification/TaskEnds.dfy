/** How tasks end, told from their bodies alone: which tasks a call of run_added_tasks starts, and
    what it returns (oss_crs/src/ui.py). */
module TaskEnds {
  import opened Outcomes
  import opened TaskTree

  /** How a task with this body ends; EndsAnywhere says that it does so under any name and deadline and
      in any world. */
  ghost function Ends(body: Script): Completion {
    EvalTask([], None, body, World(map[], [])).completion
  }

  predicate SameBody(a: BodyEnd, b: BodyEnd) {
    a.completion == b.completion && a.pending == b.pending && a.cleanups == b.cleanups
  }

  predicate SameRun(a: RunEnd, b: RunEnd) {
    a.result == b.result && a.pending == b.pending
  }

  /** Two places where a task may run. */
  datatype Place = Place(path: Path, deadline: Option<int>)

  lemma {:induction false} BodyAlike(p: Place, w: World, q: Place, v: World,
                                     s: Script, pending: seq<Task>, cleanups: seq<Task>)
    ensures SameBody(EvalBody(p.path, p.deadline, s, pending, cleanups, w),
                     EvalBody(q.path, q.deadline, s, pending, cleanups, v))
    decreases Size(s) + Weight(pending) + Weight(cleanups), 3
  {
    match s {
      case Return(_) =>
      case Raise(_) =>
      case Add(name, body, next) =>
        WeightAppend(pending, Task(name, body));
        BodyAlike(p, Added(w, p.path + [name]), q, Added(v, q.path + [name]),
                  next, pending + [Task(name, body)], cleanups);
      case AddCleanup(name, body, next) =>
        WeightAppend(cleanups, Task(name, body));
        BodyAlike(p, Added(w, p.path + [name]), q, Added(v, q.path + [name]),
                  next, pending, cleanups + [Task(name, body)]);
      case Run(flag, ifOk, ifFailed) =>
        RunAlike(p, w, q, v, pending, cleanups, flag);
        var a := EvalRun(p.path, p.deadline, pending, cleanups, flag, w);
        var b := EvalRun(q.path, q.deadline, pending, cleanups, flag, v);
        BodyAlike(p, a.world, q, b.world, if a.result.success then ifOk else ifFailed, a.pending, []);
      case ReturnRun(flag) =>
        RunAlike(p, w, q, v, pending, cleanups, flag);
    }
  }

  lemma {:induction false} RunAlike(p: Place, w: World, q: Place, v: World,
                                    pending: seq<Task>, cleanups: seq<Task>, flag: bool)
    ensures SameRun(EvalRun(p.path, p.deadline, pending, cleanups, flag, w),
                    EvalRun(q.path, q.deadline, pending, cleanups, flag, v))
    decreases Weight(pending) + Weight(cleanups), 2
  {
    MainAlike(p, w, q, v, pending);
    CleanupsAlike(p, EvalMain(p.path, p.deadline, pending, w).world,
                  q, EvalMain(q.path, q.deadline, pending, v).world, cleanups);
  }

  lemma {:induction false} MainAlike(p: Place, w: World, q: Place, v: World, pending: seq<Task>)
    ensures SameRun(EvalMain(p.path, p.deadline, pending, w), EvalMain(q.path, q.deadline, pending, v))
    decreases Weight(pending), 1
  {
    if pending != [] {
      var t := pending[0];
      TaskAlike(Place(p.path + [t.name], p.deadline), w, Place(q.path + [t.name], q.deadline), v, t.body);
      MainAlike(p, EvalTask(p.path + [t.name], p.deadline, t.body, w).world,
                q, EvalTask(q.path + [t.name], q.deadline, t.body, v).world, pending[1..]);
    }
  }

  lemma {:induction false} CleanupsAlike(p: Place, w: World, q: Place, v: World, cleanups: seq<Task>)
    ensures SameRun(EvalCleanups(p.path, cleanups, w), EvalCleanups(q.path, cleanups, v))
    decreases Weight(cleanups), 1
  {
    if cleanups != [] {
      var t := cleanups[0];
      TaskAlike(Place(p.path + [t.name], None), w, Place(q.path + [t.name], None), v, t.body);
      CleanupsAlike(p, EvalTask(p.path + [t.name], None, t.body, w).world,
                    q, EvalTask(q.path + [t.name], None, t.body, v).world, cleanups[1..]);
    }
  }

  lemma {:induction false} TaskAlike(p: Place, w: World, q: Place, v: World, body: Script)
    ensures SameBody(EvalTask(p.path, p.deadline, body, w), EvalTask(q.path, q.deadline, body, v))
    decreases 1 + Size(body), 0
  {
    BodyAlike(p, Started(w, p.path, p.deadline), q, Started(v, q.path, q.deadline), body, [], []);
  }

  /** How a task ends depends on its body only. */
  lemma EndsAnywhere(id: Path, deadline: Option<int>, body: Script, w: World)
    ensures EvalTask(id, deadline, body, w).completion == Ends(body)
  {
    TaskAlike(Place(id, deadline), w, Place([], None), World(map[], []), body);
  }

  // ----- where a call stops -----

  /** The body returns a success that is no early exit. */
  ghost predicate EndsPlainly(body: Script) {
    Ends(body).Returned? && Ends(body).result.success && !Ends(body).result.interrupted
  }

  /** The body raises, or returns no success. */
  ghost predicate Fails(body: Script) {
    Ends(body).Raised? || !Ends(body).result.success
  }

  /** The first k of these tasks are those that are started: all before the last one end plainly, and
      the last one does not if there are others after it. */
  ghost predicate StopsAfter(tasks: seq<Task>, k: nat) {
    && k <= |tasks|
    && (tasks != [] ==> k > 0)
    && (forall i :: 0 <= i < k - 1 ==> EndsPlainly(tasks[i].body))
    && (k < |tasks| ==> !EndsPlainly(tasks[k - 1].body))
  }

  lemma StopsAfterUnique(tasks: seq<Task>, j: nat, k: nat)
    requires StopsAfter(tasks, j) && StopsAfter(tasks, k)
    ensures j == k
  {
  }

  lemma StopsAfterStep(tasks: seq<Task>, k: nat)
    requires tasks != [] && EndsPlainly(tasks[0].body) && StopsAfter(tasks[1..], k)
    ensures StopsAfter(tasks, k + 1)
  {
    forall i | 0 <= i < k
      ensures EndsPlainly(tasks[i].body)
    {
      if i > 0 {
        assert tasks[1..][i - 1] == tasks[i];
      }
    }
    assert 0 < k < |tasks| - 1 ==> tasks[1..][k - 1] == tasks[k];
  }

  /** Exactly which of the regular tasks a call starts. */
  lemma {:induction false} MainStopsAfter(path: Path, deadline: Option<int>, pending: seq<Task>, w: World)
    ensures var e := EvalMain(path, deadline, pending, w);
      |e.pending| <= |pending| && StopsAfter(pending, |pending| - |e.pending|)
    decreases |pending|
  {
    if pending != [] {
      var t := pending[0];
      var ended := EvalTask(path + [t.name], deadline, t.body, w);
      EndsAnywhere(path + [t.name], deadline, t.body, w);
      if EndsPlainly(t.body) {
        MainStopsAfter(path, deadline, pending[1..], ended.world);
        var e := EvalMain(path, deadline, pending[1..], ended.world);
        StopsAfterStep(pending, |pending| - 1 - |e.pending|);
      }
    }
  }

  /** What is left pending is the rest of the list. */
  lemma {:induction false} MainLeavesRest(path: Path, deadline: Option<int>, pending: seq<Task>, w: World)
    ensures var e := EvalMain(path, deadline, pending, w);
      |e.pending| <= |pending| && e.pending == pending[|pending| - |e.pending|..]
    decreases |pending|
  {
    if pending != [] {
      var t := pending[0];
      MainLeavesRest(path, deadline, pending[1..], EvalTask(path + [t.name], deadline, t.body, w).world);
    }
  }

  /** If no task raises, fails or exits early, a call starts all of them and leaves none pending. */
  lemma AllRunIfNoneStops(path: Path, deadline: Option<int>, pending: seq<Task>, cleanups: seq<Task>, flag: bool,
                          w: World)
    requires forall t :: t in pending ==> EndsPlainly(t.body)
    ensures EvalRun(path, deadline, pending, cleanups, flag, w).pending == []
  {
    MainStopsAfter(path, deadline, pending, w);
    assert forall i :: 0 <= i < |pending| ==> pending[i] in pending;
  }

  // ----- how a task is marked -----

  /** The task ended: it succeeded, was interrupted without a success, or failed. */
  ghost predicate IsMarked(w: World, id: Path, body: Script) {
    var c := Ends(body);
    && id in w.statuses
    && (w.statuses[id] == Succeeded <==> c.Returned? && c.result.success)
    && (w.statuses[id] == Stopped <==> c.Returned? && !c.result.success && c.result.interrupted)
    && (w.statuses[id] == Failed <==> c.Raised? || (!c.result.success && !c.result.interrupted))
  }

  lemma TaskMarked(id: Path, deadline: Option<int>, body: Script, w: World)
    ensures IsMarked(EvalTask(id, deadline, body, w).world, id, body)
  {
    EndsAnywhere(id, deadline, body, w);
  }

  // ----- what a call returns -----

  /** The failure is passed on: the message of an exception, or the error and the interruption returned. */
  ghost predicate PassesOn(c: Completion, r: TaskResult) {
    match c
    case Raised(message) =>
      !r.success && r.output == None && r.error == Some(message) && !r.interrupted && r.reason == None
    case Returned(x) =>
      !r.success && r.output == None && r.error == x.error && r.interrupted == x.interrupted && r.reason == x.reason
  }

  /** What a failing task has to say. */
  ghost function Complaint(body: Script): Option<string> {
    match Ends(body)
    case Raised(message) => Some(message)
    case Returned(x) => if x.success then None else x.error
  }

  /** The first complaint of these tasks, if any. */
  ghost predicate IsFirstComplaint(tasks: seq<Task>, error: Option<string>) {
    if error.None? then forall i :: 0 <= i < |tasks| ==> Complaint(tasks[i].body) == None
    else exists i :: ComplainsFirst(tasks, i, error)
  }

  ghost predicate ComplainsFirst(tasks: seq<Task>, i: int, error: Option<string>) {
    && 0 <= i < |tasks| && Complaint(tasks[i].body) == error
    && forall j :: 0 <= j < i ==> Complaint(tasks[j].body) == None
  }

  ghost predicate SomeFails(tasks: seq<Task>) {
    exists t :: t in tasks && Fails(t.body)
  }

  ghost predicate CleanupsReturn(cleanups: seq<Task>, r: TaskResult) {
    if SomeFails(cleanups) then
      !r.success && r.output == None && IsFirstComplaint(cleanups, r.error) && !r.interrupted && r.reason == None
    else r == OK
  }

  /** What a call returns, of which k regular tasks were started: the failure of the last one, or else, unless
      excused, the first complaint of a cleanup if one failed, or else a plain success. */
  ghost predicate CallReturns(flag: bool, pending: seq<Task>, k: nat, cleanups: seq<Task>, r: TaskResult)
    requires k <= |pending|
  {
    if k > 0 && Fails(pending[k - 1].body) then PassesOn(Ends(pending[k - 1].body), r)
    else if flag then CleanupsReturn(cleanups, r)
    else r == OK
  }

  lemma {:induction false} MainReturns(path: Path, deadline: Option<int>, pending: seq<Task>, w: World)
    ensures var e := EvalMain(path, deadline, pending, w);
      && |e.pending| <= |pending|
      && var k := |pending| - |e.pending|;
      if k > 0 && Fails(pending[k - 1].body) then PassesOn(Ends(pending[k - 1].body), e.result)
      else e.result.success
    decreases |pending|
  {
    if pending != [] {
      var t := pending[0];
      var ended := EvalTask(path + [t.name], deadline, t.body, w);
      EndsAnywhere(path + [t.name], deadline, t.body, w);
      if GoesOn(ended.completion) {
        MainReturns(path, deadline, pending[1..], ended.world);
        var k := |pending| - |EvalMain(path, deadline, pending[1..], ended.world).pending|;
        assert k > 1 ==> pending[1..][k - 2] == pending[k - 1];
      }
    }
  }

  lemma FirstComplaintStep(tasks: seq<Task>, error: Option<string>)
    requires tasks != [] && IsFirstComplaint(tasks[1..], error)
    ensures IsFirstComplaint(tasks, if Complaint(tasks[0].body).Some? then Complaint(tasks[0].body) else error)
  {
    var first := Complaint(tasks[0].body);
    if first.Some? {
      assert ComplainsFirst(tasks, 0, first);
    } else if error.Some? {
      var i :| ComplainsFirst(tasks[1..], i, error);
      assert forall j :: 0 < j <= i + 1 ==> tasks[j] == tasks[1..][j - 1];
      assert ComplainsFirst(tasks, i + 1, error);
    } else {
      assert forall j :: 0 < j < |tasks| ==> tasks[j] == tasks[1..][j - 1];
    }
  }

  lemma CleanupsReturnStep(tasks: seq<Task>, rest: TaskResult)
    requires tasks != [] && CleanupsReturn(tasks[1..], rest)
    ensures CleanupsReturn(tasks, CleanupResult(Ends(tasks[0].body), rest))
  {
    assert forall t :: t in tasks <==> t == tasks[0] || t in tasks[1..];
    if !SomeFails(tasks[1..]) {
      NoFailureNoComplaint(tasks[1..]);
    }
    FirstComplaintStep(tasks, rest.error);
    if Fails(tasks[0].body) {
      assert SomeFails(tasks);
    } else {
      assert SomeFails(tasks) <==> SomeFails(tasks[1..]);
    }
  }

  lemma NoFailureNoComplaint(tasks: seq<Task>)
    requires !SomeFails(tasks)
    ensures IsFirstComplaint(tasks, None)
  {
    forall i | 0 <= i < |tasks|
      ensures Complaint(tasks[i].body) == None
    {
      assert tasks[i] in tasks && !Fails(tasks[i].body);
    }
  }

  lemma {:induction false} EvalCleanupsReturn(path: Path, cleanups: seq<Task>, w: World)
    ensures CleanupsReturn(cleanups, EvalCleanups(path, cleanups, w).result)
    decreases |cleanups|
  {
    if cleanups != [] {
      var t := cleanups[0];
      var ended := EvalTask(path + [t.name], None, t.body, w);
      EndsAnywhere(path + [t.name], None, t.body, w);
      EvalCleanupsReturn(path, cleanups[1..], ended.world);
      CleanupsReturnStep(cleanups, EvalCleanups(path, cleanups[1..], ended.world).result);
    }
  }

  /** Main result on the outcome of a call, from the bodies alone: how far it gets and what it returns. */
  lemma RunReturns(path: Path, deadline: Option<int>, pending: seq<Task>, cleanups: seq<Task>, flag: bool, w: World)
    ensures var e := EvalRun(path, deadline, pending, cleanups, flag, w);
      && |e.pending| <= |pending|
      && StopsAfter(pending, |pending| - |e.pending|)
      && CallReturns(flag, pending, |pending| - |e.pending|, cleanups, e.result)
  {
    MainStopsAfter(path, deadline, pending, w);
    MainReturns(path, deadline, pending, w);
    EvalCleanupsReturn(path, cleanups, EvalMain(path, deadline, pending, w).world);
  }

  // ----- what a body does -----

  /** A body that returns or raises at once ends just so. */
  lemma LeafMeans(result: TaskResult, message: string)
    ensures Ends(Return(result)) == Returned(result) && Ends(Raise(message)) == Raised(message)
  {
    var w := Started(World(map[], []), [], None);
    assert EvalBody([], None, Return(result), [], [], w).completion == Returned(result);
    assert EvalBody([], None, Raise(message), [], [], w).completion == Raised(message);
  }

  /** The call of a task that added these tasks succeeds. */
  ghost predicate CallSucceeds(flag: bool, pending: seq<Task>, k: nat, cleanups: seq<Task>)
    requires k <= |pending|
  {
    (k == 0 || !Fails(pending[k - 1].body)) && (!flag || !SomeFails(cleanups))
  }

  /** A body that runs the tasks added so far goes on with one script if the call succeeds and with the other
      if it does not; the tasks not started stay pending, and no cleanup does. */
  lemma BranchMeans(path: Path, deadline: Option<int>, flag: bool, ifOk: Script, ifFailed: Script,
                    pending: seq<Task>, cleanups: seq<Task>, w: World, k: nat)
    requires StopsAfter(pending, k)
    ensures EvalBody(path, deadline, Run(flag, ifOk, ifFailed), pending, cleanups, w)
              == EvalBody(path, deadline, if CallSucceeds(flag, pending, k, cleanups) then ifOk else ifFailed,
                          pending[k..], [], EvalRun(path, deadline, pending, cleanups, flag, w).world)
  {
    RunSucceeds(path, deadline, pending, cleanups, flag, w, k);
  }

  lemma SuccessTold(flag: bool, pending: seq<Task>, k: nat, cleanups: seq<Task>, r: TaskResult)
    requires k <= |pending| && CallReturns(flag, pending, k, cleanups, r)
    ensures r.success <==> CallSucceeds(flag, pending, k, cleanups)
  {
  }

  lemma RunLeavesRest(path: Path, deadline: Option<int>, pending: seq<Task>, cleanups: seq<Task>, flag: bool, w: World)
    ensures var run := EvalRun(path, deadline, pending, cleanups, flag, w);
      |run.pending| <= |pending| && run.pending == pending[|pending| - |run.pending|..]
  {
    MainLeavesRest(path, deadline, pending, w);
  }

  lemma RunSucceeds(path: Path, deadline: Option<int>, pending: seq<Task>, cleanups: seq<Task>, flag: bool, w: World,
                    k: nat)
    requires StopsAfter(pending, k)
    ensures var run := EvalRun(path, deadline, pending, cleanups, flag, w);
      (run.result.success <==> CallSucceeds(flag, pending, k, cleanups)) && run.pending == pending[k..]
  {
    RunReturns(path, deadline, pending, cleanups, flag, w);
    RunLeavesRest(path, deadline, pending, cleanups, flag, w);
    var run := EvalRun(path, deadline, pending, cleanups, flag, w);
    StopsAfterUnique(pending, k, |pending| - |run.pending|);
    SuccessTold(flag, pending, k, cleanups, run.result);
  }

  /** A body that returns what its call returns ends as the call does. */
  lemma ReturnRunMeans(path: Path, deadline: Option<int>, flag: bool,
                       pending: seq<Task>, cleanups: seq<Task>, w: World, k: nat)
    requires StopsAfter(pending, k)
    ensures var c := EvalBody(path, deadline, ReturnRun(flag), pending, cleanups, w).completion;
            c.Returned? && CallReturns(flag, pending, k, cleanups, c.result)
  {
    RunReturns(path, deadline, pending, cleanups, flag, w);
    StopsAfterUnique(pending, k, |pending| - |EvalRun(path, deadline, pending, cleanups, flag, w).pending|);
  }
}
