/** What a reader may rely on about one call of run_added_tasks, whatever the tasks do. */
module TaskTreeLaws {
  import opened Outcomes
  import opened TaskTree
  import opened TaskEnds

  // ----- what a task may touch -----

  /** q lies in the subtree of root; strictly below it if so asked. */
  predicate Under(root: Path, strict: bool, q: Path) {
    root <= q && (strict ==> q != root)
  }

  predicate SameAt(w: World, w': World, q: Path) {
    && (q in w.statuses <==> q in w'.statuses)
    && (q in w.statuses ==> w.statuses[q] == w'.statuses[q])
  }

  predicate EventFits(root: Path, strict: bool, deadline: Option<int>, e: Event) {
    Under(root, strict, e.path) && (e.deadline == deadline || e.deadline == None)
  }

  /** From w to w', only tasks under root started or changed status, and each started either
      under the given deadline or under none. */
  ghost predicate Grows(root: Path, strict: bool, deadline: Option<int>, w: World, w': World) {
    && |w.log| <= |w'.log| && w'.log[..|w.log|] == w.log
    && (forall i :: |w.log| <= i < |w'.log| ==> EventFits(root, strict, deadline, w'.log[i]))
    && (forall q :: !Under(root, strict, q) ==> SameAt(w, w', q))
  }

  lemma GrowsTransitive(root: Path, strict: bool, deadline: Option<int>, a: World, b: World, c: World)
    requires Grows(root, strict, deadline, a, b) && Grows(root, strict, deadline, b, c)
    ensures Grows(root, strict, deadline, a, c)
  {
    assert c.log[..|b.log|][..|a.log|] == c.log[..|a.log|];
    forall i | |a.log| <= i < |c.log|
      ensures EventFits(root, strict, deadline, c.log[i])
    {
      if i < |b.log| {
        assert c.log[..|b.log|][i] == c.log[i];
      }
    }
  }

  /** Growth below a child, without a deadline or with the parent's, is growth below the parent. */
  lemma GrowsWiden(path: Path, name: string, childDeadline: Option<int>, deadline: Option<int>, w: World, w': World)
    requires Grows(path + [name], false, childDeadline, w, w')
    requires childDeadline == deadline || childDeadline == None
    ensures Grows(path, true, deadline, w, w')
  {
    forall q
      ensures Under(path + [name], false, q) ==> Under(path, true, q)
    {
      if Under(path + [name], false, q) {
        assert path <= path + [name];
        assert |q| >= |path| + 1;
      }
    }
    forall i | |w.log| <= i < |w'.log|
      ensures EventFits(path, true, deadline, w'.log[i])
    {
      assert EventFits(path + [name], false, childDeadline, w'.log[i]);
      assert Under(path + [name], false, w'.log[i].path);
    }
  }

  lemma ChildIsUnder(path: Path, name: string)
    ensures Under(path, true, path + [name])
  {
    assert |path + [name]| == |path| + 1;
  }

  lemma AddedGrows(path: Path, name: string, deadline: Option<int>, w: World)
    ensures Grows(path, true, deadline, w, Added(w, path + [name]))
  {
    ChildIsUnder(path, name);
  }

  lemma StartedGrows(id: Path, deadline: Option<int>, w: World)
    ensures Grows(id, false, deadline, w, Started(w, id, deadline))
  {
  }

  lemma EndedGrows(id: Path, deadline: Option<int>, w: World, c: Completion)
    ensures Grows(id, false, deadline, w, Ended(w, id, c))
  {
  }

  lemma GrowsLoosen(id: Path, deadline: Option<int>, w: World, w': World)
    requires Grows(id, true, deadline, w, w')
    ensures Grows(id, false, deadline, w, w')
  {
    forall i | |w.log| <= i < |w'.log|
      ensures EventFits(id, false, deadline, w'.log[i])
    {
      assert EventFits(id, true, deadline, w'.log[i]);
    }
  }

  /** A body touches only what is strictly below its task. */
  lemma {:induction false} BodyGrows(path: Path, deadline: Option<int>, s: Script, pending: seq<Task>,
                                     cleanups: seq<Task>, w: World)
    ensures Grows(path, true, deadline, w, EvalBody(path, deadline, s, pending, cleanups, w).world)
    decreases Size(s) + Weight(pending) + Weight(cleanups), 3
  {
    match s {
      case Return(_) =>
      case Raise(_) =>
      case Add(name, body, next) =>
        WeightAppend(pending, Task(name, body));
        AddedGrows(path, name, deadline, w);
        var w1 := Added(w, path + [name]);
        BodyGrows(path, deadline, next, pending + [Task(name, body)], cleanups, w1);
        GrowsTransitive(path, true, deadline, w, w1,
                        EvalBody(path, deadline, next, pending + [Task(name, body)], cleanups, w1).world);
      case AddCleanup(name, body, next) =>
        WeightAppend(cleanups, Task(name, body));
        AddedGrows(path, name, deadline, w);
        var w1 := Added(w, path + [name]);
        BodyGrows(path, deadline, next, pending, cleanups + [Task(name, body)], w1);
        GrowsTransitive(path, true, deadline, w, w1,
                        EvalBody(path, deadline, next, pending, cleanups + [Task(name, body)], w1).world);
      case Run(flag, ifOk, ifFailed) =>
        RunGrows(path, deadline, pending, cleanups, flag, w);
        var run := EvalRun(path, deadline, pending, cleanups, flag, w);
        var next := if run.result.success then ifOk else ifFailed;
        BodyGrows(path, deadline, next, run.pending, [], run.world);
        GrowsTransitive(path, true, deadline, w, run.world,
                        EvalBody(path, deadline, next, run.pending, [], run.world).world);
      case ReturnRun(flag) =>
        RunGrows(path, deadline, pending, cleanups, flag, w);
    }
  }

  lemma {:induction false} RunGrows(path: Path, deadline: Option<int>, pending: seq<Task>, cleanups: seq<Task>,
                                    flag: bool, w: World)
    ensures Grows(path, true, deadline, w, EvalRun(path, deadline, pending, cleanups, flag, w).world)
    decreases Weight(pending) + Weight(cleanups), 2
  {
    MainGrows(path, deadline, pending, w);
    var main := EvalMain(path, deadline, pending, w);
    CleanupsGrow(path, deadline, cleanups, main.world);
    GrowsTransitive(path, true, deadline, w, main.world, EvalCleanups(path, cleanups, main.world).world);
  }

  lemma {:induction false} MainGrows(path: Path, deadline: Option<int>, pending: seq<Task>, w: World)
    ensures Grows(path, true, deadline, w, EvalMain(path, deadline, pending, w).world)
    decreases Weight(pending), 1
  {
    if pending != [] {
      var t := pending[0];
      var ended := EvalTask(path + [t.name], deadline, t.body, w);
      TaskGrows(path + [t.name], deadline, t.body, w);
      GrowsWiden(path, t.name, deadline, deadline, w, ended.world);
      if GoesOn(ended.completion) {
        MainGrows(path, deadline, pending[1..], ended.world);
        GrowsTransitive(path, true, deadline, w, ended.world,
                        EvalMain(path, deadline, pending[1..], ended.world).world);
      }
    }
  }

  /** Everything started on behalf of cleanups starts without a deadline. */
  lemma {:induction false} CleanupsGrow(path: Path, deadline: Option<int>, cleanups: seq<Task>, w: World)
    ensures Grows(path, true, None, w, EvalCleanups(path, cleanups, w).world)
    ensures Grows(path, true, deadline, w, EvalCleanups(path, cleanups, w).world)
    decreases Weight(cleanups), 1
  {
    if cleanups != [] {
      var t := cleanups[0];
      var ended := EvalTask(path + [t.name], None, t.body, w);
      TaskGrows(path + [t.name], None, t.body, w);
      GrowsWiden(path, t.name, None, None, w, ended.world);
      CleanupsGrow(path, deadline, cleanups[1..], ended.world);
      GrowsTransitive(path, true, None, w, ended.world, EvalCleanups(path, cleanups[1..], ended.world).world);
    }
    AnyDeadline(path, deadline, w, EvalCleanups(path, cleanups, w).world);
  }

  lemma AnyDeadline(path: Path, deadline: Option<int>, w: World, w': World)
    requires Grows(path, true, None, w, w')
    ensures Grows(path, true, deadline, w, w')
  {
    forall i | |w.log| <= i < |w'.log|
      ensures EventFits(path, true, deadline, w'.log[i])
    {
      assert EventFits(path, true, None, w'.log[i]);
    }
  }

  lemma {:induction false} TaskGrows(id: Path, deadline: Option<int>, body: Script, w: World)
    ensures Grows(id, false, deadline, w, EvalTask(id, deadline, body, w).world)
    decreases 1 + Size(body), 0
  {
    var started := Started(w, id, deadline);
    StartedGrows(id, deadline, w);
    BodyGrows(id, deadline, body, [], [], started);
    var ended := EvalBody(id, deadline, body, [], [], started);
    GrowsLoosen(id, deadline, started, ended.world);
    EndedGrows(id, deadline, ended.world, ended.completion);
    GrowsTransitive(id, false, deadline, w, started, ended.world);
    GrowsTransitive(id, false, deadline, w, ended.world, Ended(ended.world, id, ended.completion));
  }

  // ----- which children a call runs -----

  /** The events from w to w'. */
  function Since(w: World, w': World): seq<Event>
    requires |w.log| <= |w'.log|
  {
    w'.log[|w.log|..]
  }

  predicate IsChild(path: Path, q: Path) {
    |q| == |path| + 1 && path <= q
  }

  /** The children of path that start in a log, in order. */
  function Starts(path: Path, log: seq<Event>): seq<string> {
    if log == [] then []
    else
      var e := log[|log| - 1];
      Starts(path, log[..|log| - 1]) + (if IsChild(path, e.path) then [e.path[|path|]] else [])
  }

  lemma {:induction false} StartsAppend(path: Path, a: seq<Event>, b: seq<Event>)
    ensures Starts(path, a + b) == Starts(path, a) + Starts(path, b)
  {
    if b == [] {
      assert a + b == a;
    } else {
      assert (a + b)[..|a + b| - 1] == a + b[..|b| - 1];
      StartsAppend(path, a, b[..|b| - 1]);
    }
  }

  lemma {:induction false} NoStarts(path: Path, log: seq<Event>)
    requires forall i :: 0 <= i < |log| ==> !IsChild(path, log[i].path)
    ensures Starts(path, log) == []
  {
    if log != [] {
      NoStarts(path, log[..|log| - 1]);
    }
  }

  /** The children of path started between two worlds. */
  function Ran(path: Path, w: World, w': World): seq<string>
    requires |w.log| <= |w'.log|
  {
    Starts(path, Since(w, w'))
  }

  lemma RanSomething(path: Path, w: World, w': World)
    requires |w.log| <= |w'.log| && Ran(path, w, w') != []
    ensures |w.log| < |w'.log|
  {
  }

  lemma RanAppend(path: Path, a: World, b: World, c: World)
    requires |a.log| <= |b.log| <= |c.log| && c.log[..|b.log|] == b.log
    ensures Ran(path, a, c) == Ran(path, a, b) + Ran(path, b, c)
  {
    assert Since(a, c) == Since(a, b) + Since(b, c);
    StartsAppend(path, Since(a, b), Since(b, c));
  }

  /** The children of path that start in a log see this deadline. */
  predicate ChildrenSee(path: Path, log: seq<Event>, deadline: Option<int>) {
    forall e :: e in log && IsChild(path, e.path) ==> e.deadline == deadline
  }

  lemma ChildrenSeeAppend(path: Path, a: World, b: World, c: World, deadline: Option<int>)
    requires |a.log| <= |b.log| <= |c.log| && c.log[..|b.log|] == b.log
    requires ChildrenSee(path, Since(a, b), deadline) && ChildrenSee(path, Since(b, c), deadline)
    ensures ChildrenSee(path, Since(a, c), deadline)
  {
    assert Since(a, c) == Since(a, b) + Since(b, c);
  }

  /** Running one child starts that child, under the deadline, and, directly below path, nothing else. */
  lemma TaskRan(path: Path, name: string, deadline: Option<int>, body: Script, w: World)
    ensures var w' := EvalTask(path + [name], deadline, body, w).world;
      && |w.log| <= |w'.log| && Ran(path, w, w') == [name] && ChildrenSee(path, Since(w, w'), deadline)
  {
    var id := path + [name];
    var started := Started(w, id, deadline);
    BodyGrows(id, deadline, body, [], [], started);
    var w' := EvalTask(id, deadline, body, w).world;
    forall i | 0 <= i < |Since(started, w')|
      ensures !IsChild(path, Since(started, w')[i].path)
    {
      assert EventFits(id, true, deadline, w'.log[|started.log| + i]);
    }
    NoStarts(path, Since(started, w'));
    assert Since(w, started) == [Start(id, deadline)];
    OneStart(path, name, deadline);
    RanAppend(path, w, started, w');
    ChildrenSeeAppend(path, w, started, w', deadline);
  }

  lemma OneStart(path: Path, name: string, deadline: Option<int>)
    ensures Starts(path, [Start(path + [name], deadline)]) == [name]
  {
    var log := [Start(path + [name], deadline)];
    assert log[..0] == [];
    assert IsChild(path, path + [name]);
  }

  function Names(tasks: seq<Task>): (names: seq<string>)
    ensures |names| == |tasks|
    ensures forall i :: 0 <= i < |tasks| ==> names[i] == tasks[i].name
  {
    seq(|tasks|, i requires 0 <= i < |tasks| => tasks[i].name)
  }

  lemma NamesStep(tasks: seq<Task>, k: nat)
    requires 0 < k <= |tasks|
    ensures tasks[1..][k - 1..] == tasks[k..]
    ensures Names(tasks[..k]) == [tasks[0].name] + Names(tasks[1..][..k - 1])
  {
  }

  /** From w, e ran a prefix of the pending tasks, each under the deadline, and left the rest. */
  predicate RanPrefix(path: Path, deadline: Option<int>, pending: seq<Task>, w: World, e: RunEnd) {
    && |e.pending| <= |pending| && |w.log| <= |e.world.log|
    && var k := |pending| - |e.pending|;
    && e.pending == pending[k..]
    && Ran(path, w, e.world) == Names(pending[..k])
    && ChildrenSee(path, Since(w, e.world), deadline)
  }

  lemma RanPrefixStep(path: Path, deadline: Option<int>, pending: seq<Task>, w: World, w1: World, e: RunEnd)
    requires pending != [] && |w.log| <= |w1.log| && Ran(path, w, w1) == [pending[0].name]
    requires ChildrenSee(path, Since(w, w1), deadline)
    requires RanPrefix(path, deadline, pending[1..], w1, e) && e.world.log[..|w1.log|] == w1.log
    ensures RanPrefix(path, deadline, pending, w, e)
  {
    RanAppend(path, w, w1, e.world);
    ChildrenSeeAppend(path, w, w1, e.world, deadline);
    NamesStep(pending, |pending| - |e.pending|);
  }

  /** The regular tasks run are a prefix of the pending ones, up to the first whose body does not end
      plainly; what is left is the rest. */
  lemma MainRunsPrefix(path: Path, deadline: Option<int>, pending: seq<Task>, w: World)
    ensures var e := EvalMain(path, deadline, pending, w);
      RanPrefix(path, deadline, pending, w, e) && StopsAfter(pending, |pending| - |e.pending|)
  {
    MainStarts(path, deadline, pending, w);
    MainStopsAfter(path, deadline, pending, w);
  }

  lemma {:induction false} MainStarts(path: Path, deadline: Option<int>, pending: seq<Task>, w: World)
    ensures RanPrefix(path, deadline, pending, w, EvalMain(path, deadline, pending, w))
    decreases |pending|
  {
    var e := EvalMain(path, deadline, pending, w);
    if pending == [] {
      assert Since(w, e.world) == [];
    } else {
      var t := pending[0];
      var ended := EvalTask(path + [t.name], deadline, t.body, w);
      TaskRan(path, t.name, deadline, t.body, w);
      if GoesOn(ended.completion) {
        MainStarts(path, deadline, pending[1..], ended.world);
        MainGrows(path, deadline, pending[1..], ended.world);
        RanPrefixStep(path, deadline, pending, w, ended.world, e);
      } else {
        assert Names(pending[..1]) == [t.name];
      }
    }
  }

  /** Every cleanup is attempted exactly once, in order. */
  lemma {:induction false} CleanupsAllRun(path: Path, cleanups: seq<Task>, w: World)
    ensures var e := EvalCleanups(path, cleanups, w);
      && |w.log| <= |e.world.log|
      && Ran(path, w, e.world) == Names(cleanups)
    decreases |cleanups|
  {
    var e := EvalCleanups(path, cleanups, w);
    if cleanups == [] {
      assert Since(w, e.world) == [];
    } else {
      var t := cleanups[0];
      var ended := EvalTask(path + [t.name], None, t.body, w);
      TaskRan(path, t.name, None, t.body, w);
      CleanupsAllRun(path, cleanups[1..], ended.world);
      CleanupsGrow(path, None, cleanups[1..], ended.world);
      RanAppend(path, w, ended.world, e.world);
      assert Names(cleanups) == [t.name] + Names(cleanups[1..]);
    }
  }

  /** Main result on the order of a call: the regular tasks up to the first that does not end plainly, each
      under the deadline of the call, then every cleanup exactly once and in order; no task started during
      the cleanups, at any depth, sees a deadline. */
  lemma RunOrder(path: Path, deadline: Option<int>, pending: seq<Task>, cleanups: seq<Task>, flag: bool, w: World)
    returns (middle: World)
    ensures var e := EvalRun(path, deadline, pending, cleanups, flag, w);
      && |w.log| <= |middle.log| <= |e.world.log|
      && middle == EvalMain(path, deadline, pending, w).world
      && |e.pending| <= |pending|
      && e.pending == pending[|pending| - |e.pending|..]
      && StopsAfter(pending, |pending| - |e.pending|)
      && ChildrenSee(path, Since(w, middle), deadline)
      && Ran(path, w, middle) == Names(pending[..|pending| - |e.pending|])
      && Ran(path, middle, e.world) == Names(cleanups)
      && Ran(path, w, e.world) == Names(pending[..|pending| - |e.pending|]) + Names(cleanups)
      && (forall i :: |middle.log| <= i < |e.world.log| ==> e.world.log[i].deadline == None)
  {
    MainRunsPrefix(path, deadline, pending, w);
    middle := EvalMain(path, deadline, pending, w).world;
    CleanupsAllRun(path, cleanups, middle);
    CleanupsGrow(path, deadline, cleanups, middle);
    MainGrows(path, deadline, pending, w);
    var last := EvalCleanups(path, cleanups, middle).world;
    RanAppend(path, w, middle, last);
    forall i | |middle.log| <= i < |last.log|
      ensures last.log[i].deadline == None
    {
      assert EventFits(path, true, None, last.log[i]);
    }
  }

  /** A second call with nothing added runs something exactly when the first one stopped before its
      last regular task. */
  lemma SecondRun(path: Path, deadline: Option<int>, pending: seq<Task>, cleanups: seq<Task>, flag: bool, again: bool,
                  w: World)
    ensures var first := EvalRun(path, deadline, pending, cleanups, flag, w);
      var second := EvalRun(path, deadline, first.pending, [], again, first.world);
      && (second.world.log == first.world.log <==> first.pending == [])
      && (first.pending == [] ==> second.world == first.world && second.result == OK)
  {
    var first := EvalRun(path, deadline, pending, cleanups, flag, w);
    var second := EvalRun(path, deadline, first.pending, [], again, first.world);
    var _ := RunOrder(path, deadline, first.pending, [], again, first.world);
    MainRunsPrefix(path, deadline, first.pending, first.world);
    if first.pending != [] {
      assert Names(first.pending[..|first.pending| - |second.pending|])[0] == first.pending[0].name;
      RanSomething(path, first.world, second.world);
    }
  }

  /** So a second call is not always idle: here the first task raises, and a second call runs the
      task that the first call left pending. */
  lemma SecondRunContinues(path: Path, w: World)
    ensures var failing, waiting := Task("a", Raise("error")), Task("b", Return(OK));
      var first := EvalRun(path, None, [failing, waiting], [], true, w);
      var second := EvalRun(path, None, first.pending, [], true, first.world);
      && !first.result.success && first.pending == [waiting]
      && second.world.log == first.world.log + [Start(path + ["b"], None)]
  {
    var failing, waiting := Task("a", Raise("error")), Task("b", Return(OK));
    var failed := EvalTask(path + ["a"], None, Raise("error"), w);
    assert failed.completion == Raised("error");
    assert [failing, waiting][1..] == [waiting];
    assert EvalMain(path, None, [failing, waiting], w)
             == RunEnd(MainResult(failed.completion), [waiting], failed.world);
    var ran := EvalTask(path + ["b"], None, Return(OK), failed.world);
    assert GoesOn(ran.completion) && ran.world.log == failed.world.log + [Start(path + ["b"], None)];
    assert [waiting][1..] == [];
    assert EvalMain(path, None, [waiting], failed.world) == RunEnd(OK, [], ran.world);
  }

  // ----- statuses and the result -----

  predicate DistinctTasks(tasks: seq<Task>) {
    forall i, j :: 0 <= i < j < |tasks| ==> tasks[i].name != tasks[j].name
  }

  predicate StatusIs(w: World, id: Path, status: Status) {
    id in w.statuses && w.statuses[id] == status
  }

  /** Every one of these tasks ended as its body says. */
  ghost predicate AllMarked(path: Path, tasks: seq<Task>, w: World) {
    forall t :: t in tasks ==> IsMarked(w, path + [t.name], t.body)
  }

  lemma TaskStatus(id: Path, deadline: Option<int>, body: Script, w: World)
    ensures var e := EvalTask(id, deadline, body, w);
      StatusIs(e.world, id, FinalStatus(e.completion)) && IsMarked(e.world, id, body)
  {
    TaskMarked(id, deadline, body, w);
  }

  /** Running tasks with other names leaves the status of a sibling alone. */
  lemma {:induction false} CleanupsKeepSibling(path: Path, cleanups: seq<Task>, w: World, name: string)
    requires forall t :: t in cleanups ==> t.name != name
    ensures SameAt(w, EvalCleanups(path, cleanups, w).world, path + [name])
    decreases |cleanups|
  {
    if cleanups != [] {
      var t := cleanups[0];
      TaskKeepsSibling(path, t.name, None, t.body, w, name);
      CleanupsKeepSibling(path, cleanups[1..], EvalTask(path + [t.name], None, t.body, w).world, name);
    }
  }

  lemma TaskKeepsSibling(path: Path, ran: string, deadline: Option<int>, body: Script, w: World, name: string)
    requires ran != name
    ensures SameAt(w, EvalTask(path + [ran], deadline, body, w).world, path + [name])
  {
    TaskGrows(path + [ran], deadline, body, w);
    assert (path + [ran])[|path|] != (path + [name])[|path|];
    assert !Under(path + [ran], false, path + [name]);
  }

  lemma {:induction false} MainKeepsSibling(path: Path, deadline: Option<int>, pending: seq<Task>, w: World,
                                            name: string)
    requires forall t :: t in pending ==> t.name != name
    ensures SameAt(w, EvalMain(path, deadline, pending, w).world, path + [name])
    decreases |pending|
  {
    if pending != [] {
      var t := pending[0];
      TaskKeepsSibling(path, t.name, deadline, t.body, w, name);
      var ended := EvalTask(path + [t.name], deadline, t.body, w);
      if GoesOn(ended.completion) {
        MainKeepsSibling(path, deadline, pending[1..], ended.world, name);
      }
    }
  }

  /** The regular tasks run are marked as their bodies ended. Those not run keep the status they had. */
  ghost predicate PrefixStatuses(path: Path, pending: seq<Task>, w: World, e: RunEnd) {
    && |e.pending| <= |pending|
    && var k := |pending| - |e.pending|;
    && AllMarked(path, pending[..k], e.world)
    && (forall i :: k <= i < |pending| ==> SameAt(w, e.world, path + [pending[i].name]))
  }

  /** Statuses after the regular tasks: those run are marked as their bodies ended, all but the last are a
      success, those not run are untouched. */
  lemma MainStatuses(path: Path, deadline: Option<int>, pending: seq<Task>, w: World)
    requires DistinctTasks(pending)
    ensures var e := EvalMain(path, deadline, pending, w);
      PrefixStatuses(path, pending, w, e) && StopsAfter(pending, |pending| - |e.pending|)
  {
    MainMarks(path, deadline, pending, w);
    MainStopsAfter(path, deadline, pending, w);
  }

  lemma {:induction false} MainMarks(path: Path, deadline: Option<int>, pending: seq<Task>, w: World)
    requires DistinctTasks(pending)
    ensures PrefixStatuses(path, pending, w, EvalMain(path, deadline, pending, w))
    decreases |pending|
  {
    if pending != [] {
      var t := pending[0];
      var ended := EvalTask(path + [t.name], deadline, t.body, w);
      TaskStatus(path + [t.name], deadline, t.body, w);
      forall i | 1 <= i < |pending|
        ensures SameAt(w, ended.world, path + [pending[i].name])
      {
        TaskKeepsSibling(path, t.name, deadline, t.body, w, pending[i].name);
      }
      if GoesOn(ended.completion) {
        MainMarks(path, deadline, pending[1..], ended.world);
        MainKeepsSibling(path, deadline, pending[1..], ended.world, t.name);
        MainMarksStep(path, pending, w, ended.world, EvalMain(path, deadline, pending[1..], ended.world));
      } else {
        assert pending[..1] == [t];
      }
    }
  }

  lemma MainMarksStep(path: Path, pending: seq<Task>, w: World, w1: World, e: RunEnd)
    requires pending != [] && PrefixStatuses(path, pending[1..], w1, e)
    requires IsMarked(w1, path + [pending[0].name], pending[0].body)
    requires SameAt(w1, e.world, path + [pending[0].name])
    requires forall i :: 1 <= i < |pending| ==> SameAt(w, w1, path + [pending[i].name])
    ensures PrefixStatuses(path, pending, w, e)
  {
    var k := |pending| - |e.pending|;
    assert pending[..k] == [pending[0]] + pending[1..][..k - 1];
    forall i | k <= i < |pending|
      ensures SameAt(w, e.world, path + [pending[i].name])
    {
      assert pending[1..][i - 1] == pending[i];
    }
  }

  /** All cleanups end up marked as their bodies ended, whatever the others do, and what they return
      together is a plain success, or the first complaint if one failed. */
  lemma CleanupStatuses(path: Path, cleanups: seq<Task>, w: World)
    requires DistinctTasks(cleanups)
    ensures var e := EvalCleanups(path, cleanups, w);
      AllMarked(path, cleanups, e.world) && CleanupsReturn(cleanups, e.result)
  {
    CleanupMarks(path, cleanups, w);
    EvalCleanupsReturn(path, cleanups, w);
  }

  lemma {:induction false} CleanupMarks(path: Path, cleanups: seq<Task>, w: World)
    requires DistinctTasks(cleanups)
    ensures AllMarked(path, cleanups, EvalCleanups(path, cleanups, w).world)
    decreases |cleanups|
  {
    if cleanups != [] {
      var t := cleanups[0];
      var ended := EvalTask(path + [t.name], None, t.body, w);
      TaskStatus(path + [t.name], None, t.body, w);
      CleanupMarks(path, cleanups[1..], ended.world);
      CleanupsKeepSibling(path, cleanups[1..], ended.world, t.name);
      assert forall u :: u in cleanups ==> u == t || u in cleanups[1..];
    }
  }

  /** Main result on the outcome of a call: the regular tasks up to the first that does not end plainly and
      all cleanups are marked as their bodies ended, the other regular tasks keep their status, and what the
      call returns is told from the bodies, too. */
  lemma RunOutcome(path: Path, deadline: Option<int>, pending: seq<Task>, cleanups: seq<Task>, flag: bool, w: World)
    requires DistinctTasks(pending + cleanups)
    ensures var e := EvalRun(path, deadline, pending, cleanups, flag, w);
      && PrefixStatuses(path, pending, w, e)
      && AllMarked(path, cleanups, e.world)
      && StopsAfter(pending, |pending| - |e.pending|)
      && CallReturns(flag, pending, |pending| - |e.pending|, cleanups, e.result)
  {
    var both := pending + cleanups;
    assert forall i :: 0 <= i < |pending| ==> both[i] == pending[i];
    assert forall j :: 0 <= j < |cleanups| ==> both[|pending| + j] == cleanups[j];
    RunReturns(path, deadline, pending, cleanups, flag, w);
    MainStatuses(path, deadline, pending, w);
    var main := EvalMain(path, deadline, pending, w);
    CleanupStatuses(path, cleanups, main.world);
    forall i | 0 <= i < |pending|
      ensures SameAt(main.world, EvalCleanups(path, cleanups, main.world).world, path + [pending[i].name])
    {
      CleanupsKeepSibling(path, cleanups, main.world, pending[i].name);
    }
    SameMarks(path, pending, w, main, EvalRun(path, deadline, pending, cleanups, flag, w));
  }

  lemma SameMarks(path: Path, pending: seq<Task>, w: World, main: RunEnd, e: RunEnd)
    requires PrefixStatuses(path, pending, w, main) && e.pending == main.pending
    requires forall i :: 0 <= i < |pending| ==> SameAt(main.world, e.world, path + [pending[i].name])
    ensures PrefixStatuses(path, pending, w, e)
  {
    var k := |pending| - |e.pending|;
    forall t | t in pending[..k]
      ensures IsMarked(e.world, path + [t.name], t.body)
    {
      var i :| 0 <= i < k && pending[i] == t;
      assert SameAt(main.world, e.world, path + [pending[i].name]);
    }
  }

  /** A successful call never reports an early exit, an output or an error: the caller of a call
      whose task exited early cannot tell from the result. */
  lemma SuccessIsPlain(path: Path, deadline: Option<int>, pending: seq<Task>, cleanups: seq<Task>, flag: bool, w: World)
    ensures var r := EvalRun(path, deadline, pending, cleanups, flag, w).result; r.success ==> r == OK
  {
    CleanupSuccessIsPlain(path, cleanups, EvalMain(path, deadline, pending, w).world);
  }

  lemma {:induction false} CleanupSuccessIsPlain(path: Path, cleanups: seq<Task>, w: World)
    ensures var r := EvalCleanups(path, cleanups, w).result; r.success ==> r == OK
    decreases |cleanups|
  {
    if cleanups != [] {
      var t := cleanups[0];
      CleanupSuccessIsPlain(path, cleanups[1..], EvalTask(path + [t.name], None, t.body, w).world);
    }
  }
}
