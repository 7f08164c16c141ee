/** The meaning of a tree of progress tasks: what MultiTaskProgress.run_added_tasks of
    oss_crs/src/ui.py does, told without its shared mutable tables. */
module TaskTree {
  import opened Outcomes

  /** A task identifier: the names from the root down. The empty path stands for "no task". */
  type Path = seq<string>

  datatype Status = Pending | InProgress | Succeeded | Failed | Stopped

  datatype TaskResult = TaskResult(
    success: bool,
    output: Option<string>,
    error: Option<string>,
    interrupted: bool,
    reason: Option<string>)

  const OK := TaskResult(true, None, None, false, None)

  /** The body of a task: what it does with the progress object before it returns or raises. */
  datatype Script =
    | Return(result: TaskResult)
    | Raise(message: string)
    | Add(name: string, body: Script, next: Script)
    | AddCleanup(name: string, body: Script, next: Script)
    | Run(cleanupFailureIsError: bool, ifOk: Script, ifFailed: Script)
    | ReturnRun(cleanupFailureIsError: bool)

  datatype Task = Task(name: string, body: Script)

  datatype Completion = Returned(result: TaskResult) | Raised(message: string)

  /** A task body starts, under the deadline it then sees. */
  datatype Event = Start(path: Path, deadline: Option<int>)

  datatype World = World(statuses: map<Path, Status>, log: seq<Event>)

  // ----- sizes, for termination -----

  function Size(s: Script): (n: nat)
    ensures n >= 1
  {
    match s
    case Return(_) => 1
    case Raise(_) => 1
    case Add(_, body, next) => 2 + Size(body) + Size(next)
    case AddCleanup(_, body, next) => 2 + Size(body) + Size(next)
    case Run(_, ifOk, ifFailed) => 1 + Size(ifOk) + Size(ifFailed)
    case ReturnRun(_) => 2
  }

  function Weight(tasks: seq<Task>): nat {
    if tasks == [] then 0 else 1 + Size(tasks[0].body) + Weight(tasks[1..])
  }

  lemma {:induction false} WeightAppend(tasks: seq<Task>, t: Task)
    ensures Weight(tasks + [t]) == Weight(tasks) + 1 + Size(t.body)
  {
    if tasks == [] {
      assert tasks + [t] == [t];
    } else {
      assert (tasks + [t])[1..] == tasks[1..] + [t];
      WeightAppend(tasks[1..], t);
    }
  }

  // ----- the evaluator -----

  /** What a task body leaves behind: how it ended, the children it added but did not run,
      and the world. */
  datatype BodyEnd = BodyEnd(completion: Completion, pending: seq<Task>, cleanups: seq<Task>, world: World)

  datatype RunEnd = RunEnd(result: TaskResult, pending: seq<Task>, world: World)

  /** Run a body as task `path` under a deadline; pending and cleanups are the children already
      added and not yet run. */
  function EvalBody(path: Path, deadline: Option<int>, s: Script, pending: seq<Task>, cleanups: seq<Task>,
                    w: World): BodyEnd
    decreases Size(s) + Weight(pending) + Weight(cleanups), 3
  {
    match s
    case Return(result) => BodyEnd(Returned(result), pending, cleanups, w)
    case Raise(message) => BodyEnd(Raised(message), pending, cleanups, w)
    case Add(name, body, next) =>
      WeightAppend(pending, Task(name, body));
      EvalBody(path, deadline, next, pending + [Task(name, body)], cleanups, Added(w, path + [name]))
    case AddCleanup(name, body, next) =>
      WeightAppend(cleanups, Task(name, body));
      EvalBody(path, deadline, next, pending, cleanups + [Task(name, body)], Added(w, path + [name]))
    case Run(flag, ifOk, ifFailed) =>
      var run := EvalRun(path, deadline, pending, cleanups, flag, w);
      EvalBody(path, deadline, if run.result.success then ifOk else ifFailed, run.pending, [], run.world)
    case ReturnRun(flag) =>
      var run := EvalRun(path, deadline, pending, cleanups, flag, w);
      BodyEnd(Returned(run.result), run.pending, [], run.world)
  }

  function Added(w: World, id: Path): World {
    w.(statuses := w.statuses[id := Pending])
  }

  /** One call of run_added_tasks by task `path`. Cleanups run without a deadline. */
  function EvalRun(path: Path, deadline: Option<int>, pending: seq<Task>, cleanups: seq<Task>, flag: bool,
                   w: World): (r: RunEnd)
    ensures Weight(r.pending) <= Weight(pending)
    decreases Weight(pending) + Weight(cleanups), 2
  {
    var main := EvalMain(path, deadline, pending, w);
    var cleanup := EvalCleanups(path, cleanups, main.world);
    RunEnd(RunResult(main.result, cleanup.result, flag), main.pending, cleanup.world)
  }

  /** A failure of the regular tasks takes precedence; a cleanup failure counts unless the
      caller said otherwise. The result of a successful early exit is not passed on. */
  function RunResult(main: TaskResult, cleanup: TaskResult, flag: bool): TaskResult {
    if !main.success then main
    else if !flag && !cleanup.success then OK
    else cleanup
  }

  /** The regular tasks, in order, up to the first failure or early exit. */
  function EvalMain(path: Path, deadline: Option<int>, pending: seq<Task>, w: World): (r: RunEnd)
    ensures Weight(r.pending) <= Weight(pending)
    decreases Weight(pending), 1
  {
    if pending == [] then RunEnd(OK, [], w)
    else
      var ended := EvalTask(path + [pending[0].name], deadline, pending[0].body, w);
      if GoesOn(ended.completion) then EvalMain(path, deadline, pending[1..], ended.world)
      else RunEnd(MainResult(ended.completion), pending[1..], ended.world)
  }

  predicate GoesOn(c: Completion) {
    c.Returned? && c.result.success && !c.result.interrupted
  }

  /** The result kept when the regular tasks stop early. */
  function MainResult(c: Completion): TaskResult
    requires !GoesOn(c)
  {
    match c
    case Raised(message) => TaskResult(false, None, Some(message), false, None)
    case Returned(r) =>
      if r.success then TaskResult(true, r.output, None, true, r.reason)
      else TaskResult(false, None, r.error, r.interrupted, r.reason)
  }

  /** All cleanup tasks, in order, whatever happens to them; the first error is kept. */
  function EvalCleanups(path: Path, cleanups: seq<Task>, w: World): RunEnd
    decreases Weight(cleanups), 1
  {
    if cleanups == [] then RunEnd(OK, [], w)
    else
      var ended := EvalTask(path + [cleanups[0].name], None, cleanups[0].body, w);
      var rest := EvalCleanups(path, cleanups[1..], ended.world);
      RunEnd(CleanupResult(ended.completion, rest.result), [], rest.world)
  }

  function CleanupResult(c: Completion, rest: TaskResult): TaskResult {
    if c.Returned? && c.result.success then rest
    else
      var error := if c.Raised? then Some(c.message) else c.result.error;
      TaskResult(false, None, if error.Some? then error else rest.error, false, None)
  }

  /** One task: it is in progress while its body runs, and then marked by the outcome. */
  function EvalTask(id: Path, deadline: Option<int>, body: Script, w: World): BodyEnd
    decreases 1 + Size(body), 0
  {
    var ended := EvalBody(id, deadline, body, [], [], Started(w, id, deadline));
    ended.(world := Ended(ended.world, id, ended.completion))
  }

  function Started(w: World, id: Path, deadline: Option<int>): World {
    World(w.statuses[id := InProgress], w.log + [Start(id, deadline)])
  }

  function FinalStatus(c: Completion): Status {
    match c
    case Raised(_) => Failed
    case Returned(r) => if r.success then Succeeded else if r.interrupted then Stopped else Failed
  }

  function Ended(w: World, id: Path, c: Completion): World {
    w.(statuses := w.statuses[id := FinalStatus(c)])
  }
}
