/** The job table of the builder sidecar (oss-crs-infra/builder-sidecar/server.py): request handlers
    on one event loop, worker threads, and the dictionaries they share.

    A handler runs without awaiting from its first look at the table on, so one handler is active at
    a time; worker threads may act between any two of its reads and writes. Entries of the table and
    the results in them are mutable dictionaries, so a handler may hold one that a worker has
    meanwhile replaced, and may share one with the table unless it makes a copy. */
module JobCache {
  import opened Outcomes

  type JobId = string

  /** The content of a result dictionary. */
  datatype BuildResult = BuildResult(exitCode: int, output: string, rebuildId: Option<int>)

  datatype Status = Queued | Running | Done

  /** The identity of a dictionary. */
  type Ref = nat

  /** The content of an entry dictionary; the result is another dictionary. */
  datatype Entry = Entry(status: Status, result: Option<Ref>, error: Option<string>)

  datatype Request = Request(job: JobId, rid: Option<int>)

  datatype Handler =
    | Free
    | Looking(job: JobId, rid: Option<int>)
    | Holding(job: JobId, ref: Ref, rid: Option<int>)   // has looked up the entry of the job
    | Answering(job: JobId, ref: Ref)                   // status was queued or running
    | Settled(job: JobId, ref: Ref, rid: Option<int>)   // status was done
    | Staging(job: JobId, ref: Ref, slot: int)          // a success, wanted in another slot
    | Rewriting(job: JobId, copy: Ref, slot: int)       // has made a copy of the cached entry
    | Storing(job: JobId)                               // about to write a queued entry
    | Submitting(job: JobId)                            // about to hand the job to the executor

  datatype Phase = Waiting | Starting(ref: Ref) | Working | Finished

  datatype Task = Task(job: JobId, phase: Phase)

  /** A cached reply is recorded with the slot asked for and the result as it is then. */
  datatype Reply =
    | Pending(job: JobId, status: Status)
    | Cached(job: JobId, requested: Option<int>, result: BuildResult)
    | Accepted(job: JobId)

  datatype State = State(
    heap: map<Ref, Entry>,
    results: map<Ref, BuildResult>,
    table: map<JobId, Ref>,
    handler: Handler,
    tasks: map<nat, Task>,
    requests: seq<Request>,
    replies: seq<Reply>,
    completed: set<(JobId, BuildResult)>)

  /** The entry is done, and its result has exit code 0. */
  predicate IsSuccess(s: State, ref: Ref) {
    && ref in s.heap && s.heap[ref].status == Done && s.heap[ref].result.Some?
    && s.heap[ref].result.value in s.results && s.results[s.heap[ref].result.value].exitCode == 0
  }

  function ResultOf(s: State, ref: Ref): BuildResult
    requires IsSuccess(s, ref)
  {
    s.results[s.heap[ref].result.value]
  }

  /** The cached result can be returned as it is. */
  predicate Fits(cached: BuildResult, requested: Option<int>) {
    requested == None || cached.rebuildId == None || requested == cached.rebuildId
  }

  // ----- the handler -----

  ghost predicate Arrive(s: State, t: State, job: JobId, rid: Option<int>) {
    s.handler == Free && t == s.(handler := Looking(job, rid), requests := s.requests + [Request(job, rid)])
  }

  ghost predicate Look(s: State, t: State) {
    && s.handler.Looking?
    && var job := s.handler.job;
    && t == s.(handler := if job in s.table then Holding(job, s.table[job], s.handler.rid) else Storing(job))
  }

  ghost predicate ReadStatus(s: State, t: State) {
    && s.handler.Holding? && s.handler.ref in s.heap
    && var h := s.handler;
    && t == s.(handler := if s.heap[h.ref].status == Done then Settled(h.job, h.ref, h.rid)
                          else Answering(h.job, h.ref))
  }

  /** The status is read again for the reply. */
  ghost predicate ReplyPending(s: State, t: State) {
    && s.handler.Answering? && s.handler.ref in s.heap
    && t == s.(handler := Free, replies := s.replies + [Pending(s.handler.job, s.heap[s.handler.ref].status)])
  }

  /** A finished job: reply from the cache if it succeeded, else build again. */
  ghost predicate ReadResult(s: State, t: State) {
    && s.handler.Settled? && s.handler.ref in s.heap
    && var h := s.handler;
    && t == if !IsSuccess(s, h.ref) then s.(handler := Storing(h.job))
            else if Fits(ResultOf(s, h.ref), h.rid) then
              s.(handler := Free, replies := s.replies + [Cached(h.job, h.rid, ResultOf(s, h.ref))])
            else s.(handler := Staging(h.job, h.ref, h.rid.value))
  }

  /** Staging a copy of the cached tree fails: the request ends without a reply. */
  ghost predicate FailStaging(s: State, t: State) {
    s.handler.Staging? && t == s.(handler := Free)
  }

  /** `copy.deepcopy`: a new entry dictionary with a new result dictionary. */
  ghost predicate DeepCopy(s: State, t: State, copy: Ref, result: Ref) {
    && s.handler.Staging? && IsSuccess(s, s.handler.ref)
    && copy !in s.heap && result !in s.results
    && var h := s.handler;
    && t == s.(heap := s.heap[copy := s.heap[h.ref].(result := Some(result))],
               results := s.results[result := ResultOf(s, h.ref)],
               handler := Rewriting(h.job, copy, h.slot))
  }

  /** The slot is written into the result dictionary of the copy, which is then the reply. */
  ghost predicate Rewrite(s: State, t: State) {
    && s.handler.Rewriting? && IsSuccess(s, s.handler.copy)
    && var h := s.handler;
    && var rewritten := ResultOf(s, h.copy).(rebuildId := Some(h.slot));
    && t == s.(results := s.results[s.heap[h.copy].result.value := rewritten],
               handler := Free,
               replies := s.replies + [Cached(h.job, Some(h.slot), rewritten)])
  }

  /** No slot was asked for, and looking for the next free one fails: the request ends without a reply. */
  ghost predicate FailNumbering(s: State, t: State) {
    && s.handler.Storing? && s.requests != [] && s.requests[|s.requests| - 1].rid == None
    && t == s.(handler := Free)
  }

  ghost predicate Store(s: State, t: State, ref: Ref) {
    && s.handler.Storing? && ref !in s.heap
    && t == s.(heap := s.heap[ref := Entry(Queued, None, None)],
               table := s.table[s.handler.job := ref],
               handler := Submitting(s.handler.job))
  }

  ghost predicate SubmitTask(s: State, t: State, task: nat) {
    && s.handler.Submitting? && task !in s.tasks
    && t == s.(tasks := s.tasks[task := Task(s.handler.job, Waiting)],
               handler := Free,
               replies := s.replies + [Accepted(s.handler.job)])
  }

  // ----- the workers -----

  /** The entry of the job is looked up: the first half of marking the job as running. */
  ghost predicate WorkerLook(s: State, t: State, task: nat) {
    && task in s.tasks && s.tasks[task].phase == Waiting && s.tasks[task].job in s.table
    && t == s.(tasks := s.tasks[task := s.tasks[task].(phase := Starting(s.table[s.tasks[task].job]))])
  }

  ghost predicate WorkerMark(s: State, t: State, task: nat) {
    && task in s.tasks && s.tasks[task].phase.Starting? && s.tasks[task].phase.ref in s.heap
    && var ref := s.tasks[task].phase.ref;
    && t == s.(heap := s.heap[ref := s.heap[ref].(status := Running)],
               tasks := s.tasks[task := s.tasks[task].(phase := Working)])
  }

  /** The job ends with a result. */
  ghost predicate WorkerDone(s: State, t: State, task: nat, outcome: BuildResult, result: Ref, ref: Ref) {
    && task in s.tasks && s.tasks[task].phase == Working && ref !in s.heap && result !in s.results
    && var job := s.tasks[task].job;
    && t == s.(heap := s.heap[ref := Entry(Done, Some(result), None)],
               results := s.results[result := outcome],
               table := s.table[job := ref],
               tasks := s.tasks[task := s.tasks[task].(phase := Finished)],
               completed := s.completed + {(job, outcome)})
  }

  /** The job ends with an exception. */
  ghost predicate WorkerFails(s: State, t: State, task: nat, error: string, ref: Ref) {
    && task in s.tasks && s.tasks[task].phase == Working && ref !in s.heap
    && var job := s.tasks[task].job;
    && t == s.(heap := s.heap[ref := Entry(Done, None, Some(error))],
               table := s.table[job := ref],
               tasks := s.tasks[task := s.tasks[task].(phase := Finished)])
  }

  datatype Step =
    | ArriveStep(job: JobId, rid: Option<int>) | LookStep | ReadStatusStep | ReplyPendingStep | ReadResultStep
    | FailStagingStep | FailNumberingStep | DeepCopyStep(copy: Ref, result: Ref) | RewriteStep
    | StoreStep(ref: Ref) | SubmitTaskStep(task: nat)
    | WorkerLookStep(task: nat) | WorkerMarkStep(task: nat)
    | WorkerDoneStep(task: nat, outcome: BuildResult, result: Ref, ref: Ref)
    | WorkerFailsStep(task: nat, error: string, ref: Ref)

  ghost predicate NextBy(s: State, t: State, step: Step) {
    match step
    case ArriveStep(job, rid) => Arrive(s, t, job, rid)
    case LookStep => Look(s, t)
    case ReadStatusStep => ReadStatus(s, t)
    case ReplyPendingStep => ReplyPending(s, t)
    case ReadResultStep => ReadResult(s, t)
    case FailStagingStep => FailStaging(s, t)
    case FailNumberingStep => FailNumbering(s, t)
    case DeepCopyStep(copy, result) => DeepCopy(s, t, copy, result)
    case RewriteStep => Rewrite(s, t)
    case StoreStep(ref) => Store(s, t, ref)
    case SubmitTaskStep(task) => SubmitTask(s, t, task)
    case WorkerLookStep(task) => WorkerLook(s, t, task)
    case WorkerMarkStep(task) => WorkerMark(s, t, task)
    case WorkerDoneStep(task, outcome, result, ref) => WorkerDone(s, t, task, outcome, result, ref)
    case WorkerFailsStep(task, error, ref) => WorkerFails(s, t, task, error, ref)
  }

  ghost predicate Next(s: State, t: State) {
    exists step :: NextBy(s, t, step)
  }

  ghost predicate Init(s: State) {
    s == State(map[], map[], map[], Free, map[], [], [], {})
  }

  ghost predicate IsRun(run: seq<State>) {
    && run != [] && Init(run[0])
    && forall i: nat :: i < |run| - 1 ==> StepAt(run, i)
  }

  ghost predicate StepAt(run: seq<State>, i: nat)
    requires i + 1 < |run|
  {
    Next(run[i], run[i + 1])
  }

  // ----- the invariant -----

  /** The task has been handed to the executor and has not stored its outcome yet. */
  ghost predicate Outstanding(s: State, task: nat, job: JobId) {
    task in s.tasks && s.tasks[task].job == job && s.tasks[task].phase != Finished
  }

  ghost predicate HasOutstanding(s: State, job: JobId) {
    exists task :: Outstanding(s, task, job)
  }

  ghost predicate TableOk(s: State) {
    && (forall job :: job in s.table ==> s.table[job] in s.heap)
    && (forall j, k :: j in s.table && k in s.table && s.table[j] == s.table[k] ==> j == k)
    && (forall job :: job in s.table ==> EntryOk(s, job, s.heap[s.table[job]]))
  }

  /** Only finished jobs have a result, and it is what some run of the job produced. */
  ghost predicate EntryOk(s: State, job: JobId, e: Entry) {
    && (e.status != Done ==> e.result == None)
    && (e.result.Some? ==> e.result.value in s.results && (job, s.results[e.result.value]) in s.completed)
  }

  /** What an outstanding task tells about the entry of its job. */
  ghost predicate TaskOk(s: State, task: nat)
    requires task in s.tasks
  {
    var job := s.tasks[task].job;
    match s.tasks[task].phase
    case Finished => true
    case Waiting => job in s.table && s.table[job] in s.heap && s.heap[s.table[job]].status == Queued
    case Starting(ref) => job in s.table && ref == s.table[job] && ref in s.heap && s.heap[ref].status == Queued
    case Working => job in s.table && s.table[job] in s.heap && s.heap[s.table[job]].status == Running
  }

  ghost predicate TasksOk(s: State) {
    && (forall task :: task in s.tasks ==> TaskOk(s, task))
    && (forall t, u, job :: Outstanding(s, t, job) && Outstanding(s, u, job) ==> t == u)
  }

  /** A job that is queued or running has its task, or is just being handed over. */
  ghost predicate FlightOk(s: State) {
    forall job :: job in s.table && s.table[job] in s.heap && s.heap[s.table[job]].status != Done ==>
      HasOutstanding(s, job) || s.handler == Submitting(job)
  }

  ghost predicate HandlerOk(s: State) {
    match s.handler
    case Free => true
    case Looking(_, _) => true
    case Holding(job, ref, _) => ref in s.heap && (s.heap[ref].status == Done ==> job in s.table && s.table[job] == ref)
    case Answering(job, ref) => ref in s.heap && s.heap[ref].status != Done
    case Settled(job, ref, _) => ref in s.heap && s.heap[ref].status == Done && job in s.table && s.table[job] == ref
    case Staging(job, ref, slot) =>
      IsSuccess(s, ref) && job in s.table && s.table[job] == ref && !Fits(ResultOf(s, ref), Some(slot))
    case Rewriting(job, copy, slot) => CopyOk(s, job, copy, slot)
    case Storing(job) => job !in s.table || (s.table[job] in s.heap && s.heap[s.table[job]].status == Done
                                             && !IsSuccess(s, s.table[job]))
    case Submitting(job) => job in s.table && s.table[job] in s.heap && s.heap[s.table[job]].status == Queued
                            && !HasOutstanding(s, job)
  }

  /** The copy being rewritten shares nothing with the table. */
  ghost predicate CopyOk(s: State, job: JobId, copy: Ref, slot: int) {
    && IsSuccess(s, copy) && (job, ResultOf(s, copy)) in s.completed && !Fits(ResultOf(s, copy), Some(slot))
    && forall k :: k in s.table && s.table[k] in s.heap ==>
         s.table[k] != copy && s.heap[s.table[k]].result != s.heap[copy].result
  }

  /** The handler works for the last request. */
  predicate Serves(h: Handler, q: Request) {
    match h
    case Free => true
    case Looking(job, rid) => q == Request(job, rid)
    case Holding(job, _, rid) => q == Request(job, rid)
    case Answering(job, _) => q.job == job
    case Settled(job, _, rid) => q == Request(job, rid)
    case Staging(job, _, slot) => q == Request(job, Some(slot))
    case Rewriting(job, _, slot) => q == Request(job, Some(slot))
    case Storing(job) => q.job == job
    case Submitting(job) => q.job == job
  }

  ghost predicate ServesLast(s: State) {
    s.handler != Free ==> s.requests != [] && Serves(s.handler, s.requests[|s.requests| - 1])
  }

  /** A cached reply repeats the result of a completed successful run, up to the slot; and if a slot
      was asked for and the result has one, the reply names the slot asked for. */
  ghost predicate ReplyOk(s: State, r: Reply) {
    match r
    case Cached(job, requested, result) =>
      result.exitCode == 0 && exists original :: (job, original) in s.completed && Answers(original, requested, result)
    case Pending(_, status) => status != Done
    case Accepted(_) => true
  }

  predicate Answers(original: BuildResult, requested: Option<int>, result: BuildResult) {
    && result == original.(rebuildId := result.rebuildId)
    && (requested.Some? && original.rebuildId.Some? ==> result.rebuildId == requested)
    && (requested.None? || original.rebuildId.None? ==> result == original)
  }

  ghost predicate RepliesOk(s: State) {
    forall i :: 0 <= i < |s.replies| ==> ReplyOk(s, s.replies[i])
  }

  ghost predicate Inv(s: State) {
    TableOk(s) && TasksOk(s) && FlightOk(s) && HandlerOk(s) && ServesLast(s) && RepliesOk(s)
  }

  /** Cached successes stay: the same dictionaries with the same content. */
  ghost predicate KeepsSuccesses(s: State, t: State) {
    forall job :: HasSucceeded(s, job) ==> KeepsSuccess(s, t, job)
  }

  predicate HasSucceeded(s: State, job: JobId) {
    job in s.table && IsSuccess(s, s.table[job])
  }

  predicate KeepsSuccess(s: State, t: State, job: JobId)
    requires HasSucceeded(s, job)
  {
    && HasSucceeded(t, job) && t.table[job] == s.table[job]
    && t.heap[t.table[job]] == s.heap[s.table[job]]
    && ResultOf(t, t.table[job]) == ResultOf(s, s.table[job])
  }

  /** The job is in the table as done, with this result. */
  predicate DoneWith(s: State, job: JobId, result: BuildResult) {
    && job in s.table && s.table[job] in s.heap
    && var e := s.heap[s.table[job]];
    && e.status == Done && e.result.Some? && e.result.value in s.results && s.results[e.result.value] == result
  }

  lemma SuccessMeans(s: State, job: JobId)
    ensures HasSucceeded(s, job) <==> exists result :: DoneWith(s, job, result) && result.exitCode == 0
    ensures HasSucceeded(s, job) ==> DoneWith(s, job, ResultOf(s, s.table[job]))
  {
    if HasSucceeded(s, job) {
      assert DoneWith(s, job, ResultOf(s, s.table[job]));
    }
  }

  // ----- every step keeps the invariant -----

  /** The entry of the job, and its result, are as they were. */
  ghost predicate SameEntry(s: State, t: State, job: JobId)
    requires job in s.table
  {
    var ref := s.table[job];
    && ref in s.heap && ref in t.heap && t.heap[ref] == s.heap[ref]
    && (s.heap[ref].result.Some? ==>
          var r := s.heap[ref].result.value; r in s.results && r in t.results && t.results[r] == s.results[r])
  }

  /** The table and the tasks, and all dictionaries reached from the table, are as they were. */
  ghost predicate SameTable(s: State, t: State) {
    && t.table == s.table && t.tasks == s.tasks && t.completed == s.completed
    && forall job :: job in s.table ==> SameEntry(s, t, job)
  }

  lemma SameTasks(s: State, t: State)
    requires t.tasks == s.tasks
    ensures forall u, job :: Outstanding(t, u, job) <==> Outstanding(s, u, job)
    ensures forall job :: HasOutstanding(t, job) <==> HasOutstanding(s, job)
  {
    forall job
      ensures HasOutstanding(s, job) <==> HasOutstanding(t, job)
    {
      if HasOutstanding(s, job) {
        var u :| Outstanding(s, u, job);
        assert Outstanding(t, u, job);
      }
      if HasOutstanding(t, job) {
        var u :| Outstanding(t, u, job);
        assert Outstanding(s, u, job);
      }
    }
  }

  lemma SameTableOk(s: State, t: State)
    requires TableOk(s) && SameTable(s, t)
    ensures TableOk(t) && KeepsSuccesses(s, t)
  {
    forall job | job in t.table
      ensures EntryOk(t, job, t.heap[t.table[job]])
    {
      assert SameEntry(s, t, job) && EntryOk(s, job, s.heap[s.table[job]]);
    }
    forall job | HasSucceeded(s, job)
      ensures KeepsSuccess(s, t, job)
    {
      assert SameEntry(s, t, job);
    }
  }

  lemma SameTableTasks(s: State, t: State)
    requires TasksOk(s) && FlightOk(s) && SameTable(s, t)
    requires s.handler.Submitting? ==> t.handler == s.handler
    ensures TasksOk(t) && FlightOk(t)
  {
    SameTasks(s, t);
    forall task | task in t.tasks
      ensures TaskOk(t, task)
    {
      assert TaskOk(s, task);
      assert s.tasks[task].job in s.table ==> SameEntry(s, t, s.tasks[task].job);
    }
    forall job | job in t.table && t.table[job] in t.heap && t.heap[t.table[job]].status != Done
      ensures HasOutstanding(t, job) || t.handler == Submitting(job)
    {
      assert SameEntry(s, t, job);
    }
  }

  lemma Unchanged(s: State, t: State)
    requires TableOk(s) && t.table == s.table && t.tasks == s.tasks && t.completed == s.completed
    requires t.heap == s.heap && t.results == s.results
    ensures SameTable(s, t)
  {
    forall job | job in s.table
      ensures SameEntry(s, t, job)
    {
      assert EntryOk(s, job, s.heap[s.table[job]]);
    }
  }

  lemma RepliesStay(s: State, t: State)
    requires RepliesOk(s) && s.completed <= t.completed
    requires t.replies == s.replies || (|t.replies| == |s.replies| + 1 && t.replies[..|s.replies|] == s.replies
                                        && ReplyOk(t, t.replies[|s.replies|]))
    ensures RepliesOk(t)
  {
    forall i | 0 <= i < |t.replies|
      ensures ReplyOk(t, t.replies[i])
    {
      if i < |s.replies| {
        assert t.replies[i] == s.replies[i];
        ReplyStays(s, t, s.replies[i]);
      }
    }
  }

  lemma ReplyStays(s: State, t: State, r: Reply)
    requires ReplyOk(s, r) && s.completed <= t.completed
    ensures ReplyOk(t, r)
  {
    if r.Cached? {
      var original :| (r.job, original) in s.completed && Answers(original, r.requested, r.result);
      assert (r.job, original) in t.completed;
    }
  }

  /** Steps of the handler that write no dictionary. */
  predicate IsReading(step: Step) {
    step.ArriveStep? || step.LookStep? || step.ReadStatusStep? || step.ReplyPendingStep? || step.ReadResultStep?
    || step.FailStagingStep? || step.FailNumberingStep?
  }

  lemma ReadingHandler(s: State, t: State, step: Step)
    requires TableOk(s) && HandlerOk(s) && NextBy(s, t, step) && IsReading(step)
    ensures HandlerOk(t)
  {
  }

  lemma ReadingServes(s: State, t: State, step: Step)
    requires ServesLast(s) && NextBy(s, t, step) && IsReading(step)
    ensures ServesLast(t)
  {
  }

  lemma ReadingReplies(s: State, t: State, step: Step)
    requires Inv(s) && NextBy(s, t, step) && IsReading(step)
    ensures RepliesOk(t)
  {
    if step.ReadResultStep? && IsSuccess(s, s.handler.ref) && Fits(ResultOf(s, s.handler.ref), s.handler.rid) {
      var h := s.handler;
      assert EntryOk(s, h.job, s.heap[h.ref]);
      CachedOk(t, h.job, ResultOf(s, h.ref), h.rid, ResultOf(s, h.ref));
    }
    RepliesStay(s, t);
  }

  lemma CachedOk(s: State, job: JobId, original: BuildResult, requested: Option<int>, result: BuildResult)
    requires (job, original) in s.completed && original.exitCode == 0 && Answers(original, requested, result)
    ensures ReplyOk(s, Cached(job, requested, result))
  {
  }

  lemma ReadingKeeps(s: State, t: State, step: Step)
    requires Inv(s) && NextBy(s, t, step) && IsReading(step)
    ensures Inv(t) && KeepsSuccesses(s, t)
  {
    Unchanged(s, t);
    SameTableOk(s, t);
    SameTableTasks(s, t);
    ReadingHandler(s, t, step);
    ReadingServes(s, t, step);
    ReadingReplies(s, t, step);
  }

  lemma DeepCopySame(s: State, t: State, copy: Ref, result: Ref)
    requires TableOk(s) && DeepCopy(s, t, copy, result)
    ensures SameTable(s, t)
  {
    forall job | job in s.table
      ensures SameEntry(s, t, job)
    {
      assert EntryOk(s, job, s.heap[s.table[job]]);
    }
  }

  lemma DeepCopyOk(s: State, t: State, copy: Ref, result: Ref)
    requires TableOk(s) && HandlerOk(s) && DeepCopy(s, t, copy, result)
    ensures HandlerOk(t)
  {
    var h := s.handler;
    assert EntryOk(s, h.job, s.heap[h.ref]);
    forall k | k in t.table && t.table[k] in t.heap
      ensures t.table[k] != copy && t.heap[t.table[k]].result != t.heap[copy].result
    {
      assert EntryOk(s, k, s.heap[s.table[k]]);
    }
  }

  lemma DeepCopyKeeps(s: State, t: State, copy: Ref, result: Ref)
    requires Inv(s) && DeepCopy(s, t, copy, result)
    ensures Inv(t) && KeepsSuccesses(s, t)
  {
    DeepCopySame(s, t, copy, result);
    SameTableOk(s, t);
    SameTableTasks(s, t);
    DeepCopyOk(s, t, copy, result);
    RepliesStay(s, t);
  }

  /** The write goes to the copy alone. */
  lemma RewriteSame(s: State, t: State)
    requires TableOk(s) && HandlerOk(s) && Rewrite(s, t)
    ensures SameTable(s, t)
  {
    forall job | job in s.table
      ensures SameEntry(s, t, job)
    {
      assert EntryOk(s, job, s.heap[s.table[job]]);
    }
  }

  lemma RewriteKeeps(s: State, t: State)
    requires Inv(s) && Rewrite(s, t)
    ensures Inv(t) && KeepsSuccesses(s, t)
  {
    var h := s.handler;
    RewriteSame(s, t);
    SameTableOk(s, t);
    SameTableTasks(s, t);
    var original := ResultOf(s, h.copy);
    CachedOk(t, h.job, original, Some(h.slot), original.(rebuildId := Some(h.slot)));
    RepliesStay(s, t);
  }

  /** A job without an entry, or with a finished one, has no outstanding task. */
  lemma NoTaskWhenDone(s: State, job: JobId)
    requires TasksOk(s)
    requires job in s.table ==> s.table[job] in s.heap && s.heap[s.table[job]].status == Done
    ensures !HasOutstanding(s, job)
  {
    forall task
      ensures !Outstanding(s, task, job)
    {
      assert task in s.tasks ==> TaskOk(s, task);
    }
  }

  lemma StoreTable(s: State, t: State, ref: Ref)
    requires TableOk(s) && HandlerOk(s) && Store(s, t, ref)
    ensures TableOk(t) && KeepsSuccesses(s, t)
  {
    forall k | k in t.table
      ensures EntryOk(t, k, t.heap[t.table[k]])
    {
      assert k != s.handler.job ==> EntryOk(s, k, s.heap[s.table[k]]);
    }
    forall k | HasSucceeded(s, k)
      ensures KeepsSuccess(s, t, k)
    {
      assert k != s.handler.job;
    }
  }

  lemma StoreTask(s: State, t: State, ref: Ref, task: nat)
    requires Store(s, t, ref) && task in s.tasks && TaskOk(s, task) && !HasOutstanding(s, s.handler.job)
    ensures TaskOk(t, task)
  {
    var job := s.handler.job;
    assert s.tasks[task].job == job && s.tasks[task].phase != Finished ==> Outstanding(s, task, job);
  }

  lemma StoreTasks(s: State, t: State, ref: Ref)
    requires TableOk(s) && TasksOk(s) && FlightOk(s) && HandlerOk(s) && Store(s, t, ref)
    ensures TasksOk(t) && FlightOk(t) && HandlerOk(t)
  {
    SameTasks(s, t);
    NoTaskWhenDone(s, s.handler.job);
    forall task | task in t.tasks
      ensures TaskOk(t, task)
    {
      StoreTask(s, t, ref, task);
    }
  }

  lemma StoreKeeps(s: State, t: State, ref: Ref)
    requires Inv(s) && Store(s, t, ref)
    ensures Inv(t) && KeepsSuccesses(s, t)
  {
    StoreTable(s, t, ref);
    StoreTasks(s, t, ref);
    RepliesStay(s, t);
  }

  lemma SubmitTasks(s: State, t: State, task: nat)
    requires TasksOk(s) && FlightOk(s) && HandlerOk(s) && SubmitTask(s, t, task)
    ensures TasksOk(t) && FlightOk(t)
  {
    var job := s.handler.job;
    forall u | u in t.tasks
      ensures TaskOk(t, u)
    {
      assert u != task ==> TaskOk(s, u);
    }
    forall u, k | Outstanding(t, u, k) && u != task
      ensures Outstanding(s, u, k) && k != job
    {
      assert Outstanding(s, u, k);
    }
    forall k | HasOutstanding(s, k)
      ensures HasOutstanding(t, k)
    {
      var u :| Outstanding(s, u, k);
      assert Outstanding(t, u, k);
    }
    assert Outstanding(t, task, job);
  }

  lemma SameDictionaries(s: State, t: State)
    requires TableOk(s) && t.table == s.table && t.heap == s.heap
    requires t.results == s.results && t.completed == s.completed
    ensures TableOk(t) && KeepsSuccesses(s, t)
  {
    forall k | k in t.table
      ensures EntryOk(t, k, t.heap[t.table[k]])
    {
      assert EntryOk(s, k, s.heap[s.table[k]]);
    }
  }

  lemma SubmitTaskKeeps(s: State, t: State, task: nat)
    requires Inv(s) && SubmitTask(s, t, task)
    ensures Inv(t) && KeepsSuccesses(s, t)
  {
    SubmitTasks(s, t, task);
    SameDictionaries(s, t);
    RepliesStay(s, t);
  }

  // ----- the workers' steps -----

  /** The task changes phase but stays outstanding. */
  lemma PhaseChangeFlight(s: State, t: State, task: nat, phase: Phase)
    requires task in s.tasks && s.tasks[task].phase != Finished && phase != Finished
    requires t.tasks == s.tasks[task := s.tasks[task].(phase := phase)]
    ensures forall u, job :: Outstanding(t, u, job) <==> Outstanding(s, u, job)
    ensures forall job :: HasOutstanding(t, job) <==> HasOutstanding(s, job)
  {
    forall job
      ensures HasOutstanding(s, job) <==> HasOutstanding(t, job)
    {
      if HasOutstanding(s, job) {
        var u :| Outstanding(s, u, job);
        assert Outstanding(t, u, job);
      }
      if HasOutstanding(t, job) {
        var u :| Outstanding(t, u, job);
        assert Outstanding(s, u, job);
      }
    }
  }

  lemma WorkerLookKeeps(s: State, t: State, task: nat)
    requires Inv(s) && WorkerLook(s, t, task)
    ensures Inv(t) && KeepsSuccesses(s, t)
  {
    PhaseChangeFlight(s, t, task, t.tasks[task].phase);
    forall u | u in t.tasks
      ensures TaskOk(t, u)
    {
      assert TaskOk(s, u);
    }
    SameDictionaries(s, t);
    RepliesStay(s, t);
  }

  lemma MarkTable(s: State, t: State, task: nat)
    requires TableOk(s) && TasksOk(s) && WorkerMark(s, t, task)
    ensures TableOk(t) && KeepsSuccesses(s, t)
  {
    assert TaskOk(s, task);
    forall k | k in t.table
      ensures EntryOk(t, k, t.heap[t.table[k]])
    {
      assert EntryOk(s, k, s.heap[s.table[k]]);
    }
  }

  lemma MarkTasks(s: State, t: State, task: nat)
    requires TableOk(s) && TasksOk(s) && FlightOk(s) && WorkerMark(s, t, task)
    ensures TasksOk(t) && FlightOk(t)
  {
    PhaseChangeFlight(s, t, task, Working);
    assert TaskOk(s, task) && Outstanding(s, task, s.tasks[task].job);
    forall u | u in t.tasks
      ensures TaskOk(t, u)
    {
      assert TaskOk(s, u);
      assert u != task && s.tasks[u].phase != Finished ==> Outstanding(s, u, s.tasks[u].job);
    }
  }

  lemma MarkHandler(s: State, t: State, task: nat)
    requires TableOk(s) && TasksOk(s) && HandlerOk(s) && WorkerMark(s, t, task)
    ensures HandlerOk(t)
  {
    PhaseChangeFlight(s, t, task, Working);
    var job := s.tasks[task].job;
    assert TaskOk(s, task) && Outstanding(s, task, job) && HasOutstanding(s, job);
  }

  lemma WorkerMarkKeeps(s: State, t: State, task: nat)
    requires Inv(s) && WorkerMark(s, t, task)
    ensures Inv(t) && KeepsSuccesses(s, t)
  {
    MarkTable(s, t, task);
    MarkTasks(s, t, task);
    MarkHandler(s, t, task);
    RepliesStay(s, t);
  }

  /** A worker stores its outcome: a fresh entry, with a fresh result or none. */
  ghost predicate Outcome(s: State, t: State, task: nat, ref: Ref) {
    && task in s.tasks && s.tasks[task].phase == Working && ref !in s.heap && ref in t.heap
    && var job := s.tasks[task].job;
    && t.heap == s.heap[ref := t.heap[ref]] && t.heap[ref].status == Done
    && t.table == s.table[job := ref] && t.handler == s.handler
    && t.tasks == s.tasks[task := s.tasks[task].(phase := Finished)]
    && s.completed <= t.completed && EntryOk(t, job, t.heap[ref])
    && (forall r :: r in s.results ==> r in t.results && t.results[r] == s.results[r])
    && (t.heap[ref].result.Some? ==> t.heap[ref].result.value !in s.results)
  }

  lemma OutcomeTable(s: State, t: State, task: nat, ref: Ref)
    requires TableOk(s) && TasksOk(s) && Outcome(s, t, task, ref)
    ensures TableOk(t) && KeepsSuccesses(s, t)
  {
    var job := s.tasks[task].job;
    assert TaskOk(s, task);
    forall k | k in t.table
      ensures EntryOk(t, k, t.heap[t.table[k]])
    {
      assert k != job ==> EntryOk(s, k, s.heap[s.table[k]]);
    }
    forall k | HasSucceeded(s, k)
      ensures KeepsSuccess(s, t, k)
    {
      assert k != job;
    }
  }

  lemma OutcomeFlight(s: State, t: State, task: nat, ref: Ref)
    requires TasksOk(s) && Outcome(s, t, task, ref)
    ensures forall u, k :: Outstanding(t, u, k) ==> Outstanding(s, u, k) && k != s.tasks[task].job
    ensures forall k :: k != s.tasks[task].job ==> (HasOutstanding(s, k) <==> HasOutstanding(t, k))
  {
    var job := s.tasks[task].job;
    assert Outstanding(s, task, job);
    forall u, k | Outstanding(t, u, k)
      ensures Outstanding(s, u, k) && k != job
    {
      assert Outstanding(s, u, k);
    }
    forall k | k != job
      ensures HasOutstanding(s, k) <==> HasOutstanding(t, k)
    {
      if HasOutstanding(s, k) {
        var u :| Outstanding(s, u, k);
        assert Outstanding(t, u, k);
      }
    }
  }

  lemma OutcomeTasks(s: State, t: State, task: nat, ref: Ref)
    requires TasksOk(s) && FlightOk(s) && Outcome(s, t, task, ref)
    ensures TasksOk(t) && FlightOk(t)
  {
    OutcomeFlight(s, t, task, ref);
    forall u | u in t.tasks
      ensures TaskOk(t, u)
    {
      assert TaskOk(s, u);
      assert t.tasks[u].phase != Finished ==> Outstanding(t, u, t.tasks[u].job);
    }
  }

  /** A handler that holds the entry just replaced keeps a dictionary that says running. */
  lemma OutcomeHandler(s: State, t: State, task: nat, ref: Ref)
    requires TableOk(s) && TasksOk(s) && HandlerOk(s) && Outcome(s, t, task, ref)
    ensures HandlerOk(t)
  {
    var job := s.tasks[task].job;
    OutcomeFlight(s, t, task, ref);
    assert TaskOk(s, task) && Outstanding(s, task, job) && HasOutstanding(s, job);
  }

  lemma OutcomeKeeps(s: State, t: State, task: nat, ref: Ref)
    requires Inv(s) && Outcome(s, t, task, ref) && t.replies == s.replies && t.requests == s.requests
    ensures Inv(t) && KeepsSuccesses(s, t)
  {
    OutcomeTable(s, t, task, ref);
    OutcomeTasks(s, t, task, ref);
    OutcomeHandler(s, t, task, ref);
    RepliesStay(s, t);
  }

  lemma HandlerWriteKeeps(s: State, t: State, step: Step)
    requires Inv(s) && NextBy(s, t, step)
    requires step.DeepCopyStep? || step.RewriteStep? || step.StoreStep? || step.SubmitTaskStep?
    ensures Inv(t) && KeepsSuccesses(s, t)
  {
    match step {
      case DeepCopyStep(copy, result) => DeepCopyKeeps(s, t, copy, result);
      case RewriteStep => RewriteKeeps(s, t);
      case StoreStep(ref) => StoreKeeps(s, t, ref);
      case SubmitTaskStep(task) => SubmitTaskKeeps(s, t, task);
    }
  }

  predicate IsWorker(step: Step) {
    step.WorkerLookStep? || step.WorkerMarkStep? || step.WorkerDoneStep? || step.WorkerFailsStep?
  }

  lemma WorkerKeeps(s: State, t: State, step: Step)
    requires Inv(s) && NextBy(s, t, step) && IsWorker(step)
    ensures Inv(t) && KeepsSuccesses(s, t)
  {
    match step {
      case WorkerLookStep(task) => WorkerLookKeeps(s, t, task);
      case WorkerMarkStep(task) => WorkerMarkKeeps(s, t, task);
      case WorkerDoneStep(task, _, _, ref) => OutcomeKeeps(s, t, task, ref);
      case WorkerFailsStep(task, _, ref) => OutcomeKeeps(s, t, task, ref);
    }
  }

  lemma StepKeeps(s: State, t: State)
    requires Inv(s) && Next(s, t)
    ensures Inv(t) && KeepsSuccesses(s, t)
  {
    var step :| NextBy(s, t, step);
    if IsReading(step) {
      ReadingKeeps(s, t, step);
    } else if IsWorker(step) {
      WorkerKeeps(s, t, step);
    } else {
      HandlerWriteKeeps(s, t, step);
    }
  }

  lemma {:induction false} RunInv(run: seq<State>, i: nat)
    requires IsRun(run) && i < |run|
    ensures Inv(run[i])
  {
    if i > 0 {
      RunInv(run, i - 1);
      assert StepAt(run, i - 1);
      StepKeeps(run[i - 1], run[i]);
    }
  }

  // ----- what it means for callers -----

  predicate StatusIn(s: State, job: JobId, statuses: set<Status>) {
    job in s.table && s.table[job] in s.heap && s.heap[s.table[job]].status in statuses
  }

  /** Main result, over every interleaving of requests and workers: a job never has two outstanding
      tasks; it has one exactly when its status is queued or running, except while the handler is
      between writing the queued entry and handing the job over; queued jobs have not started and
      running ones are being worked on. */
  lemma SingleFlight(run: seq<State>, i: nat, job: JobId)
    requires IsRun(run) && i < |run|
    ensures forall t, u :: Outstanding(run[i], t, job) && Outstanding(run[i], u, job) ==> t == u
    ensures HasOutstanding(run[i], job)
       <==> StatusIn(run[i], job, {Queued, Running}) && run[i].handler != Submitting(job)
    ensures forall t :: Outstanding(run[i], t, job) && run[i].tasks[t].phase == Working ==>
              StatusIn(run[i], job, {Running})
    ensures StatusIn(run[i], job, {Running}) ==>
              exists t :: Outstanding(run[i], t, job) && run[i].tasks[t].phase == Working
  {
    RunInv(run, i);
    var s := run[i];
    forall t | Outstanding(s, t, job)
      ensures StatusIn(s, job, {Queued, Running}) && s.handler != Submitting(job)
      ensures s.tasks[t].phase == Working <==> StatusIn(s, job, {Running})
    {
      assert TaskOk(s, t);
      assert HasOutstanding(s, job);
    }
  }

  lemma NextKeeps(run: seq<State>, i: nat)
    requires IsRun(run) && i < |run| - 1
    ensures KeepsSuccesses(run[i], run[i + 1])
  {
    RunInv(run, i);
    assert StepAt(run, i);
    StepKeeps(run[i], run[i + 1]);
  }

  lemma KeepsTransitive(a: State, b: State, c: State)
    requires KeepsSuccesses(a, b) && KeepsSuccesses(b, c)
    ensures KeepsSuccesses(a, c)
  {
    forall job | HasSucceeded(a, job)
      ensures KeepsSuccess(a, c, job)
    {
      assert KeepsSuccess(a, b, job) && KeepsSuccess(b, c, job);
    }
  }

  lemma {:induction false} RunKeeps(run: seq<State>, i: nat, j: nat)
    requires IsRun(run) && i <= j < |run|
    ensures KeepsSuccesses(run[i], run[j])
    decreases j
  {
    if i < j {
      RunKeeps(run, i, j - 1);
      NextKeeps(run, j - 1);
      KeepsTransitive(run[i], run[j - 1], run[j]);
    }
  }

  /** Main result: the entry of a job that is done with exit code 0 is never replaced, re-queued or altered,
      and neither is its result, also when replies rewrite the slot. */
  lemma SuccessForGood(run: seq<State>, i: nat, j: nat, job: JobId, result: BuildResult)
    requires IsRun(run) && i <= j < |run|
    requires DoneWith(run[i], job, result) && result.exitCode == 0
    ensures DoneWith(run[j], job, result)
    ensures run[j].table[job] == run[i].table[job]
    ensures run[j].heap[run[j].table[job]] == run[i].heap[run[i].table[job]]
  {
    RunKeeps(run, i, j);
    SuccessMeans(run[i], job);
    assert KeepsSuccess(run[i], run[j], job);
    SuccessMeans(run[j], job);
  }

  /** Every reply is truthful: a pending reply says queued or running, and a cached one repeats a
      result that some run of this very job produced with exit code 0, in the slot asked for. */
  lemma RepliesAreTruthful(run: seq<State>, i: nat, k: nat)
    requires IsRun(run) && i < |run| && k < |run[i].replies|
    ensures ReplyOk(run[i], run[i].replies[k])
  {
    RunInv(run, i);
  }

  /** A new reply answers the last request: it is about its job, and a cached result is for its slot. */
  lemma ReplyToTheRequest(run: seq<State>, i: nat)
    requires IsRun(run) && i < |run| - 1 && |run[i + 1].replies| > |run[i].replies|
    ensures run[i].requests != []
    ensures var r, q := run[i + 1].replies[|run[i].replies|], run[i].requests[|run[i].requests| - 1];
            r.job == q.job && (r.Cached? ==> r.requested == q.rid)
  {
    RunInv(run, i);
    assert StepAt(run, i);
    StepReplies(run[i], run[i + 1]);
  }

  /** What the handler adds as its reply. */
  ghost predicate AddsReply(s: State, t: State, r: Reply) {
    && t.replies == s.replies + [r] && s.handler != Free
    && match s.handler
       case Answering(job, _) => r.Pending? && r.job == job
       case Settled(job, _, rid) => r.Cached? && r.job == job && r.requested == rid
       case Rewriting(job, _, slot) => r.Cached? && r.job == job && r.requested == Some(slot)
       case Submitting(job) => r == Accepted(job)
       case _ => false
  }

  lemma StepAddsReply(s: State, t: State, step: Step)
    requires NextBy(s, t, step) && |t.replies| > |s.replies|
    ensures AddsReply(s, t, t.replies[|s.replies|])
  {
  }

  lemma StepReplies(s: State, t: State)
    requires ServesLast(s) && Next(s, t) && |t.replies| > |s.replies|
    ensures s.requests != []
    ensures var r, q := t.replies[|s.replies|], s.requests[|s.requests| - 1];
            r.job == q.job && (r.Cached? ==> r.requested == q.rid)
  {
    var step :| NextBy(s, t, step);
    StepAddsReply(s, t, step);
  }

  /** A request hands the job to the executor only if it is not in flight and has not succeeded. */
  lemma OnlyNeededWorkIsSubmitted(run: seq<State>, i: nat, task: nat)
    requires IsRun(run) && i < |run| - 1 && SubmitTask(run[i], run[i + 1], task)
    ensures !HasOutstanding(run[i], run[i].handler.job)
    ensures StatusIn(run[i], run[i].handler.job, {Queued})
  {
    RunInv(run, i);
  }

  // ----- one request, undisturbed -----

  /** The job is unknown, or finished without success. */
  predicate NeedsWork(s: State, job: JobId) {
    job !in s.table || (StatusIn(s, job, {Done}) && !HasSucceeded(s, job))
  }

  /** The dictionaries of s are in t unaltered. */
  ghost predicate Untouched(s: State, t: State) {
    && t.table == s.table && t.tasks == s.tasks && t.completed == s.completed
    && (forall r :: r in s.heap ==> r in t.heap && t.heap[r] == s.heap[r])
    && (forall r :: r in s.results ==> r in t.results && t.results[r] == s.results[r])
  }

  /** A state during a request that started in s: nothing but the handler has acted since. */
  ghost predicate Serving(s: State, u: State, q: Request) {
    && u.handler != Free && u.requests == s.requests + [q]
    && if u.handler.Submitting? then Queueing(s, u, q.job)
       else Untouched(s, u) && u.replies == s.replies && AsFound(s, u, q)
            && (u.handler.Rewriting? || (u.heap == s.heap && u.results == s.results))
  }

  /** What the handler has found out, in terms of the state in which the request came. */
  ghost predicate AsFound(s: State, u: State, q: Request) {
    match u.handler
    case Looking(job, rid) => q == Request(job, rid)
    case Holding(job, ref, rid) => q == Request(job, rid) && job in s.table && ref == s.table[job]
    case Answering(job, ref) =>
      job == q.job && job in s.table && ref == s.table[job] && ref in s.heap && s.heap[ref].status != Done
    case Settled(job, ref, rid) =>
      q == Request(job, rid) && job in s.table && ref == s.table[job] && StatusIn(s, job, {Done})
    case Staging(job, ref, slot) => q == Request(job, Some(slot)) && MustRewrite(s, q) && ref == s.table[job]
    case Rewriting(job, copy, slot) =>
      && q == Request(job, Some(slot)) && MustRewrite(s, q)
      && copy !in s.heap && IsSuccess(u, copy) && u.heap[copy].result.value !in s.results
      && ResultOf(u, copy) == ResultOf(s, s.table[job])
    case Storing(job) => job == q.job && NeedsWork(s, job)
    case _ => false
  }

  /** A cached success in another slot than the one asked for. */
  predicate MustRewrite(s: State, q: Request) {
    HasSucceeded(s, q.job) && !Fits(ResultOf(s, s.table[q.job]), q.rid)
  }

  /** The entry is queued, and the job about to be handed over. */
  ghost predicate Queueing(s: State, u: State, job: JobId) {
    && u.handler == Submitting(job) && NeedsWork(s, job) && u.tasks == s.tasks && u.replies == s.replies
    && exists ref: Ref :: NewEntry(s, u, job, ref)
  }

  ghost predicate NewEntry(s: State, u: State, job: JobId, ref: Ref) {
    ref !in s.heap && u.table == s.table[job := ref] && u.heap == s.heap[ref := Entry(Queued, None, None)]
  }

  /** How a request ends: with a new task for the job if it needs work, and otherwise with its status
      or its cached result, in the slot asked for, and no dictionary altered. A request may end without a
      reply in two cases only: a cached result is wanted in another slot, and staging fails; or the job
      needs work, no slot was asked for, and none can be found. */
  ghost predicate Answered(s: State, t: State, q: Request) {
    && t.handler == Free && t.requests == s.requests + [q]
    && if NeedsWork(s, q.job) then GetsWork(s, t, q) || (q.rid == None && Untouched(s, t) && t.replies == s.replies)
       else Untouched(s, t) && GetsReply(s, t, q)
  }

  ghost predicate GetsWork(s: State, t: State, q: Request) {
    && t.replies == s.replies + [Accepted(q.job)]
    && exists ref: Ref, task: nat :: NewWork(s, t, q.job, ref, task)
  }

  ghost predicate NewWork(s: State, t: State, job: JobId, ref: Ref, task: nat) {
    && NewEntry(s, t, job, ref)
    && task !in s.tasks && t.tasks == s.tasks[task := Task(job, Waiting)]
  }

  ghost predicate GetsReply(s: State, t: State, q: Request)
    requires !NeedsWork(s, q.job)
  {
    if HasSucceeded(s, q.job) then
      var cached := ResultOf(s, s.table[q.job]);
      if Fits(cached, q.rid) then t.replies == s.replies + [Cached(q.job, q.rid, cached)]
      else t.replies == s.replies + [Cached(q.job, q.rid, cached.(rebuildId := q.rid))] || t.replies == s.replies
    else
      StatusIn(s, q.job, {Queued, Running, Done})
      && t.replies == s.replies + [Pending(q.job, s.heap[s.table[q.job]].status)]
  }

  ghost predicate HandlerStep(u: State, v: State) {
    exists step: Step :: !step.ArriveStep? && !IsWorker(step) && NextBy(u, v, step)
  }

  ghost predicate HandlerStepAt(path: seq<State>, i: nat)
    requires i + 1 < |path|
  {
    HandlerStep(path[i], path[i + 1])
  }

  /** A request comes in state path[0]; from then on only the handler acts. */
  ghost predicate Undisturbed(path: seq<State>, q: Request) {
    && |path| > 1 && Arrive(path[0], path[1], q.job, q.rid)
    && forall i: nat :: 1 <= i < |path| - 1 ==> HandlerStepAt(path, i)
  }

  /** The request has gone one step further. */
  ghost predicate GotOn(s: State, v: State, q: Request) {
    if v.handler == Free then Answered(s, v, q) else Serving(s, v, q)
  }

  lemma ServingLooks(s: State, u: State, v: State, q: Request)
    requires TableOk(s) && Serving(s, u, q) && (Look(u, v) || ReadStatus(u, v))
    ensures GotOn(s, v, q)
  {
  }

  lemma ServingReplies(s: State, u: State, v: State, q: Request)
    requires TableOk(s) && Serving(s, u, q) && (ReplyPending(u, v) || FailStaging(u, v) || FailNumbering(u, v))
    ensures GotOn(s, v, q)
  {
  }

  lemma ServingReads(s: State, u: State, v: State, q: Request)
    requires TableOk(s) && Serving(s, u, q) && ReadResult(u, v)
    ensures GotOn(s, v, q)
  {
    assert EntryOk(s, q.job, s.heap[s.table[q.job]]);
  }

  lemma ServingCopies(s: State, u: State, v: State, q: Request, copy: Ref, result: Ref)
    requires TableOk(s) && Serving(s, u, q) && DeepCopy(u, v, copy, result)
    ensures GotOn(s, v, q)
  {
    assert EntryOk(s, q.job, s.heap[s.table[q.job]]);
  }

  lemma ServingRewrites(s: State, u: State, v: State, q: Request)
    requires TableOk(s) && Serving(s, u, q) && Rewrite(u, v)
    ensures GotOn(s, v, q)
  {
    assert EntryOk(s, q.job, s.heap[s.table[q.job]]);
  }

  lemma ServingStores(s: State, u: State, v: State, q: Request, ref: Ref)
    requires TableOk(s) && Serving(s, u, q) && Store(u, v, ref)
    ensures GotOn(s, v, q)
  {
    assert NewEntry(s, v, q.job, ref);
  }

  lemma ServingSubmits(s: State, u: State, v: State, q: Request, task: nat)
    requires Serving(s, u, q) && SubmitTask(u, v, task)
    ensures Answered(s, v, q)
  {
    var ref: Ref :| NewEntry(s, u, q.job, ref);
    assert NewWork(s, v, q.job, ref, task);
  }

  lemma ServingStep(s: State, u: State, v: State, q: Request)
    requires TableOk(s) && Serving(s, u, q) && HandlerStep(u, v)
    ensures GotOn(s, v, q)
  {
    var step: Step :| !step.ArriveStep? && !IsWorker(step) && NextBy(u, v, step);
    match step {
      case LookStep => ServingLooks(s, u, v, q);
      case ReadStatusStep => ServingLooks(s, u, v, q);
      case ReplyPendingStep => ServingReplies(s, u, v, q);
      case FailStagingStep => ServingReplies(s, u, v, q);
      case FailNumberingStep => ServingReplies(s, u, v, q);
      case ReadResultStep => ServingReads(s, u, v, q);
      case DeepCopyStep(copy, result) => ServingCopies(s, u, v, q, copy, result);
      case RewriteStep => ServingRewrites(s, u, v, q);
      case StoreStep(ref) => ServingStores(s, u, v, q, ref);
      case SubmitTaskStep(task) => ServingSubmits(s, u, v, q, task);
      case _ =>
    }
  }

  lemma FreeStays(u: State, v: State)
    requires u.handler == Free
    ensures !HandlerStep(u, v)
  {
  }

  /** Where an undisturbed request has got after i steps. */
  lemma {:induction false} RequestProgress(path: seq<State>, q: Request, i: nat)
    requires Undisturbed(path, q) && TableOk(path[0]) && 1 <= i < |path|
    ensures GotOn(path[0], path[i], q)
    decreases i
  {
    if i > 1 {
      RequestProgress(path, q, i - 1);
      assert HandlerStepAt(path, i - 1);
      if path[i - 1].handler == Free {
        FreeStays(path[i - 1], path[i]);
      } else {
        ServingStep(path[0], path[i - 1], path[i], q);
      }
    }
  }

  /** Main result on one request: from any reachable state, however the handler's own choices fall, an
      undisturbed request that is over has been answered. */
  lemma RequestOutcome(run: seq<State>, i: nat, path: seq<State>, q: Request)
    requires IsRun(run) && i < |run| && Undisturbed(path, q) && path[0] == run[i]
    requires path[|path| - 1].handler == Free
    ensures Answered(run[i], path[|path| - 1], q)
    ensures NeedsWork(run[i], q.job) <==>
              q.job !in run[i].table
              || (StatusIn(run[i], q.job, {Done})
                  && forall result :: DoneWith(run[i], q.job, result) ==> result.exitCode != 0)
    ensures HasSucceeded(run[i], q.job) ==> DoneWith(run[i], q.job, ResultOf(run[i], run[i].table[q.job]))
  {
    SuccessMeans(run[i], q.job);
    RunInv(run, i);
    RequestProgress(path, q, |path| - 1);
  }

  lemma {:induction false} Unused(used: set<nat>) returns (n: nat)
    ensures n !in used && forall u :: u in used ==> u < n
  {
    n := 0;
    if used != {} {
      var u :| u in used;
      var m := Unused(used - {u});
      n := if u < m then m else u + 1;
      assert forall v :: v in used ==> v == u || v in used - {u};
    }
  }

  lemma ReadsOn(s: State) returns (t: State)
    requires TableOk(s) && HandlerOk(s)
    requires s.handler.Looking? || s.handler.Holding? || s.handler.Answering? || s.handler.Settled?
    ensures HandlerStep(s, t)
  {
    match s.handler {
      case Looking(job, rid) =>
        t := s.(handler := if job in s.table then Holding(job, s.table[job], rid) else Storing(job));
        assert NextBy(s, t, LookStep);
      case Holding(job, ref, rid) =>
        t := s.(handler := if s.heap[ref].status == Done then Settled(job, ref, rid) else Answering(job, ref));
        assert NextBy(s, t, ReadStatusStep);
      case Answering(job, ref) =>
        t := s.(handler := Free, replies := s.replies + [Pending(job, s.heap[ref].status)]);
        assert NextBy(s, t, ReplyPendingStep);
      case Settled(job, ref, rid) =>
        t := if !IsSuccess(s, ref) then s.(handler := Storing(job))
             else if Fits(ResultOf(s, ref), rid) then
               s.(handler := Free, replies := s.replies + [Cached(job, rid, ResultOf(s, ref))])
             else s.(handler := Staging(job, ref, rid.value));
        assert NextBy(s, t, ReadResultStep);
    }
  }

  lemma WritesOn(s: State) returns (t: State)
    requires TableOk(s) && HandlerOk(s)
    requires s.handler.Staging? || s.handler.Rewriting? || s.handler.Storing? || s.handler.Submitting?
    ensures HandlerStep(s, t)
  {
    match s.handler {
      case Staging(job, ref, slot) =>
        var copy := Unused(s.heap.Keys);
        var result := Unused(s.results.Keys);
        t := s.(heap := s.heap[copy := s.heap[ref].(result := Some(result))],
                results := s.results[result := ResultOf(s, ref)],
                handler := Rewriting(job, copy, slot));
        assert NextBy(s, t, DeepCopyStep(copy, result));
      case Rewriting(job, copy, slot) =>
        var rewritten := ResultOf(s, copy).(rebuildId := Some(slot));
        t := s.(results := s.results[s.heap[copy].result.value := rewritten], handler := Free,
                replies := s.replies + [Cached(job, Some(slot), rewritten)]);
        assert NextBy(s, t, RewriteStep);
      case Storing(job) =>
        var ref := Unused(s.heap.Keys);
        t := s.(heap := s.heap[ref := Entry(Queued, None, None)], table := s.table[job := ref],
                handler := Submitting(job));
        assert NextBy(s, t, StoreStep(ref));
      case Submitting(job) =>
        var task := Unused(s.tasks.Keys);
        t := s.(tasks := s.tasks[task := Task(job, Waiting)], handler := Free, replies := s.replies + [Accepted(job)]);
        assert NextBy(s, t, SubmitTaskStep(task));
    }
  }

  /** And it never gets stuck: in every reachable state a busy handler can take its next step, which
      need not be a failure. */
  lemma NeverStuck(run: seq<State>, i: nat) returns (t: State)
    requires IsRun(run) && i < |run| && run[i].handler != Free
    ensures HandlerStep(run[i], t)
  {
    RunInv(run, i);
    var h := run[i].handler;
    if h.Looking? || h.Holding? || h.Answering? || h.Settled? {
      t := ReadsOn(run[i]);
    } else {
      t := WritesOn(run[i]);
    }
  }
}
