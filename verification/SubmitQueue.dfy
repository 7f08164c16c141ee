/** The batching submitter of libCRS/libCRS/submit.py: threads that enqueue files, swap the queue and
    flush it under a lock, while other threads submit single files outside that lock. */
module SubmitQueue {
  import opened Outcomes

  type Bytes = seq<bv8>
  type Id = nat

  /** What does not change during a run. The files in `stable`, once there, are left alone. */
  datatype Env = Env(hash: Bytes -> string, suffix: string -> string, shared: bool, batchSize: int, stable: set<string>)

  /** An entry of the queue; `hashed` records the bytes that were hashed. */
  datatype Item = Item(path: string, contentHash: string, hashed: Bytes)

  datatype Outcome = Copied | Skipped | Failed

  /** Where a thread is. */
  datatype Thread =
    | Idle
    | Hashed(path: string, hashed: Bytes)                 // __enqueue_file has the hash
    | Missing(path: string, hashed: Bytes)                // and saw no destination
    | Deciding                                            // about to look at the queue in __flush
    | Took(batch: seq<Id>)                                // has swapped the queue
    | Flushing(batch: seq<Id>)                            // holds flush_lock; these items are left
    | Absent(batch: seq<Id>)                              // saw no destination for the first item
    | Reading(batch: seq<Id>, content: Bytes)             // rsync has opened its source
    | DirectHashed(path: string, hashed: Bytes)           // submit_file
    | DirectAbsent(path: string, hashed: Bytes)
    | DirectReading(path: string, hashed: Bytes, content: Bytes)

  datatype State = State(
    files: map<string, Bytes>,
    dst: map<string, Bytes>,
    source: map<string, string>,      // the file each destination was last written from
    queue: seq<Id>,
    items: map<Id, Item>,
    threads: map<nat, Thread>,
    flushLock: Option<nat>,
    outcome: map<Id, Outcome>,
    written: seq<string>)             // destinations written by flushes, in order

  function Name(e: Env, path: string, hashed: Bytes): string {
    e.hash(hashed) + e.suffix(path)
  }

  /** The destination of an item: its hash and the suffix of its file. */
  function NameOf(e: Env, item: Item): string {
    item.contentHash + e.suffix(item.path)
  }

  function BatchOf(th: Thread): seq<Id> {
    match th
    case Took(b) => b
    case Flushing(b) => b
    case Absent(b) => b
    case Reading(b, _) => b
    case _ => []
  }

  predicate HoldsLock(th: Thread) {
    th.Flushing? || th.Absent? || th.Reading?
  }

  // ----- the steps -----

  ghost predicate IsThread(s: State, th: nat) {
    th in s.threads
  }

  function Goto(s: State, th: nat, to: Thread): State {
    s.(threads := s.threads[th := to])
  }

  ghost predicate WriteFile(e: Env, s: State, t: State, path: string, content: Bytes) {
    (path in e.stable ==> path !in s.files) && t == s.(files := s.files[path := content])
  }

  ghost predicate RemoveFile(e: Env, s: State, t: State, path: string) {
    path !in e.stable && t == s.(files := s.files - {path})
  }

  /** A new file that is not empty is hashed. */
  ghost predicate HashFile(s: State, t: State, th: nat, path: string) {
    && IsThread(s, th) && s.threads[th] == Idle && path in s.files && s.files[path] != []
    && t == Goto(s, th, Hashed(path, s.files[path]))
  }

  /** If the destination is there, nothing is queued, but the flush is still tried. */
  ghost predicate LookBefore(e: Env, s: State, t: State, th: nat) {
    && IsThread(s, th) && s.threads[th].Hashed?
    && var h := s.threads[th];
    && t == Goto(s, th, if e.shared && Name(e, h.path, h.hashed) in s.dst then Deciding else Missing(h.path, h.hashed))
  }

  /** Looking for the destination raises an error: neither the queue nor the flush is reached. */
  ghost predicate FailLooking(s: State, t: State, th: nat) {
    IsThread(s, th) && s.threads[th].Hashed? && t == Goto(s, th, Idle)
  }

  ghost predicate Append(e: Env, s: State, t: State, th: nat, id: Id) {
    && IsThread(s, th) && s.threads[th].Missing? && id !in s.items
    && var h := s.threads[th];
    && t == Goto(s, th, Deciding).(queue := s.queue + [id],
                                   items := s.items[id := Item(h.path, e.hash(h.hashed), h.hashed)])
  }

  ghost predicate TimerFires(s: State, t: State, th: nat) {
    IsThread(s, th) && s.threads[th] == Idle && t == Goto(s, th, Deciding)
  }

  predicate ShouldFlush(e: Env, size: nat, due: bool) {
    size >= e.batchSize || (size > 0 && due)
  }

  /** Under queue_lock: swap the queue if it is long enough or old enough. */
  ghost predicate Decide(e: Env, s: State, t: State, th: nat, due: bool) {
    && IsThread(s, th) && s.threads[th].Deciding?
    && t == if ShouldFlush(e, |s.queue|, due) then Goto(s, th, Took(s.queue)).(queue := []) else Goto(s, th, Idle)
  }

  ghost predicate Lock(s: State, t: State, th: nat) {
    && IsThread(s, th) && s.threads[th].Took? && s.flushLock == None
    && t == Goto(s, th, Flushing(s.threads[th].batch)).(flushLock := Some(th))
  }

  /** The thread is done with the first item of its batch. */
  function Settle(s: State, th: nat, o: Outcome): State
    requires th in s.threads && BatchOf(s.threads[th]) != []
  {
    var batch := BatchOf(s.threads[th]);
    Goto(s, th, Flushing(batch[1..])).(outcome := s.outcome[batch[0] := o])
  }

  ghost predicate First(s: State, th: nat) {
    IsThread(s, th) && BatchOf(s.threads[th]) != [] && BatchOf(s.threads[th])[0] in s.items
  }

  function FirstItem(s: State, th: nat): Item
    requires First(s, th)
  {
    s.items[BatchOf(s.threads[th])[0]]
  }

  /** An item without a destination, or with one that is there, is skipped. */
  ghost predicate Examine(e: Env, s: State, t: State, th: nat) {
    && First(s, th) && s.threads[th].Flushing?
    && t == if !e.shared || NameOf(e, FirstItem(s, th)) in s.dst then Settle(s, th, Skipped)
            else Goto(s, th, Absent(s.threads[th].batch))
  }

  ghost predicate OpenSource(s: State, t: State, th: nat) {
    && First(s, th) && s.threads[th].Absent? && FirstItem(s, th).path in s.files
    && t == Goto(s, th, Reading(s.threads[th].batch, s.files[FirstItem(s, th).path]))
  }

  /** rsync renames its complete temporary file to the destination. */
  ghost predicate FinishCopy(e: Env, s: State, t: State, th: nat) {
    && First(s, th) && s.threads[th].Reading?
    && var name := NameOf(e, FirstItem(s, th));
    && t == Settle(s, th, Copied).(dst := s.dst[name := s.threads[th].content],
                                   source := s.source[name := FirstItem(s, th).path],
                                   written := s.written + [name])
  }

  /** rsync fails; the exception is logged. */
  ghost predicate FailCopy(s: State, t: State, th: nat) {
    First(s, th) && (s.threads[th].Absent? || s.threads[th].Reading?) && t == Settle(s, th, Failed)
  }

  ghost predicate Unlock(s: State, t: State, th: nat) {
    IsThread(s, th) && s.threads[th] == Flushing([]) && t == Goto(s, th, Idle).(flushLock := None)
  }

  ghost predicate DirectHash(s: State, t: State, th: nat, path: string) {
    && IsThread(s, th) && s.threads[th] == Idle && path in s.files
    && t == Goto(s, th, DirectHashed(path, s.files[path]))
  }

  ghost predicate DirectLook(e: Env, s: State, t: State, th: nat) {
    && IsThread(s, th) && s.threads[th].DirectHashed?
    && var h := s.threads[th];
    && t == Goto(s, th, if e.shared && Name(e, h.path, h.hashed) !in s.dst then DirectAbsent(h.path, h.hashed)
                        else Idle)
  }

  ghost predicate DirectOpen(s: State, t: State, th: nat) {
    && IsThread(s, th) && s.threads[th].DirectAbsent? && s.threads[th].path in s.files
    && var h := s.threads[th];
    && t == Goto(s, th, DirectReading(h.path, h.hashed, s.files[h.path]))
  }

  ghost predicate DirectFinish(e: Env, s: State, t: State, th: nat) {
    && IsThread(s, th) && s.threads[th].DirectReading?
    && var h := s.threads[th];
    && var name := Name(e, h.path, h.hashed);
    && t == Goto(s, th, Idle).(dst := s.dst[name := h.content], source := s.source[name := h.path])
  }

  ghost predicate DirectFail(s: State, t: State, th: nat) {
    && IsThread(s, th) && (s.threads[th].DirectHashed? || s.threads[th].DirectAbsent? || s.threads[th].DirectReading?)
    && t == Goto(s, th, Idle)
  }

  datatype Step =
    | WriteStep(path: string, content: Bytes) | RemoveStep(path: string)
    | HashStep(th: nat, path: string) | LookStep(th: nat) | FailLookStep(th: nat) | AppendStep(th: nat, id: Id)
    | TimerStep(th: nat) | DecideStep(th: nat, due: bool) | LockStep(th: nat)
    | ExamineStep(th: nat) | OpenStep(th: nat) | FinishStep(th: nat) | FailStep(th: nat) | UnlockStep(th: nat)
    | DirectHashStep(th: nat, path: string) | DirectLookStep(th: nat) | DirectOpenStep(th: nat)
    | DirectFinishStep(th: nat) | DirectFailStep(th: nat)

  ghost predicate NextBy(e: Env, s: State, t: State, step: Step) {
    match step
    case WriteStep(path, content) => WriteFile(e, s, t, path, content)
    case RemoveStep(path) => RemoveFile(e, s, t, path)
    case HashStep(th, path) => HashFile(s, t, th, path)
    case LookStep(th) => LookBefore(e, s, t, th)
    case FailLookStep(th) => FailLooking(s, t, th)
    case AppendStep(th, id) => Append(e, s, t, th, id)
    case TimerStep(th) => TimerFires(s, t, th)
    case DecideStep(th, due) => Decide(e, s, t, th, due)
    case LockStep(th) => Lock(s, t, th)
    case ExamineStep(th) => Examine(e, s, t, th)
    case OpenStep(th) => OpenSource(s, t, th)
    case FinishStep(th) => FinishCopy(e, s, t, th)
    case FailStep(th) => FailCopy(s, t, th)
    case UnlockStep(th) => Unlock(s, t, th)
    case DirectHashStep(th, path) => DirectHash(s, t, th, path)
    case DirectLookStep(th) => DirectLook(e, s, t, th)
    case DirectOpenStep(th) => DirectOpen(s, t, th)
    case DirectFinishStep(th) => DirectFinish(e, s, t, th)
    case DirectFailStep(th) => DirectFail(s, t, th)
  }

  ghost predicate Next(e: Env, s: State, t: State) {
    exists step :: NextBy(e, s, t, step)
  }

  ghost predicate Init(s: State) {
    && s.queue == [] && s.items == map[] && s.outcome == map[] && s.written == [] && s.source == map[]
    && s.flushLock == None && forall th :: th in s.threads ==> s.threads[th] == Idle
  }

  ghost predicate StepAt(e: Env, run: seq<State>, i: nat)
    requires i + 1 < |run|
  {
    Next(e, run[i], run[i + 1])
  }

  ghost predicate IsRun(e: Env, run: seq<State>) {
    && run != [] && Init(run[0])
    && forall i: nat :: i < |run| - 1 ==> StepAt(e, run, i)
  }

  // ----- every item is in one place -----

  datatype Place = Queued(pos: nat) | InFlight(th: nat, pos: nat) | Settled

  ghost predicate IsAt(s: State, id: Id, p: Place) {
    match p
    case Queued(k) => k < |s.queue| && s.queue[k] == id
    case InFlight(th, k) => th in s.threads && k < |BatchOf(s.threads[th])| && BatchOf(s.threads[th])[k] == id
    case Settled => id in s.outcome
  }

  ghost predicate HasPlace(s: State, id: Id) {
    exists p :: IsAt(s, id, p)
  }

  ghost predicate Placed(s: State) {
    && (forall id, p :: IsAt(s, id, p) ==> id in s.items)
    && (forall id :: id in s.items ==> HasPlace(s, id))
    && (forall id, p, q :: IsAt(s, id, p) && IsAt(s, id, q) ==> p == q)
  }

  /** A step that leaves the queue, the batches and the outcomes alone. */
  ghost predicate SamePlaces(s: State, t: State) {
    && t.queue == s.queue && t.items == s.items && t.outcome == s.outcome && t.threads.Keys == s.threads.Keys
    && forall th :: th in s.threads ==> BatchOf(t.threads[th]) == BatchOf(s.threads[th])
  }

  lemma SamePlacesKeep(s: State, t: State)
    requires Placed(s) && SamePlaces(s, t)
    ensures Placed(t)
  {
    forall id, p
      ensures IsAt(t, id, p) <==> IsAt(s, id, p)
    {
    }
    forall id | id in t.items
      ensures HasPlace(t, id)
    {
      assert HasPlace(s, id);
      var p :| IsAt(s, id, p);
      assert IsAt(t, id, p);
    }
  }

  lemma AppendPlaces(e: Env, s: State, t: State, th: nat, id: Id)
    requires Placed(s) && Append(e, s, t, th, id)
    ensures Placed(t)
  {
    var here := Queued(|s.queue|);
    assert IsAt(t, id, here);
    forall k, p
      ensures IsAt(t, k, p) <==> IsAt(s, k, p) || (k == id && p == here)
    {
    }
    forall k | k in t.items
      ensures HasPlace(t, k)
    {
      if k != id {
        assert HasPlace(s, k);
        var p :| IsAt(s, k, p);
        assert IsAt(t, k, p);
      }
    }
  }

  /** Where an item that is at p after the swap was before it. */
  function BeforeSwap(th: nat, p: Place): Place {
    if p.InFlight? && p.th == th then Queued(p.pos) else p
  }

  ghost predicate Swap(s: State, t: State, th: nat) {
    th in s.threads && BatchOf(s.threads[th]) == [] && t == Goto(s, th, Took(s.queue)).(queue := [])
  }

  lemma SwapPlaces(s: State, t: State, th: nat)
    requires Placed(s) && Swap(s, t, th)
    ensures Placed(t)
  {
    forall id, p | IsAt(t, id, p)
      ensures IsAt(s, id, BeforeSwap(th, p))
    {
    }
    forall id | id in t.items
      ensures HasPlace(t, id)
    {
      assert HasPlace(s, id);
      var p :| IsAt(s, id, p);
      var q := if p.Queued? then InFlight(th, p.pos) else p;
      assert IsAt(t, id, q);
    }
    forall id, p, q | IsAt(t, id, p) && IsAt(t, id, q)
      ensures p == q
    {
      assert BeforeSwap(th, p) == BeforeSwap(th, q);
      assert !p.Queued? && !q.Queued?;
    }
  }

  /** Where an item that is at p after the thread settled its first item was before. */
  function BeforeSettle(th: nat, first: Id, id: Id, p: Place): Place {
    if p.InFlight? && p.th == th then InFlight(th, p.pos + 1)
    else if p.Settled? && id == first then InFlight(th, 0)
    else p
  }

  /** What the settling steps do to the places. */
  ghost predicate Settles(s: State, t: State, th: nat) {
    && th in s.threads && BatchOf(s.threads[th]) != []
    && t.queue == s.queue && t.items == s.items
    && t.outcome.Keys == s.outcome.Keys + {BatchOf(s.threads[th])[0]}
    && t.threads == s.threads[th := Flushing(BatchOf(s.threads[th])[1..])]
  }

  lemma SettledBefore(s: State, t: State, th: nat, id: Id, p: Place)
    requires Placed(s) && Settles(s, t, th) && IsAt(t, id, p)
    ensures IsAt(s, id, BeforeSettle(th, BatchOf(s.threads[th])[0], id, p))
  {
    var first := BatchOf(s.threads[th])[0];
    assert IsAt(s, first, InFlight(th, 0));
  }

  lemma SettledAfter(s: State, t: State, th: nat, id: Id, p: Place) returns (q: Place)
    requires Placed(s) && Settles(s, t, th) && IsAt(s, id, p)
    ensures IsAt(t, id, q)
  {
    q := if p.InFlight? && p.th == th then (if p.pos == 0 then Settled else InFlight(th, p.pos - 1)) else p;
  }

  lemma SettlePlaces(s: State, t: State, th: nat)
    requires Placed(s) && Settles(s, t, th)
    ensures Placed(t)
  {
    var first := BatchOf(s.threads[th])[0];
    forall id, p | IsAt(t, id, p)
      ensures id in t.items
    {
      SettledBefore(s, t, th, id, p);
    }
    forall id | id in t.items
      ensures HasPlace(t, id)
    {
      assert HasPlace(s, id);
      var p :| IsAt(s, id, p);
      var q := SettledAfter(s, t, th, id, p);
    }
    forall id, p, q | IsAt(t, id, p) && IsAt(t, id, q)
      ensures p == q
    {
      SettledBefore(s, t, th, id, p);
      SettledBefore(s, t, th, id, q);
      assert BeforeSettle(th, first, id, p) == BeforeSettle(th, first, id, q);
    }
  }

  // ----- what is known about the lock, the outcomes and the names -----

  ghost predicate LockOk(s: State) {
    forall th :: th in s.threads ==> (HoldsLock(s.threads[th]) <==> s.flushLock == Some(th))
  }

  ghost predicate OutcomeOk(e: Env, s: State, id: Id)
    requires id in s.outcome
  {
    id in s.items
    && (s.outcome[id] != Failed && e.shared ==> NameOf(e, s.items[id]) in s.dst)
    && (!e.shared ==> s.outcome[id] == Skipped)
  }

  ghost predicate OutcomesOk(e: Env, s: State) {
    forall id :: id in s.outcome ==> OutcomeOk(e, s, id)
  }

  predicate NoRepeats(names: seq<string>) {
    forall i, j :: 0 <= i < j < |names| ==> names[i] != names[j]
  }

  ghost predicate WrittenOk(s: State) {
    NoRepeats(s.written) && forall n :: n in s.written ==> n in s.dst
  }

  /** A thread about to copy has the lock, and no flush has written its destination. */
  ghost predicate CopierOk(e: Env, s: State, th: nat)
    requires th in s.threads
  {
    s.threads[th].Absent? || s.threads[th].Reading? ==>
      First(s, th) && e.shared && NameOf(e, FirstItem(s, th)) !in s.written
  }

  ghost predicate CopiersOk(e: Env, s: State) {
    forall th :: th in s.threads ==> CopierOk(e, s, th)
  }

  /** The file, if it is a stable one, still has these bytes. */
  ghost predicate StillHas(e: Env, s: State, path: string, hashed: Bytes) {
    path in e.stable ==> path in s.files && s.files[path] == hashed
  }

  ghost predicate ItemsOk(e: Env, s: State) {
    forall id :: id in s.items ==>
      s.items[id].contentHash == e.hash(s.items[id].hashed) && StillHas(e, s, s.items[id].path, s.items[id].hashed)
  }

  ghost predicate ThreadOk(e: Env, s: State, th: nat)
    requires th in s.threads
  {
    match s.threads[th]
    case Hashed(path, hashed) => StillHas(e, s, path, hashed)
    case Missing(path, hashed) => StillHas(e, s, path, hashed)
    case DirectHashed(path, hashed) => StillHas(e, s, path, hashed)
    case DirectAbsent(path, hashed) => StillHas(e, s, path, hashed)
    case DirectReading(path, hashed, content) =>
      StillHas(e, s, path, hashed) && (path in e.stable ==> content == hashed)
    case Reading(batch, content) =>
      First(s, th) && (FirstItem(s, th).path in e.stable ==> content == FirstItem(s, th).hashed)
    case _ => true
  }

  ghost predicate ThreadsOk(e: Env, s: State) {
    forall th :: th in s.threads ==> ThreadOk(e, s, th)
  }

  ghost predicate NamesOk(e: Env, s: State) {
    forall n :: n in s.source && s.source[n] in e.stable ==>
      n in s.dst && n == Name(e, s.source[n], s.dst[n])
  }

  ghost predicate Inv(e: Env, s: State) {
    && Placed(s) && LockOk(s) && OutcomesOk(e, s) && WrittenOk(s) && CopiersOk(e, s)
    && ItemsOk(e, s) && ThreadsOk(e, s) && NamesOk(e, s)
  }

  /** Destinations stay, items and outcomes stay as they are. */
  ghost predicate Keeps(s: State, t: State) {
    && (forall n :: n in s.dst ==> n in t.dst)
    && (forall id :: id in s.items ==> id in t.items && t.items[id] == s.items[id])
    && (forall id :: id in s.outcome ==> id in t.outcome && t.outcome[id] == s.outcome[id])
    && s.written <= t.written
  }

  // ----- every step keeps the invariant -----

  /** The steps that change one thread only, and neither its batch nor whether it holds the lock. */
  ghost predicate OnlyThread(s: State, t: State, th: nat) {
    && th in s.threads && th in t.threads
    && t == Goto(s, th, t.threads[th])
    && BatchOf(t.threads[th]) == BatchOf(s.threads[th])
    && HoldsLock(t.threads[th]) == HoldsLock(s.threads[th])
  }

  lemma OutcomesStay(e: Env, s: State, t: State)
    requires OutcomesOk(e, s) && t.outcome == s.outcome
    requires forall id :: id in s.items ==> id in t.items && t.items[id] == s.items[id]
    requires forall n :: n in s.dst ==> n in t.dst
    ensures OutcomesOk(e, t)
  {
    forall id | id in t.outcome
      ensures OutcomeOk(e, t, id)
    {
      assert OutcomeOk(e, s, id);
    }
  }

  lemma OnlyThreadKeeps(e: Env, s: State, t: State, th: nat)
    requires Inv(e, s) && OnlyThread(s, t, th) && ThreadOk(e, t, th) && CopierOk(e, t, th)
    ensures Inv(e, t) && Keeps(s, t)
  {
    SamePlacesKeep(s, t);
    OtherThreads(e, s, t, th);
    OutcomesStay(e, s, t);
  }

  /** What is known about the other threads, if neither items nor stable files changed. */
  lemma OtherThreads(e: Env, s: State, t: State, th: nat)
    requires ThreadsOk(e, s) && CopiersOk(e, s)
    requires t.threads.Keys == s.threads.Keys
    requires forall u :: u in s.threads && u != th ==> t.threads[u] == s.threads[u]
    requires t.files == s.files && t.written == s.written
    requires forall id :: id in s.items ==> id in t.items && t.items[id] == s.items[id]
    ensures forall u :: u in t.threads && u != th ==> ThreadOk(e, t, u) && CopierOk(e, t, u)
  {
    forall u | u in t.threads && u != th
      ensures ThreadOk(e, t, u) && CopierOk(e, t, u)
    {
      assert ThreadOk(e, s, u) && CopierOk(e, s, u);
    }
  }

  lemma FilesKeep(e: Env, s: State, t: State)
    requires Inv(e, s) && t == s.(files := t.files)
    requires forall p :: p in e.stable && p in s.files ==> p in t.files && t.files[p] == s.files[p]
    ensures Inv(e, t) && Keeps(s, t)
  {
    SamePlacesKeep(s, t);
    forall th | th in t.threads
      ensures ThreadOk(e, t, th) && CopierOk(e, t, th)
    {
      assert ThreadOk(e, s, th) && CopierOk(e, s, th);
    }
    OutcomesStay(e, s, t);
  }

  lemma AppendKeeps(e: Env, s: State, t: State, th: nat, id: Id)
    requires Inv(e, s) && Append(e, s, t, th, id)
    ensures Inv(e, t) && Keeps(s, t)
  {
    AppendPlaces(e, s, t, th, id);
    OtherThreads(e, s, t, th);
    assert ThreadOk(e, s, th);
    OutcomesStay(e, s, t);
  }

  lemma SwapKeeps(e: Env, s: State, t: State, th: nat)
    requires Inv(e, s) && Swap(s, t, th) && !HoldsLock(s.threads[th])
    ensures Inv(e, t) && Keeps(s, t)
  {
    SwapPlaces(s, t, th);
    OtherThreads(e, s, t, th);
    OutcomesStay(e, s, t);
  }

  lemma LockKeeps(e: Env, s: State, t: State, th: nat)
    requires Inv(e, s) && (Lock(s, t, th) || Unlock(s, t, th))
    ensures Inv(e, t) && Keeps(s, t)
  {
    SamePlacesKeep(s, t);
    OtherThreads(e, s, t, th);
    OutcomesStay(e, s, t);
  }

  /** Examining and failing: the first item is settled and no destination changes. */
  lemma SettleKeeps(e: Env, s: State, t: State, th: nat, o: Outcome)
    requires Inv(e, s) && First(s, th) && HoldsLock(s.threads[th]) && t == Settle(s, th, o)
    requires o != Failed && e.shared ==> NameOf(e, FirstItem(s, th)) in s.dst
    requires !e.shared ==> o == Skipped
    ensures Inv(e, t) && Keeps(s, t)
  {
    SettlePlaces(s, t, th);
    SettleThreads(e, s, t, th, o);
    SettleOutcomes(e, s, t, th, o);
  }

  lemma SettleThreads(e: Env, s: State, t: State, th: nat, o: Outcome)
    requires LockOk(s) && ThreadsOk(e, s) && CopiersOk(e, s)
    requires First(s, th) && HoldsLock(s.threads[th]) && t == Settle(s, th, o)
    ensures LockOk(t) && ThreadsOk(e, t) && CopiersOk(e, t)
  {
    OtherThreads(e, s, t, th);
  }

  lemma SettleOutcomes(e: Env, s: State, t: State, th: nat, o: Outcome)
    requires Placed(s) && OutcomesOk(e, s) && First(s, th) && t == Settle(s, th, o)
    requires o != Failed && e.shared ==> NameOf(e, FirstItem(s, th)) in s.dst
    requires !e.shared ==> o == Skipped
    ensures OutcomesOk(e, t) && forall id :: id in s.outcome ==> id in t.outcome && t.outcome[id] == s.outcome[id]
  {
    FirstNotSettled(s, th);
    forall id | id in t.outcome
      ensures OutcomeOk(e, t, id)
    {
      assert id in s.outcome ==> OutcomeOk(e, s, id);
    }
  }

  lemma FirstNotSettled(s: State, th: nat)
    requires Placed(s) && First(s, th)
    ensures BatchOf(s.threads[th])[0] !in s.outcome
  {
    var first := BatchOf(s.threads[th])[0];
    var inFlight := InFlight(th, 0);
    assert IsAt(s, first, inFlight) && inFlight != Settled;
    assert !IsAt(s, first, Settled);
  }

  /** Only the thread that has the lock is about to copy. */
  lemma OnlyCopier(s: State, th: nat, u: nat)
    requires LockOk(s) && th in s.threads && u in s.threads && u != th && HoldsLock(s.threads[th])
    ensures !s.threads[u].Absent? && !s.threads[u].Reading?
  {
    assert s.flushLock == Some(th) && HoldsLock(s.threads[u]) ==> s.flushLock == Some(u);
  }

  lemma FinishThreads(e: Env, s: State, t: State, th: nat)
    requires Inv(e, s) && FinishCopy(e, s, t, th)
    ensures ThreadsOk(e, t) && CopiersOk(e, t) && LockOk(t)
  {
    forall u | u in t.threads
      ensures ThreadOk(e, t, u) && CopierOk(e, t, u)
    {
      assert ThreadOk(e, s, u);
      if u != th {
        OnlyCopier(s, th, u);
      }
    }
  }

  lemma NoRepeatsAppend(names: seq<string>, n: string)
    requires NoRepeats(names) && n !in names
    ensures NoRepeats(names + [n])
  {
  }

  lemma FinishNames(e: Env, s: State, t: State, th: nat)
    requires Inv(e, s) && FinishCopy(e, s, t, th)
    ensures WrittenOk(t) && NamesOk(e, t)
  {
    assert CopierOk(e, s, th) && ThreadOk(e, s, th);
    var name := NameOf(e, FirstItem(s, th));
    NoRepeatsAppend(s.written, name);
    var id := BatchOf(s.threads[th])[0];
    assert id in s.items && s.items[id].contentHash == e.hash(s.items[id].hashed);
  }

  lemma FinishKeeps(e: Env, s: State, t: State, th: nat)
    requires Inv(e, s) && FinishCopy(e, s, t, th)
    ensures Inv(e, t) && Keeps(s, t)
  {
    SettlePlaces(s, t, th);
    FinishThreads(e, s, t, th);
    FinishNames(e, s, t, th);
    FinishOutcomes(e, s, t, th);
  }

  lemma FinishOutcomes(e: Env, s: State, t: State, th: nat)
    requires Placed(s) && OutcomesOk(e, s) && CopiersOk(e, s) && FinishCopy(e, s, t, th)
    ensures OutcomesOk(e, t) && Keeps(s, t)
  {
    FirstNotSettled(s, th);
    assert CopierOk(e, s, th);
    forall id | id in t.outcome
      ensures OutcomeOk(e, t, id)
    {
      assert id in s.outcome ==> OutcomeOk(e, s, id);
    }
  }

  lemma DirectFinishNames(e: Env, s: State, t: State, th: nat)
    requires Inv(e, s) && DirectFinish(e, s, t, th)
    ensures WrittenOk(t) && NamesOk(e, t)
  {
    assert ThreadOk(e, s, th);
  }

  lemma DirectFinishKeeps(e: Env, s: State, t: State, th: nat)
    requires Inv(e, s) && DirectFinish(e, s, t, th)
    ensures Inv(e, t) && Keeps(s, t)
  {
    SamePlacesKeep(s, t);
    OtherThreads(e, s, t, th);
    DirectFinishNames(e, s, t, th);
    OutcomesStay(e, s, t);
  }

  lemma ExamineKeeps(e: Env, s: State, t: State, th: nat)
    requires Inv(e, s) && Examine(e, s, t, th)
    ensures Inv(e, t) && Keeps(s, t)
  {
    if !e.shared || NameOf(e, FirstItem(s, th)) in s.dst {
      SettleKeeps(e, s, t, th, Skipped);
    } else {
      assert NameOf(e, FirstItem(s, th)) !in s.written;
      OnlyThreadKeeps(e, s, t, th);
    }
  }

  lemma DecideKeeps(e: Env, s: State, t: State, th: nat, due: bool)
    requires Inv(e, s) && Decide(e, s, t, th, due)
    ensures Inv(e, t) && Keeps(s, t)
  {
    if ShouldFlush(e, |s.queue|, due) {
      SwapKeeps(e, s, t, th);
    } else {
      OnlyThreadKeeps(e, s, t, th);
    }
  }

  lemma OpenKeeps(e: Env, s: State, t: State, th: nat)
    requires Inv(e, s) && OpenSource(s, t, th)
    ensures Inv(e, t) && Keeps(s, t)
  {
    var id := BatchOf(s.threads[th])[0];
    assert CopierOk(e, s, th) && StillHas(e, s, s.items[id].path, s.items[id].hashed);
    OnlyThreadKeeps(e, s, t, th);
  }

  predicate IsProgress(step: Step) {
    step.TimerStep? || step.HashStep? || step.LookStep? || step.FailLookStep? || step.DirectHashStep?
    || step.DirectLookStep? || step.DirectOpenStep? || step.DirectFailStep?
  }

  lemma ProgressOk(e: Env, s: State, t: State, th: nat, step: Step)
    requires ThreadsOk(e, s) && NextBy(e, s, t, step)
    requires IsProgress(step) && step.th == th
    ensures OnlyThread(s, t, th) && ThreadOk(e, t, th) && CopierOk(e, t, th)
  {
    assert ThreadOk(e, s, th);
  }

  /** The remaining steps: only the thread's own progress changes. */
  lemma ProgressKeeps(e: Env, s: State, t: State, th: nat, step: Step)
    requires Inv(e, s) && NextBy(e, s, t, step)
    requires IsProgress(step) && step.th == th
    ensures Inv(e, t) && Keeps(s, t)
  {
    ProgressOk(e, s, t, th, step);
    OnlyThreadKeeps(e, s, t, th);
  }

  /** The steps that touch files, the queue, the lock or a destination. */
  lemma SharedKeeps(e: Env, s: State, t: State, step: Step)
    requires Inv(e, s) && NextBy(e, s, t, step)
    requires step.WriteStep? || step.RemoveStep? || step.AppendStep? || step.DecideStep? || step.DirectFinishStep?
          || step.LockStep? || step.UnlockStep?
    ensures Inv(e, t) && Keeps(s, t)
  {
    match step {
      case WriteStep(_, _) => FilesKeep(e, s, t);
      case RemoveStep(_) => FilesKeep(e, s, t);
      case AppendStep(th, id) => AppendKeeps(e, s, t, th, id);
      case DecideStep(th, due) => DecideKeeps(e, s, t, th, due);
      case LockStep(th) => LockKeeps(e, s, t, th);
      case UnlockStep(th) => LockKeeps(e, s, t, th);
      case DirectFinishStep(th) => DirectFinishKeeps(e, s, t, th);
    }
  }

  /** The steps of a flush that has the lock. */
  lemma LockedKeeps(e: Env, s: State, t: State, step: Step)
    requires Inv(e, s) && NextBy(e, s, t, step)
    requires step.ExamineStep? || step.OpenStep? || step.FinishStep? || step.FailStep?
    ensures Inv(e, t) && Keeps(s, t)
  {
    match step {
      case ExamineStep(th) => ExamineKeeps(e, s, t, th);
      case OpenStep(th) => OpenKeeps(e, s, t, th);
      case FinishStep(th) => FinishKeeps(e, s, t, th);
      case FailStep(th) =>
        assert CopierOk(e, s, th);
        SettleKeeps(e, s, t, th, Failed);
    }
  }

  lemma StepKeeps(e: Env, s: State, t: State)
    requires Inv(e, s) && Next(e, s, t)
    ensures Inv(e, t) && Keeps(s, t)
  {
    var step :| NextBy(e, s, t, step);
    if step.WriteStep? || step.RemoveStep? || step.AppendStep? || step.DecideStep? || step.DirectFinishStep?
       || step.LockStep? || step.UnlockStep? {
      SharedKeeps(e, s, t, step);
    } else if step.ExamineStep? || step.OpenStep? || step.FinishStep? || step.FailStep? {
      LockedKeeps(e, s, t, step);
    } else {
      ProgressKeeps(e, s, t, step.th, step);
    }
  }

  lemma InitInv(e: Env, s: State)
    requires Init(s)
    ensures Inv(e, s)
  {
    assert forall th :: th in s.threads ==> BatchOf(s.threads[th]) == [];
  }

  lemma {:induction false} RunInv(e: Env, run: seq<State>, i: nat)
    requires IsRun(e, run) && i < |run|
    ensures Inv(e, run[i])
  {
    if i == 0 {
      InitInv(e, run[0]);
    } else {
      RunInv(e, run, i - 1);
      assert StepAt(e, run, i - 1);
      StepKeeps(e, run[i - 1], run[i]);
    }
  }

  // ----- the main results -----

  /** In every interleaving, an item ever enqueued is in exactly one place: at one position of the
      queue, at one position of one thread's batch, or settled; and nothing else is anywhere. */
  lemma OnePlaceEach(e: Env, run: seq<State>, i: nat, id: Id)
    requires IsRun(e, run) && i < |run|
    ensures id in run[i].items <==> HasPlace(run[i], id)
    ensures forall p, q :: IsAt(run[i], id, p) && IsAt(run[i], id, q) ==> p == q
  {
    RunInv(e, run, i);
  }

  lemma KeepsTransitive(a: State, b: State, c: State)
    requires Keeps(a, b) && Keeps(b, c)
    ensures Keeps(a, c)
  {
  }

  lemma NextKeeps(e: Env, run: seq<State>, i: nat)
    requires IsRun(e, run) && i < |run| - 1
    ensures Keeps(run[i], run[i + 1])
  {
    RunInv(e, run, i);
    assert StepAt(e, run, i);
    StepKeeps(e, run[i], run[i + 1]);
  }

  /** Items, outcomes and destinations are there for good. */
  lemma {:induction false} NothingForgotten(e: Env, run: seq<State>, i: nat, j: nat)
    requires IsRun(e, run) && i <= j < |run|
    ensures Keeps(run[i], run[j])
    decreases j
  {
    if i < j {
      NothingForgotten(e, run, i, j - 1);
      NextKeeps(e, run, j - 1);
      KeepsTransitive(run[i], run[j - 1], run[j]);
    }
  }

  /** Flushes write each destination at most once, whatever other threads submit directly, and one
      thread at a time is between looking for a destination and writing it. */
  lemma WrittenOnce(e: Env, run: seq<State>, i: nat)
    requires IsRun(e, run) && i < |run|
    ensures NoRepeats(run[i].written)
    ensures forall th, u :: (th in run[i].threads && u in run[i].threads
              && HoldsLock(run[i].threads[th]) && HoldsLock(run[i].threads[u])) ==> th == u
  {
    RunInv(e, run, i);
  }

  /** A destination last written from a stable file is named after the hash of its own content. */
  lemma NamedAfterContent(e: Env, run: seq<State>, i: nat, n: string)
    requires IsRun(e, run) && i < |run|
    requires n in run[i].source && run[i].source[n] in e.stable
    ensures n in run[i].dst && n == e.hash(run[i].dst[n]) + e.suffix(run[i].source[n])
  {
    RunInv(e, run, i);
  }

  ghost predicate Quiet(s: State) {
    s.queue == [] && forall th :: th in s.threads ==> BatchOf(s.threads[th]) == []
  }

  lemma QuietSettles(e: Env, s: State, id: Id)
    requires Inv(e, s) && Quiet(s) && id in s.items
    ensures id in s.outcome && OutcomeOk(e, s, id)
  {
    assert HasPlace(s, id);
    var p :| IsAt(s, id, p);
    assert p == Settled;
  }

  /** Once the queue and the batches are empty, every item ever enqueued has an outcome, and unless
      its copy failed its destination exists. Without a shared directory everything is skipped. */
  lemma QuietMeansSettled(e: Env, run: seq<State>, i: nat, id: Id)
    requires IsRun(e, run) && i < |run| && Quiet(run[i]) && id in run[i].items
    ensures id in run[i].outcome
    ensures e.shared && run[i].outcome[id] != Failed ==> NameOf(e, run[i].items[id]) in run[i].dst
    ensures !e.shared ==> run[i].outcome[id] == Skipped
  {
    RunInv(e, run, i);
    QuietSettles(e, run[i], id);
  }

  lemma SameLengthPrefix(a: string, b: string, c: string, d: string)
    requires |a| == |b| && a + c == b + d
    ensures a == b
  {
    assert (a + c)[..|a|] == a && (b + d)[..|b|] == b;
  }

  /** Nothing is lost: if all hashes have one length, the destination of a copied or skipped item
      holds bytes with the hash taken when the item was enqueued, provided the file it was last
      written from is stable. */
  lemma SettledMeansStored(e: Env, run: seq<State>, i: nat, id: Id)
    requires IsRun(e, run) && i < |run| && e.shared && id in run[i].outcome && run[i].outcome[id] != Failed
    requires forall a, b :: |e.hash(a)| == |e.hash(b)|
    ensures id in run[i].items && NameOf(e, run[i].items[id]) in run[i].dst
    ensures var n := NameOf(e, run[i].items[id]);
            n in run[i].source && run[i].source[n] in e.stable ==>
              e.hash(run[i].dst[n]) == e.hash(run[i].items[id].hashed)
  {
    RunInv(e, run, i);
    var s := run[i];
    assert OutcomeOk(e, s, id);
    var item := s.items[id];
    var n := NameOf(e, item);
    if n in s.source && s.source[n] in e.stable {
      SameLengthPrefix(e.hash(s.dst[n]), e.hash(item.hashed), e.suffix(s.source[n]), e.suffix(item.path));
    }
  }
}
