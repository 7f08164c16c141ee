/** The submitter's handling of one file among the steps of its threads: undisturbed, a thread does just
    what the sequential methods say. */
module SubmitPaths {
  import opened Outcomes
  import opened SubmitQueue
  import opened SubmitHelperModel

  /** From s a path leads to t. */
  ghost predicate Leads(e: Env, s: State, t: State) {
    exists path :: IsPath(e, path) && path[0] == s && path[|path| - 1] == t
  }

  lemma LeadsSelf(e: Env, s: State)
    ensures Leads(e, s, s)
  {
    assert IsPath(e, [s]);
  }

  lemma LeadsBy(e: Env, s: State, m: State, t: State, step: Step)
    requires Leads(e, s, m) && NextBy(e, m, t, step)
    ensures Leads(e, s, t)
  {
    var path :| IsPath(e, path) && path[0] == s && path[|path| - 1] == m;
    assert [m, t][1..] == [t];
    assert Next(e, m, t);
    OneStep(e, m, t);
    PathJoin(e, path, [m, t]);
  }

  lemma OneStep(e: Env, m: State, t: State)
    requires Next(e, m, t)
    ensures IsPath(e, [m, t])
  {
    assert StepAt(e, [m, t], 0);
  }

  lemma LeadsOn(e: Env, s: State, m: State, t: State)
    requires Leads(e, s, m) && Leads(e, m, t)
    ensures Leads(e, s, t)
  {
    var p :| IsPath(e, p) && p[0] == s && p[|p| - 1] == m;
    var q :| IsPath(e, q) && q[0] == m && q[|q| - 1] == t;
    PathJoin(e, p, q);
    assert |q| > 1 ==> (p + q[1..])[|p + q[1..]| - 1] == t;
    assert |q| == 1 ==> p + q[1..] == p;
  }

  /** What the queue and the destinations amount to for the sequential methods. */
  ghost predicate IsHeld(s: State, queue: seq<Item>, destination: map<string, Bytes>) {
    (forall id :: id in s.queue ==> id in s.items) && ItemsOf(s, s.queue) == queue && s.dst == destination
  }

  lemma SameHeld(s: State, t: State, queue: seq<Item>, destination: map<string, Bytes>)
    requires IsHeld(s, queue, destination) && t.queue == s.queue && t.items == s.items && t.dst == s.dst
    ensures IsHeld(t, queue, destination)
  {
    SameItemsOf(s, t, s.queue);
  }

  lemma {:induction false} SameItemsOf(s: State, t: State, batch: seq<Id>)
    requires forall id :: id in batch ==> id in s.items && id in t.items && t.items[id] == s.items[id]
    ensures ItemsOf(s, batch) == ItemsOf(t, batch)
  {
    if batch != [] {
      SameItemsOf(s, t, batch[1..]);
    }
  }

  lemma HeldAppend(s: State, t: State, id: Id, item: Item, queue: seq<Item>, destination: map<string, Bytes>)
    requires IsHeld(s, queue, destination) && id !in s.items
    requires t.queue == s.queue + [id] && t.items == s.items[id := item] && t.dst == s.dst
    ensures IsHeld(t, queue + [item], destination)
  {
    var all := ItemsOf(t, t.queue);
    forall i | 0 <= i < |all|
      ensures all[i] == (queue + [item])[i]
    {
    }
  }

  /** An idle thread looks at a file: it is put into the queue just if the method puts it there. */
  lemma EnqueueIsPath(e: Env, s: State, th: nat, path: string, id: Id, d: Disk, h: Held) returns (t: State)
    requires th in s.threads && s.threads[th] == Idle && id !in s.items && d.files == s.files
    requires IsHeld(s, h.queue, h.destination)
    ensures Leads(e, s, t) && t.files == s.files && t.flushLock == s.flushLock
    ensures th in t.threads && t.threads[th] == Deciding
    ensures IsHeld(t, Enqueued(e, d, h, path).queue, h.destination)
  {
    LeadsSelf(e, s);
    if path !in s.files || s.files[path] == [] {
      t := Goto(s, th, Deciding);
      LeadsBy(e, s, s, t, TimerStep(th));
      SameHeld(s, t, h.queue, h.destination);
      return;
    }
    var bytes := s.files[path];
    var a := Goto(s, th, Hashed(path, bytes));
    LeadsBy(e, s, s, a, HashStep(th, path));
    if e.shared && Name(e, path, bytes) in s.dst {
      t := Goto(a, th, Deciding);
      LeadsBy(e, s, a, t, LookStep(th));
      SameHeld(s, t, h.queue, h.destination);
      return;
    }
    var b := Goto(a, th, Missing(path, bytes));
    LeadsBy(e, s, a, b, LookStep(th));
    var item := Item(path, e.hash(bytes), bytes);
    t := Goto(b, th, Deciding).(queue := s.queue + [id], items := s.items[id := item]);
    LeadsBy(e, s, b, t, AppendStep(th, id));
    HeldAppend(s, t, id, item, h.queue, h.destination);
  }

  /** A thread about to look at the queue flushes it just if the method does, to the same destinations. */
  lemma DecideIsPath(e: Env, s: State, th: nat, fails: set<string>, batchTime: int, h: Held, now: int)
    returns (t: State)
    requires th in s.threads && s.threads[th] == Deciding && s.flushLock == None
    requires IsHeld(s, h.queue, h.destination)
    ensures Leads(e, s, t) && th in t.threads && t.threads[th] == Idle && t.flushLock == None
    ensures var after := FlushedAt(e, OnDisk(s, fails), batchTime, h, now);
            IsHeld(t, after.queue, after.destination)
  {
    if ShouldFlush(e, |s.queue|, now - h.lastFlush >= batchTime) {
      t := TakeAndFlush(e, s, th, fails, now - h.lastFlush >= batchTime);
    } else {
      t := Goto(s, th, Idle);
      LeadsSelf(e, s);
      LeadsBy(e, s, s, t, DecideStep(th, now - h.lastFlush >= batchTime));
      SameHeld(s, t, h.queue, h.destination);
    }
  }

  lemma TakeAndFlush(e: Env, s: State, th: nat, fails: set<string>, due: bool) returns (t: State)
    requires th in s.threads && s.threads[th] == Deciding && s.flushLock == None && ShouldFlush(e, |s.queue|, due)
    requires forall id :: id in s.queue ==> id in s.items
    ensures Leads(e, s, t) && th in t.threads && t.threads[th] == Idle && t.flushLock == None
    ensures IsHeld(t, [], Flushed(e, OnDisk(s, fails), s.dst, ItemsOf(s, s.queue)))
  {
    var b := TakeAndLock(e, s, th, due);
    SameItemsOf(s, b, s.queue);
    t := FlushOut(e, b, th, fails);
    LeadsOn(e, s, b, t);
  }

  lemma TakeAndLock(e: Env, s: State, th: nat, due: bool) returns (b: State)
    requires th in s.threads && s.threads[th] == Deciding && s.flushLock == None && ShouldFlush(e, |s.queue|, due)
    ensures Leads(e, s, b)
    ensures th in b.threads && b.threads[th] == Flushing(s.queue) && b.flushLock == Some(th) && b.queue == []
    ensures b.files == s.files && b.items == s.items && b.dst == s.dst
  {
    var a := Goto(s, th, Took(s.queue)).(queue := []);
    LeadsSelf(e, s);
    LeadsBy(e, s, s, a, DecideStep(th, due));
    b := Goto(a, th, Flushing(s.queue)).(flushLock := Some(th));
    LeadsBy(e, s, a, b, LockStep(th));
  }

  /** A thread that holds the lock flushes its batch and releases the lock. */
  lemma FlushOut(e: Env, b: State, th: nat, fails: set<string>) returns (t: State)
    requires th in b.threads && b.threads[th].Flushing? && b.queue == [] && b.flushLock == Some(th)
    requires forall id :: id in b.threads[th].batch ==> id in b.items
    ensures Leads(e, b, t) && th in t.threads && t.threads[th] == Idle && t.flushLock == None && t.queue == []
    ensures t.dst == Flushed(e, OnDisk(b, fails), b.dst, ItemsOf(b, b.threads[th].batch))
    ensures IsHeld(t, [], t.dst)
  {
    var path := FlushIsPath(e, b, th, fails);
    var c := path[|path| - 1];
    assert Leads(e, b, c);
    t := Goto(c, th, Idle).(flushLock := None);
    LeadsBy(e, b, c, t, UnlockStep(th));
  }

  /** Main result: handling a file is a path of the state machine to what HandleNewFile computes; the sequential
      model and the interleaved one agree. */
  lemma HandlingIsPath(e: Env, s: State, th: nat, path: string, id: Id, fails: set<string>, batchTime: int,
                       h: Held, now: int)
    returns (t: State)
    requires th in s.threads && s.threads[th] == Idle && s.flushLock == None && id !in s.items
    requires IsHeld(s, h.queue, h.destination)
    ensures Leads(e, s, t) && th in t.threads && t.threads[th] == Idle && t.flushLock == None
    ensures var after := Handled(e, OnDisk(s, fails), batchTime, h, path, now);
            IsHeld(t, after.queue, after.destination)
  {
    var m := EnqueueIsPath(e, s, th, path, id, OnDisk(s, fails), h);
    t := DecideIsPath(e, m, th, fails, batchTime, Enqueued(e, OnDisk(s, fails), h, path), now);
    LeadsOn(e, s, m, t);
    assert OnDisk(m, fails) == OnDisk(s, fails);
  }
}
