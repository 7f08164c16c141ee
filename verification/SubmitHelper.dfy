/** The methods of `SubmitHelper` (libCRS/libCRS/submit.py) as one thread runs them, and how a flush
    appears among the steps of the threads. */
module SubmitHelperModel {
  import opened Outcomes
  import opened SubmitQueue

  /** The files there are, which of them are data files, which copies fail, and the destination names
      for which the file system refuses even to say whether they exist. */
  datatype Disk = Disk(files: map<string, Bytes>, isData: string -> bool, fails: set<string>, refused: set<string>)

  /** Files whose copy rsync completes: they are there, and none of the failures hits them. */
  predicate CanCopy(d: Disk, path: string) {
    path in d.files && path !in d.fails
  }

  predicate IsCopied(e: Env, d: Disk, dst: map<string, Bytes>, item: Item) {
    e.shared && NameOf(e, item) !in dst && CanCopy(d, item.path)
  }

  /** The destinations after flushing one item. */
  function FlushOne(e: Env, d: Disk, dst: map<string, Bytes>, item: Item): map<string, Bytes> {
    if IsCopied(e, d, dst, item) then dst[NameOf(e, item) := d.files[item.path]] else dst
  }

  /** The destinations after flushing a batch in order. */
  function Flushed(e: Env, d: Disk, dst: map<string, Bytes>, batch: seq<Item>): map<string, Bytes>
    decreases |batch|
  {
    if batch == [] then dst else Flushed(e, d, FlushOne(e, d, dst, batch[0]), batch[1..])
  }

  /** Some item of the batch with this name can be copied; the first such item is at k. */
  predicate FirstCopy(e: Env, d: Disk, batch: seq<Item>, name: string, k: nat) {
    && k < |batch|
    && NameOf(e, batch[k]) == name && CanCopy(d, batch[k].path)
    && forall j :: 0 <= j < k ==> !(NameOf(e, batch[j]) == name && CanCopy(d, batch[j].path))
  }

  ghost predicate HasCopy(e: Env, d: Disk, batch: seq<Item>, name: string) {
    exists k :: FirstCopy(e, d, batch, name, k)
  }

  class SubmitHelper {
    var destination: map<string, Bytes>
    var queue: seq<Item>
    var lastFlushTime: int
    var registeredDir: Option<string>

    constructor (destination: map<string, Bytes>, now: int)
      ensures this.destination == destination && queue == [] && lastFlushTime == now && registeredDir == None
    {
      this.destination := destination;
      queue, lastFlushTime, registeredDir := [], now, None;
    }

    /** `__enqueue_file`: unreadable, empty and already submitted files are dropped; false stands for the
        error of looking for the destination. */
    method EnqueueFile(e: Env, d: Disk, path: string) returns (ok: bool)
      modifies this`queue
      ensures ok <==> !(path in d.files && d.files[path] != [] && e.shared && Name(e, path, d.files[path]) in d.refused)
      ensures var keep := path in d.files && d.files[path] != []
                          && !(e.shared && Name(e, path, d.files[path]) in destination);
              queue == if ok && keep then old(queue) + [Item(path, e.hash(d.files[path]), d.files[path])]
                       else old(queue)
    {
      if path !in d.files || d.files[path] == [] {
        return true;
      }
      var contentHash := e.hash(d.files[path]);
      if e.shared {
        if contentHash + e.suffix(path) in d.refused {
          return false;
        }
        if contentHash + e.suffix(path) in destination {
          return true;
        }
      }
      queue := queue + [Item(path, contentHash, d.files[path])];
      return true;
    }

    /** `__flush` at the time now: it empties the queue if that is as long as the batch size, or not empty and
        not flushed for the batch time. */
    method Flush(e: Env, d: Disk, batchTime: int, now: int) returns (flushed: bool)
      modifies this`queue, this`destination, this`lastFlushTime
      ensures flushed <==> |old(queue)| >= e.batchSize || (old(queue) != [] && now >= old(lastFlushTime) + batchTime)
      ensures Now() == FlushedAt(e, d, batchTime, old(Now()), now)
      ensures flushed ==> queue == [] && lastFlushTime == now
                          && destination == Flushed(e, d, old(destination), old(queue))
      ensures !flushed ==> queue == old(queue) && lastFlushTime == old(lastFlushTime) && destination == old(destination)
    {
      if !ShouldFlush(e, |queue|, now - lastFlushTime >= batchTime) {
        return false;
      }
      var curQueue := queue;
      queue := [];
      for i := 0 to |curQueue|
        invariant Flushed(e, d, destination, curQueue[i..]) == Flushed(e, d, old(destination), curQueue)
        invariant queue == []
      {
        var item := curQueue[i];
        var dst := NameOf(e, item);
        if !e.shared || dst in destination {
          continue;
        }
        if item.path in d.files && item.path !in d.fails {
          destination := destination[dst := d.files[item.path]];
        }
      }
      lastFlushTime := now;
      return true;
    }

    /** `submit_file`: None stands for the error of a file that cannot be read or copied, or whose
        destination cannot be looked for. */
    method SubmitFile(e: Env, d: Disk, path: string) returns (r: Option<()>)
      modifies this`destination
      ensures r == if path !in d.files then None
                   else if e.shared && Name(e, path, d.files[path]) in d.refused then None
                   else if e.shared && Name(e, path, d.files[path]) !in old(destination) && path in d.fails then None
                   else Some(())
      ensures destination == if r.None? then old(destination)
                             else FlushOne(e, d, old(destination), Item(path, e.hash(d.files[path]), d.files[path]))
    {
      if path !in d.files {
        return None;
      }
      var dst := e.hash(d.files[path]) + e.suffix(path);
      if e.shared && dst in d.refused {
        return None;
      }
      if e.shared && dst !in destination {
        if path in d.fails {
          return None;
        }
        destination := destination[dst := d.files[path]];
      }
      return Some(());
    }

    ghost function Now(): Held
      reads this
    {
      Held(queue, destination, lastFlushTime)
    }

    /** What happens to a file that is found or changed: only data files are looked at. */
    method HandleNewFile(e: Env, d: Disk, path: string, batchTime: int, now: int) returns (ok: bool)
      modifies this`queue, this`destination, this`lastFlushTime
      ensures ok <==> !(d.isData(path) && IsRefused(e, d, path))
      ensures Now() == if ok then Handled(e, d, batchTime, old(Now()), path, now) else old(Now())
    {
      if !d.isData(path) {
        return true;
      }
      ok := EnqueueFile(e, d, path);
      if ok {
        var flushed := Flush(e, d, batchTime, now);
      }
    }

    /** `register_dir` up to the start of the observer: a second registration is refused; else the files
        found in the directory are handled one after the other, each at its time, up to the first whose
        destination cannot be looked for. */
    method RegisterDir(e: Env, d: Disk, dir: string, paths: seq<string>, batchTime: int, times: seq<int>)
      returns (r: Registration)
      requires |times| == |paths|
      modifies this
      ensures r == if old(registeredDir).Some? then AlreadyRegistered
                   else if LookedAt(e, d, paths) < |paths| then ScanFailed else Watching
      ensures r.AlreadyRegistered? ==> registeredDir == old(registeredDir) && Now() == old(Now())
      ensures !r.AlreadyRegistered? ==>
                var k := LookedAt(e, d, paths);
                registeredDir == Some(dir) && Now() == Scanned(e, d, batchTime, old(Now()), paths[..k], times[..k])
    {
      if registeredDir.Some? {
        return AlreadyRegistered;
      }
      registeredDir := Some(dir);
      for i := 0 to |paths|
        invariant registeredDir == Some(dir)
        invariant i <= LookedAt(e, d, paths)
        invariant Now() == Scanned(e, d, batchTime, old(Now()), paths[..i], times[..i])
      {
        assert paths[..i + 1][..i] == paths[..i] && times[..i + 1][..i] == times[..i];
        var ok := HandleNewFile(e, d, paths[i], batchTime, times[i]);
        if !ok {
          return ScanFailed;
        }
      }
      return Watching;
    }
  }

  datatype Registration = AlreadyRegistered | ScanFailed | Watching

  /** Looking for the destination of this file raises an error. */
  predicate IsRefused(e: Env, d: Disk, path: string) {
    path in d.files && d.files[path] != [] && e.shared && Name(e, path, d.files[path]) in d.refused
  }

  predicate Fails(e: Env, d: Disk, path: string) {
    d.isData(path) && IsRefused(e, d, path)
  }

  /** How many files the scan deals with before the first that fails. */
  function LookedAt(e: Env, d: Disk, paths: seq<string>): (k: nat)
    ensures k <= |paths|
    ensures forall i :: 0 <= i < k ==> !Fails(e, d, paths[i])
    ensures k < |paths| ==> Fails(e, d, paths[k])
  {
    if paths == [] || Fails(e, d, paths[0]) then 0 else 1 + LookedAt(e, d, paths[1..])
  }

  // ----- the initial scan -----

  /** The fields that handling a file may change. */
  datatype Held = Held(queue: seq<Item>, destination: map<string, Bytes>, lastFlush: int)

  predicate Enqueues(e: Env, d: Disk, h: Held, path: string) {
    path in d.files && d.files[path] != [] && !(e.shared && Name(e, path, d.files[path]) in h.destination)
  }

  function Enqueued(e: Env, d: Disk, h: Held, path: string): Held {
    if Enqueues(e, d, h, path) then h.(queue := h.queue + [Item(path, e.hash(d.files[path]), d.files[path])]) else h
  }

  function FlushedAt(e: Env, d: Disk, batchTime: int, h: Held, now: int): Held {
    if ShouldFlush(e, |h.queue|, now - h.lastFlush >= batchTime) then
      Held([], Flushed(e, d, h.destination, h.queue), now)
    else h
  }

  /** Once the batch time has passed since the last flush, or the batch size is reached, a flush leaves nothing
      queued; before that it changes nothing, nor does it ever without files. */
  lemma FlushedAtMeans(e: Env, d: Disk, batchTime: int, h: Held, now: int)
    ensures var after := FlushedAt(e, d, batchTime, h, now);
      && (now >= h.lastFlush + batchTime || |h.queue| >= e.batchSize ==> after.queue == [])
      && (now < h.lastFlush + batchTime && |h.queue| < e.batchSize ==> after == h)
      && (h.queue == [] && e.batchSize > 0 ==> after == h)
      && (after == h || after == Held([], Flushed(e, d, h.destination, h.queue), now))
  {
  }

  function Handled(e: Env, d: Disk, batchTime: int,
                   h: Held, path: string, now: int): Held {
    if d.isData(path) then FlushedAt(e, d, batchTime, Enqueued(e, d, h, path), now) else h
  }

  function Scanned(e: Env, d: Disk, batchTime: int,
                   h: Held, paths: seq<string>, times: seq<int>): Held
    requires |times| == |paths|
  {
    if paths == [] then h
    else
      var k := |paths| - 1;
      Handled(e, d, batchTime, Scanned(e, d, batchTime, h, paths[..k], times[..k]), paths[k], times[k])
  }

  /** The name is taken care of: its destination is there, or a file that can be copied is queued for it. */
  ghost predicate CaredFor(e: Env, d: Disk, h: Held, name: string) {
    name in h.destination || exists i :: QueuedFor(e, d, h, name, i)
  }

  ghost predicate QueuedFor(e: Env, d: Disk, h: Held, name: string, i: nat) {
    i < |h.queue| && NameOf(e, h.queue[i]) == name && CanCopy(d, h.queue[i].path)
  }

  lemma EnqueuedKeeps(e: Env, d: Disk, h: Held, path: string, name: string)
    requires CaredFor(e, d, h, name)
    ensures CaredFor(e, d, Enqueued(e, d, h, path), name)
  {
    if name !in h.destination {
      var i: nat :| QueuedFor(e, d, h, name, i);
      assert QueuedFor(e, d, Enqueued(e, d, h, path), name, i);
    }
  }

  lemma {:induction false} SomeFirst(e: Env, d: Disk, batch: seq<Item>, name: string, i: nat)
    requires i < |batch| && NameOf(e, batch[i]) == name && CanCopy(d, batch[i].path)
    ensures HasCopy(e, d, batch, name)
    decreases i
  {
    if j: nat :| j < i && NameOf(e, batch[j]) == name && CanCopy(d, batch[j].path) {
      SomeFirst(e, d, batch, name, j);
    } else {
      assert FirstCopy(e, d, batch, name, i);
    }
  }

  lemma FlushedAtKeeps(e: Env, d: Disk, batchTime: int, h: Held, now: int, name: string)
    requires e.shared && CaredFor(e, d, h, name)
    ensures CaredFor(e, d, FlushedAt(e, d, batchTime, h, now), name)
  {
    FlushMeans(e, d, h.destination, h.queue, name);
    if name !in h.destination {
      var i: nat :| QueuedFor(e, d, h, name, i);
      SomeFirst(e, d, h.queue, name, i);
    }
  }

  lemma HandledKeeps(e: Env, d: Disk, batchTime: int,
                     h: Held, path: string, now: int, name: string)
    requires e.shared && CaredFor(e, d, h, name)
    ensures CaredFor(e, d, Handled(e, d, batchTime, h, path, now), name)
  {
    EnqueuedKeeps(e, d, h, path, name);
    FlushedAtKeeps(e, d, batchTime, Enqueued(e, d, h, path), now, name);
  }

  /** A data file that is read, not empty and can be copied is taken care of. */
  lemma HandledCares(e: Env, d: Disk, batchTime: int,
                     h: Held, path: string, now: int)
    requires e.shared && d.isData(path) && CanCopy(d, path) && d.files[path] != []
    ensures CaredFor(e, d, Handled(e, d, batchTime, h, path, now), Name(e, path, d.files[path]))
  {
    var next, name := Enqueued(e, d, h, path), Name(e, path, d.files[path]);
    if name !in h.destination {
      assert QueuedFor(e, d, next, name, |h.queue|);
    }
    FlushedAtKeeps(e, d, batchTime, next, now, name);
  }

  lemma {:induction false} PrefixCares(e: Env, d: Disk, batchTime: int,
                                       h: Held, paths: seq<string>, times: seq<int>, path: string)
    requires e.shared && |times| == |paths| && path in paths
    requires d.isData(path) && CanCopy(d, path) && d.files[path] != []
    ensures CaredFor(e, d, Scanned(e, d, batchTime, h, paths, times), Name(e, path, d.files[path]))
    decreases |paths|
  {
    var k := |paths| - 1;
    var before := Scanned(e, d, batchTime, h, paths[..k], times[..k]);
    if paths[k] == path {
      HandledCares(e, d, batchTime, before, path, times[k]);
    } else {
      PrefixCares(e, d, batchTime, h, paths[..k], times[..k], path);
      HandledKeeps(e, d, batchTime, before, paths[k], times[k], Name(e, path, d.files[path]));
    }
  }

  /** Main result on the initial scan: every data file before the first one whose destination cannot be
      looked for, if it is not empty and can be copied, is afterwards stored under its hash name or queued
      to be. If there is no such first one, that is every file. */
  lemma ScanCares(e: Env, d: Disk, batchTime: int, h: Held, paths: seq<string>, times: seq<int>, i: nat)
    requires e.shared && |times| == |paths| && i < LookedAt(e, d, paths)
    requires d.isData(paths[i]) && CanCopy(d, paths[i]) && d.files[paths[i]] != []
    ensures var k := LookedAt(e, d, paths);
            CaredFor(e, d, Scanned(e, d, batchTime, h, paths[..k], times[..k]), Name(e, paths[i], d.files[paths[i]]))
    ensures (forall path :: path in paths ==> !Fails(e, d, path)) ==> LookedAt(e, d, paths) == |paths|
  {
    var k := LookedAt(e, d, paths);
    assert paths[..k][i] == paths[i];
    PrefixCares(e, d, batchTime, h, paths[..k], times[..k], paths[i]);
  }

  /** The scan keeps the queue shorter than the batch size and every destination as it was; nothing
      but data files that can be read and are not empty gets into the queue. */
  lemma {:induction false} ScanBounds(e: Env, d: Disk, batchTime: int,
                                      h: Held, paths: seq<string>, times: seq<int>)
    requires |times| == |paths|
    ensures var after := Scanned(e, d, batchTime, h, paths, times);
      && (|h.queue| < e.batchSize ==> |after.queue| < e.batchSize)
      && (forall n :: n in h.destination ==> n in after.destination && after.destination[n] == h.destination[n])
      && (forall item :: item in after.queue && item !in h.queue ==> FoundAs(e, d, paths, item))
    decreases |paths|
  {
    if paths != [] {
      var k := |paths| - 1;
      ScanBounds(e, d, batchTime, h, paths[..k], times[..k]);
      var before := Scanned(e, d, batchTime, h, paths[..k], times[..k]);
      FlushedKeeps(e, d, before.destination, Enqueued(e, d, before, paths[k]).queue);
      assert paths[k] in paths && forall p :: p in paths[..k] ==> p in paths;
    }
  }

  predicate FoundAs(e: Env, d: Disk, paths: seq<string>, item: Item) {
    && item.path in paths && d.isData(item.path) && item.path in d.files && d.files[item.path] != []
    && item == Item(item.path, e.hash(d.files[item.path]), d.files[item.path])
  }

  lemma {:induction false} FlushedKeeps(e: Env, d: Disk, dst: map<string, Bytes>, batch: seq<Item>)
    ensures forall n :: n in dst ==> n in Flushed(e, d, dst, batch) && Flushed(e, d, dst, batch)[n] == dst[n]
    decreases |batch|
  {
    if batch != [] {
      FlushedKeeps(e, d, FlushOne(e, d, dst, batch[0]), batch[1..]);
    }
  }

  /** What a flush does, name by name: what was there stays, a new name appears exactly when some item
      with that name can be copied, and the first such item provides its content. */
  lemma {:induction false} FlushMeans(e: Env, d: Disk, dst: map<string, Bytes>,
                                      batch: seq<Item>, name: string)
    requires e.shared
    ensures var after := Flushed(e, d, dst, batch);
      && (name in after <==> name in dst || HasCopy(e, d, batch, name))
      && (name in dst ==> after[name] == dst[name])
      && (forall k: nat :: name !in dst && FirstCopy(e, d, batch, name, k) ==>
            after[name] == d.files[batch[k].path])
      && (name in after && name !in dst ==>
            exists item :: item in batch && NameOf(e, item) == name && item.path in d.files && item.path !in d.fails)
    decreases |batch|
  {
    FlushedKeeps(e, d, dst, batch);
    if batch != [] {
      var next := FlushOne(e, d, dst, batch[0]);
      FlushMeans(e, d, next, batch[1..], name);
      FlushedKeeps(e, d, next, batch[1..]);
      if NameOf(e, batch[0]) == name && CanCopy(d, batch[0].path) {
        assert FirstCopy(e, d, batch, name, 0);
      } else {
        CopyOfRest(e, d, batch, name);
      }
    }
  }

  lemma CopyOfRest(e: Env, d: Disk, batch: seq<Item>, name: string)
    requires batch != [] && !(NameOf(e, batch[0]) == name && CanCopy(d, batch[0].path))
    ensures forall k: nat :: FirstCopy(e, d, batch, name, k) <==>
              k > 0 && FirstCopy(e, d, batch[1..], name, k - 1)
    ensures HasCopy(e, d, batch, name) <==> HasCopy(e, d, batch[1..], name)
  {
    forall k: nat
      ensures FirstCopy(e, d, batch, name, k) <==> k > 0 && FirstCopy(e, d, batch[1..], name, k - 1)
    {
      RestAt(e, d, batch, name, k);
    }
    if HasCopy(e, d, batch, name) {
      var k: nat :| FirstCopy(e, d, batch, name, k);
      assert FirstCopy(e, d, batch[1..], name, k - 1);
    }
    if HasCopy(e, d, batch[1..], name) {
      var k: nat :| FirstCopy(e, d, batch[1..], name, k);
      RestAt(e, d, batch, name, k + 1);
    }
  }

  lemma RestAt(e: Env, d: Disk, batch: seq<Item>, name: string, k: nat)
    requires batch != [] && !(NameOf(e, batch[0]) == name && CanCopy(d, batch[0].path))
    ensures FirstCopy(e, d, batch, name, k) <==> k > 0 && FirstCopy(e, d, batch[1..], name, k - 1)
  {
    if k > 0 && k < |batch| {
      assert batch[1..][k - 1] == batch[k];
      assert forall j :: 0 < j < k ==> batch[1..][j - 1] == batch[j];
      assert forall j :: 0 <= j < k - 1 ==> batch[1..][j] == batch[j + 1];
    }
  }

  /** Flushing a batch once more, with the same failures, changes nothing. */
  lemma SecondFlushIsNoOp(e: Env, d: Disk, dst: map<string, Bytes>, batch: seq<Item>)
    ensures var after := Flushed(e, d, dst, batch);
            Flushed(e, d, after, batch) == after
  {
    var after := Flushed(e, d, dst, batch);
    if e.shared {
      forall name
        ensures name in Flushed(e, d, after, batch) <==> name in after
        ensures name in after ==> Flushed(e, d, after, batch)[name] == after[name]
      {
        FlushMeans(e, d, dst, batch, name);
        FlushMeans(e, d, after, batch, name);
      }
    } else {
      NothingShared(e, d, dst, batch);
      NothingShared(e, d, after, batch);
    }
  }

  lemma {:induction false} NothingShared(e: Env, d: Disk, dst: map<string, Bytes>, batch: seq<Item>)
    requires !e.shared
    ensures Flushed(e, d, dst, batch) == dst
  {
    if batch != [] {
      NothingShared(e, d, dst, batch[1..]);
    }
  }

  // ----- how long a file may be queued -----

  /** A file is found or changed, at some time, with the files as they are then. */
  datatype Handling = Handling(path: string, d: Disk, now: int)

  function HandledAll(e: Env, batchTime: int, h: Held, hs: seq<Handling>): Held {
    if hs == [] then h
    else
      var before, last := HandledAll(e, batchTime, h, hs[..|hs| - 1]), hs[|hs| - 1];
      if Fails(e, last.d, last.path) then before else Handled(e, last.d, batchTime, before, last.path, last.now)
  }

  ghost predicate IsEmptied(e: Env, batchTime: int, h: Held, hs: seq<Handling>, k: nat) {
    k <= |hs| && HandledAll(e, batchTime, h, hs[..k]).queue == []
  }

  lemma {:induction false} EmptiedOrOld(e: Env, batchTime: int, h: Held, hs: seq<Handling>)
    ensures HandledAll(e, batchTime, h, hs).lastFlush == h.lastFlush
         || exists k: nat :: IsEmptied(e, batchTime, h, hs, k)
  {
    if hs != [] {
      var n := |hs| - 1;
      var last := hs[n];
      EmptiedOrOld(e, batchTime, h, hs[..n]);
      if k: nat :| IsEmptied(e, batchTime, h, hs[..n], k) {
        assert hs[..n][..k] == hs[..k];
        assert IsEmptied(e, batchTime, h, hs, k);
      } else {
        var before := Enqueued(e, last.d, HandledAll(e, batchTime, h, hs[..n]), last.path);
        FlushedAtMeans(e, last.d, batchTime, before, last.now);
        assert hs[..|hs|] == hs;
        assert HandledAll(e, batchTime, h, hs).queue == [] ==> IsEmptied(e, batchTime, h, hs, |hs|);
      }
    }
  }

  /** Main result on waiting: between one tick of the timer and the next, a batch time later, the queue is empty
      at some moment, whatever files are found meanwhile. So what is queued before a tick is flushed by the
      end of the next one. */
  lemma TwoTicks(e: Env, batchTime: int, h: Held, first: Disk, t1: int, hs: seq<Handling>, second: Disk, t2: int)
    requires h.lastFlush <= t1 && t2 >= t1 + batchTime
    ensures var afterFirst := FlushedAt(e, first, batchTime, h, t1);
      || FlushedAt(e, second, batchTime, HandledAll(e, batchTime, afterFirst, hs), t2).queue == []
      || exists k: nat :: IsEmptied(e, batchTime, afterFirst, hs, k)
  {
    var afterFirst := FlushedAt(e, first, batchTime, h, t1);
    FlushedAtMeans(e, first, batchTime, h, t1);
    EmptiedOrOld(e, batchTime, afterFirst, hs);
    FlushedAtMeans(e, second, batchTime, HandledAll(e, batchTime, afterFirst, hs), t2);
  }

  // ----- a flush among the steps of the threads -----

  function OnDisk(s: State, fails: set<string>): Disk {
    Disk(s.files, path => true, fails, {})
  }

  function ItemsOf(s: State, batch: seq<Id>): (items: seq<Item>)
    requires forall id :: id in batch ==> id in s.items
    ensures |items| == |batch| && forall i :: 0 <= i < |batch| ==> items[i] == s.items[batch[i]]
  {
    if batch == [] then [] else [s.items[batch[0]]] + ItemsOf(s, batch[1..])
  }

  ghost predicate IsPath(e: Env, path: seq<State>) {
    path != [] && forall i: nat :: i < |path| - 1 ==> StepAt(e, path, i)
  }

  lemma PathPrepend(e: Env, s: State, path: seq<State>)
    requires IsPath(e, path) && Next(e, s, path[0])
    ensures IsPath(e, [s] + path)
  {
    var all := [s] + path;
    forall i: nat | i < |all| - 1
      ensures StepAt(e, all, i)
    {
      if i > 0 {
        assert StepAt(e, path, i - 1);
      }
    }
  }

  /** What a flush leaves alone. */
  predicate SameRest(s: State, t: State) {
    t.files == s.files && t.items == s.items && t.queue == s.queue && t.flushLock == s.flushLock
  }

  /** The steps that settle the first item of a batch without a rest from others. */
  lemma SettleFirst(e: Env, s: State, th: nat, fails: set<string>) returns (path: seq<State>)
    requires First(s, th) && s.threads[th].Flushing?
    ensures IsPath(e, path) && path[0] == s
    ensures var t := path[|path| - 1];
      && SameRest(s, t)
      && th in t.threads && t.threads[th] == Flushing(BatchOf(s.threads[th])[1..])
      && t.dst == FlushOne(e, OnDisk(s, fails), s.dst, FirstItem(s, th))
  {
    var item := FirstItem(s, th);
    if !e.shared || NameOf(e, item) in s.dst {
      var t := Settle(s, th, Skipped);
      assert NextBy(e, s, t, ExamineStep(th));
      path := [s, t];
    } else {
      var a := Goto(s, th, Absent(s.threads[th].batch));
      assert NextBy(e, s, a, ExamineStep(th));
      path := CopyFirst(e, a, th, fails);
      PathPrepend(e, s, path);
      path := [s] + path;
    }
  }

  lemma CopyFirst(e: Env, s: State, th: nat, fails: set<string>) returns (path: seq<State>)
    requires First(s, th) && s.threads[th].Absent? && e.shared && NameOf(e, FirstItem(s, th)) !in s.dst
    ensures IsPath(e, path) && path[0] == s
    ensures var t := path[|path| - 1];
      && SameRest(s, t)
      && th in t.threads && t.threads[th] == Flushing(BatchOf(s.threads[th])[1..])
      && t.dst == FlushOne(e, OnDisk(s, fails), s.dst, FirstItem(s, th))
  {
    if CanCopy(OnDisk(s, fails), FirstItem(s, th).path) {
      path := CopySucceeds(e, s, th);
    } else {
      var t := Settle(s, th, Failed);
      assert NextBy(e, s, t, FailStep(th));
      path := [s, t];
    }
  }

  lemma CopySucceeds(e: Env, s: State, th: nat) returns (path: seq<State>)
    requires First(s, th) && s.threads[th].Absent? && FirstItem(s, th).path in s.files
    ensures IsPath(e, path) && path[0] == s
    ensures var t, item := path[|path| - 1], FirstItem(s, th);
      && SameRest(s, t)
      && th in t.threads && t.threads[th] == Flushing(BatchOf(s.threads[th])[1..])
      && t.dst == s.dst[NameOf(e, item) := s.files[item.path]]
  {
    var item := FirstItem(s, th);
    var a := Goto(s, th, Reading(s.threads[th].batch, s.files[item.path]));
    assert NextBy(e, s, a, OpenStep(th));
    var t := Settle(a, th, Copied).(dst := a.dst[NameOf(e, item) := s.files[item.path]],
                                    source := a.source[NameOf(e, item) := item.path],
                                    written := a.written + [NameOf(e, item)]);
    assert NextBy(e, a, t, FinishStep(th));
    path := [s, a, t];
  }

  lemma PathJoin(e: Env, p: seq<State>, q: seq<State>)
    requires IsPath(e, p) && IsPath(e, q) && p[|p| - 1] == q[0]
    ensures IsPath(e, p + q[1..])
    ensures (p + q[1..])[0] == p[0] && (p + q[1..])[|p| + |q| - 2] == q[|q| - 1]
  {
    var all := p + q[1..];
    forall i: nat | i < |all| - 1
      ensures StepAt(e, all, i)
    {
      if i < |p| - 1 {
        assert StepAt(e, p, i);
      } else {
        assert StepAt(e, q, i - (|p| - 1));
        assert all[i] == q[i - (|p| - 1)] && all[i + 1] == q[i + 1 - (|p| - 1)];
      }
    }
  }

  /** This path treats these items, and then the batch of the thread is empty. */
  ghost predicate FlushPath(e: Env, s: State, th: nat, fails: set<string>, items: seq<Item>, path: seq<State>) {
    && IsPath(e, path) && path[0] == s
    && var t := path[|path| - 1];
    && th in t.threads && t.threads[th] == Flushing([]) && SameRest(s, t)
    && t.dst == Flushed(e, OnDisk(s, fails), s.dst, items)
  }

  lemma FlushJoin(e: Env, s: State, th: nat, fails: set<string>, items: seq<Item>, p: seq<State>, q: seq<State>)
    requires items != [] && IsPath(e, p) && p[0] == s && SameRest(s, p[|p| - 1])
    requires p[|p| - 1].dst == FlushOne(e, OnDisk(s, fails), s.dst, items[0])
    requires FlushPath(e, p[|p| - 1], th, fails, items[1..], q)
    ensures FlushPath(e, s, th, fails, items, p + q[1..])
  {
    PathJoin(e, p, q);
  }

  /** The loop of Flush is a path of the state machine: undisturbed by other threads, a thread that
      holds the lock goes through its whole batch to just these destinations. */
  lemma {:induction false} FlushIsPath(e: Env, s: State, th: nat, fails: set<string>) returns (path: seq<State>)
    requires th in s.threads && s.threads[th].Flushing? && forall id :: id in s.threads[th].batch ==> id in s.items
    ensures FlushPath(e, s, th, fails, ItemsOf(s, s.threads[th].batch), path)
    decreases |BatchOf(s.threads[th])|
  {
    var batch := s.threads[th].batch;
    if batch == [] {
      path := [s];
    } else {
      var first := SettleFirst(e, s, th, fails);
      var mid := first[|first| - 1];
      var rest := FlushIsPath(e, mid, th, fails);
      SameItems(s, mid, batch);
      FlushJoin(e, s, th, fails, ItemsOf(s, batch), first, rest);
      path := first + rest[1..];
    }
  }

  lemma SameItems(s: State, t: State, batch: seq<Id>)
    requires batch != [] && s.items == t.items && forall id :: id in batch ==> id in s.items
    ensures ItemsOf(s, batch)[0] == s.items[batch[0]] && ItemsOf(s, batch)[1..] == ItemsOf(t, batch[1..])
  {
  }
}
