/** From a quiet submitter to the consumer: what one whole pass of the exchange process and one
    completed fetch deliver, whatever the other processes do meanwhile, and that such a pass and
    such a fetch are always possible. */
module Delivery {
  import opened Outcomes
  import opened Exchange
  import opened EndToEnd
  import F = Fetching
  import X = ExchangeRuns
  import Q = SubmitQueue

  // ----- one directory of a consumer -----

  /** The files of one data type. */
  function Dir(dst: map<Key, Bytes>, kind: string): map<string, Bytes> {
    map key | key in dst && key.kind == kind :: key.name := dst[key]
  }

  function WithDir(dst: map<Key, Bytes>, kind: string, files: map<string, Bytes>): map<Key, Bytes> {
    dst + map n | n in files :: Key(kind, n) := files[n]
  }

  lemma DirMeans(dst: map<Key, Bytes>, kind: string, n: string)
    ensures n in Dir(dst, kind) <==> Key(kind, n) in dst
    ensures n in Dir(dst, kind) ==> Dir(dst, kind)[n] == dst[Key(kind, n)]
  {
    if n in Dir(dst, kind) {
      var key :| key in dst && key.kind == kind && key.name == n;
      assert key == Key(kind, n);
    }
    if Key(kind, n) in dst {
      assert Key(kind, n).name in Dir(dst, kind);
    }
  }

  lemma SameDir(dst: map<Key, Bytes>, kind: string)
    ensures WithDir(dst, kind, Dir(dst, kind)) == dst
  {
    forall key | key in WithDir(dst, kind, Dir(dst, kind))
      ensures key in dst && WithDir(dst, kind, Dir(dst, kind))[key] == dst[key]
    {
      DirMeans(dst, kind, key.name);
    }
  }

  lemma OneMore(dst: map<Key, Bytes>, kind: string, files: map<string, Bytes>, n: string, content: Bytes)
    ensures WithDir(dst, kind, files[n := content]) == WithDir(dst, kind, files)[Key(kind, n) := content]
  {
  }

  // ----- the sequential fetch is a behaviour of the consumer -----

  function With(s: X.State, f: nat, g: X.Fetcher): X.State {
    s.(fetchers := s.fetchers[f := g])
  }

  lemma WithTwice(s: X.State, f: nat, g: X.Fetcher, h: X.Fetcher)
    ensures With(With(s, f, g), f, h) == With(s, f, h)
  {
    assert s.fetchers[f := g][f := h] == s.fetchers[f := h];
  }

  lemma WithItself(s: X.State, f: nat)
    requires f in s.fetchers
    ensures With(s, f, s.fetchers[f]) == s
  {
    assert s.fetchers[f := s.fetchers[f]] == s.fetchers;
  }

  /** What a consumer has after a fetch that gets these names across. */
  function DirAfter(dst: map<Key, Bytes>, kind: string, listing: seq<FileEntry>,
                    arrived: set<string>): map<Key, Bytes> {
    WithDir(dst, kind, F.Fetched(listing, Dir(dst, kind), arrived))
  }

  function AfterFetch(s: X.State, f: nat, kind: string, listing: seq<FileEntry>, arrived: set<string>): X.State
    requires f in s.fetchers
  {
    With(s, f, X.Fetcher(DirAfter(s.fetchers[f].dst, kind, listing, arrived), X.NoTransfer))
  }

  ghost predicate InExchange(exchange: map<Key, Bytes>, kind: string, entry: FileEntry) {
    Key(kind, entry.name) in exchange && entry.node == RegularFile(exchange[Key(kind, entry.name)])
  }

  /** Everything that is listed is in the exchange directory of this data type. */
  ghost predicate ListsOnly(exchange: map<Key, Bytes>, kind: string, listing: seq<FileEntry>) {
    forall i :: 0 <= i < |listing| && IsDataFile(listing[i]) ==> InExchange(exchange, kind, listing[i])
  }

  /** Fetching one file is a path of the state machine. */
  lemma FetchOne(s0: X.State, s: X.State, f: nat, key: Key)
    requires X.Reaches(s0, s) && f in s.fetchers && s.fetchers[f].transfer == X.NoTransfer
    requires key in s.exchange && X.IsPublic(key) && key !in s.fetchers[f].dst
    ensures X.Reaches(s0, With(s, f, X.Fetcher(s.fetchers[f].dst[key := s.exchange[key]], X.NoTransfer)))
  {
    var content, dst := s.exchange[key], s.fetchers[f].dst;
    var listed := X.Fetcher(dst, X.Listed(key));
    var begun := X.Fetcher(dst, X.Receiving(key, content, []));
    var whole := X.Fetcher(dst, X.Receiving(key, content, content));
    var done := X.Fetcher(dst[key := content], X.NoTransfer);
    X.ReachesBy(s0, s, With(s, f, listed), X.ListStep(f, key));
    WithTwice(s, f, listed, begun);
    X.ReachesBy(s0, With(s, f, listed), With(s, f, begun), X.ReceiveStep(f));
    WithTwice(s, f, begun, whole);
    X.ReachesBy(s0, With(s, f, begun), With(s, f, whole), X.ReceiveMoreStep(f, content));
    WithTwice(s, f, whole, done);
    X.ReachesBy(s0, With(s, f, whole), With(s, f, done), X.ReceivedStep(f));
  }

  /** The last entry of the listing is fetched. */
  ghost predicate TakesLast(dst: map<Key, Bytes>, kind: string, listing: seq<FileEntry>, arrived: set<string>)
    requires listing != []
  {
    var last := listing[|listing| - 1];
    IsDataFile(last) && last.name !in Dir(dst, kind) && last.name in arrived
  }

  lemma LastTaken(dst: map<Key, Bytes>, kind: string, listing: seq<FileEntry>, arrived: set<string>)
    requires listing != [] && F.IsDirectory(listing) && TakesLast(dst, kind, listing, arrived)
    ensures var last, before := listing[|listing| - 1], DirAfter(dst, kind, listing[..|listing| - 1], arrived);
      && Key(kind, last.name) !in before
      && DirAfter(dst, kind, listing, arrived) == before[Key(kind, last.name) := last.node.content]
  {
    var front, last := listing[..|listing| - 1], listing[|listing| - 1];
    DirMeans(dst, kind, last.name);
    F.FetchMeans(front, Dir(dst, kind), arrived);
    assert !F.Lists(front, last.name);
    OneMore(dst, kind, F.Fetched(front, Dir(dst, kind), arrived), last.name, last.node.content);
  }

  lemma LastLeft(dst: map<Key, Bytes>, kind: string, listing: seq<FileEntry>, arrived: set<string>)
    requires listing != [] && !TakesLast(dst, kind, listing, arrived)
    ensures DirAfter(dst, kind, listing, arrived) == DirAfter(dst, kind, listing[..|listing| - 1], arrived)
  {
  }

  lemma FetchLast(s: X.State, f: nat, kind: string, listing: seq<FileEntry>, arrived: set<string>)
    requires f in s.fetchers && kind in ALLOWED_DATA_TYPES
    requires listing != [] && F.IsDirectory(listing) && TakesLast(s.fetchers[f].dst, kind, listing, arrived)
    requires InExchange(s.exchange, kind, listing[|listing| - 1])
    requires X.Reaches(s, AfterFetch(s, f, kind, listing[..|listing| - 1], arrived))
    ensures X.Reaches(s, AfterFetch(s, f, kind, listing, arrived))
  {
    var dst, front, last := s.fetchers[f].dst, listing[..|listing| - 1], listing[|listing| - 1];
    LastTaken(dst, kind, listing, arrived);
    FetchOne(s, AfterFetch(s, f, kind, front, arrived), f, Key(kind, last.name));
    WithTwice(s, f, X.Fetcher(DirAfter(dst, kind, front, arrived), X.NoTransfer),
              X.Fetcher(DirAfter(dst, kind, listing, arrived), X.NoTransfer));
  }

  lemma NothingFetched(s: X.State, f: nat, kind: string, arrived: set<string>)
    requires f in s.fetchers && s.fetchers[f].transfer == X.NoTransfer
    ensures AfterFetch(s, f, kind, [], arrived) == s
  {
    SameDir(s.fetchers[f].dst, kind);
    assert s.fetchers[f] == X.Fetcher(s.fetchers[f].dst, X.NoTransfer);
    WithItself(s, f);
  }

  /** An undisturbed fetch is a path of the state machine, ending in the directory that FetchNew
      computes: the sequential fetch and the interleaved one agree. */
  lemma {:induction false} FetchIsPath(s: X.State, f: nat, kind: string, listing: seq<FileEntry>, arrived: set<string>)
    requires f in s.fetchers && s.fetchers[f].transfer == X.NoTransfer && kind in ALLOWED_DATA_TYPES
    requires F.IsDirectory(listing) && ListsOnly(s.exchange, kind, listing)
    ensures X.Reaches(s, AfterFetch(s, f, kind, listing, arrived))
  {
    if listing == [] {
      X.ReachesSelf(s);
      NothingFetched(s, f, kind, arrived);
    } else {
      FetchIsPath(s, f, kind, listing[..|listing| - 1], arrived);
      if TakesLast(s.fetchers[f].dst, kind, listing, arrived) {
        FetchLast(s, f, kind, listing, arrived);
      } else {
        LastLeft(s.fetchers[f].dst, kind, listing, arrived);
      }
    }
  }

  // ----- a whole pass and a whole fetch -----

  ghost predicate ListedAt(tree: seq<CrsEntry>, c: nat, t: nat, i: nat, slot: X.Slot, content: Bytes) {
    && c < |tree| && tree[c].isDir && tree[c].name == slot.crs
    && t < |tree[c].types| && tree[c].types[t].isDir && tree[c].types[t].name == slot.key.kind
    && i < |tree[c].types[t].files|
    && tree[c].types[t].files[i] == FileEntry(slot.key.name, RegularFile(content))
  }

  ghost predicate IsListed(tree: seq<CrsEntry>, slot: X.Slot, content: Bytes) {
    exists c: nat, t: nat, i: nat :: ListedAt(tree, c, t, i, slot, content)
  }

  /** The tree lists all visible files of the submit directories. */
  ghost predicate ListsSubmit(tree: seq<CrsEntry>, submit: map<X.Slot, Bytes>) {
    forall slot :: slot in submit && !IsHidden(slot.key.name) ==> IsListed(tree, slot, submit[slot])
  }

  /** Between s and t there was a pass over the submit directories as they were at s, without errors:
      whatever it publishes is in the exchange. */
  ghost predicate WholePass(s: X.State, t: X.State, tree: seq<CrsEntry>) {
    && ListsSubmit(tree, s.submit)
    && forall key :: key in Publish(s.exchange, Candidates(tree, {})) && X.IsPublic(key) ==> key in t.exchange
  }

  /** A call of SyncOnce that ends without an error and whose copies all succeed is such a pass. */
  lemma EndedPassIsWhole(a: Sidecar, b: Sidecar, tree: seq<CrsEntry>, broken: Broken, s: X.State, t: X.State)
    requires PassEnds(Some(tree), a.created, broken) && TreeDone(a, b, Seen(Some(tree), a.created, broken), {})
    requires s.exchange == a.exchange && t.exchange == b.exchange && ListsSubmit(tree, s.submit)
    ensures WholePass(s, t, tree)
  {
    WholeTreeSeen(tree, a.created, broken);
  }

  ghost predicate ListsExchange(listing: seq<FileEntry>, exchange: map<Key, Bytes>, kind: string) {
    forall key :: key in exchange && key.kind == kind && !IsHidden(key.name) ==> F.Lists(listing, key.name)
  }

  /** The consumer has everything that the fetch leaves in its directory. */
  ghost predicate HasFetched(dst: map<Key, Bytes>, kind: string, fetched: map<string, Bytes>) {
    forall n :: n in fetched ==> Key(kind, n) in dst && dst[Key(kind, n)] == fetched[n]
  }

  /** Between s and t the consumer fetched one data type, from the directory as it was at s, and the
      call completed. */
  ghost predicate WholeFetch(s: X.State, t: X.State, f: nat, kind: string, listing: seq<FileEntry>,
                             transfer: F.Transfer) {
    && F.IsDirectory(listing) && ListsExchange(listing, s.exchange, kind)
    && f in s.fetchers && f in t.fetchers
    && var dst := Dir(s.fetchers[f].dst, kind);
    && F.Completes(listing, dst, transfer)
    && HasFetched(t.fetchers[f].dst, kind, F.Fetched(listing, dst, transfer.arrived))
  }

  // ----- names -----

  predicate IsHexDigit(c: char) {
    '0' <= c <= '9' || 'a' <= c <= 'f'
  }

  /** Hashes are not empty and are written with hexadecimal digits; suffixes have no slash. */
  ghost predicate HexNames(e: Q.Env) {
    && (forall b :: e.hash(b) != [] && forall c :: c in e.hash(b) ==> IsHexDigit(c))
    && forall path :: '/' !in e.suffix(path)
  }

  lemma PlainName(hash: string, suffix: string)
    requires hash != "" && (forall c :: c in hash ==> IsHexDigit(c)) && '/' !in suffix
    ensures IsSafeName(hash + suffix) && !IsHidden(hash + suffix)
  {
    var name := hash + suffix;
    assert name[0] == hash[0] && IsHexDigit(hash[0]);
    forall i | 0 <= i < |name|
      ensures name[i] != '/'
    {
      if i < |hash| {
        assert name[i] == hash[i] && hash[i] in hash;
      } else {
        assert name[i] == suffix[i - |hash|] && suffix[i - |hash|] in suffix;
      }
    }
  }

  /** Where a consumer looks for an item. */
  function KeyOf(e: Q.Env, who: Submitter, item: Q.Item): Key {
    Key(who.kind, Q.NameOf(e, item))
  }

  /** The item belongs to a submitter that is quiet, and its copy did not fail. */
  ghost predicate IsSettled(env: Envs, s: System, who: Submitter, id: Q.Id) {
    && who in s.q && id in s.q[who].items && env(who).shared
    && Q.Quiet(s.q[who]) && !(id in s.q[who].outcome && s.q[who].outcome[id] == Q.Failed)
  }

  // ----- delivery -----

  lemma {:induction false} KeptForGood(env: Envs, run: seq<System>, i: nat, j: nat)
    requires IsRun(env, run) && i <= j < |run|
    ensures X.Stable(run[i].x, run[j].x)
    decreases j
  {
    if i < j {
      KeptForGood(env, run, i, j - 1);
      NextStable(env, run, j - 1);
      X.StableTransitive(run[i].x, run[j - 1].x, run[j].x);
    } else {
      X.StableSelf(run[i].x);
    }
  }

  lemma NextStable(env: Envs, run: seq<System>, i: nat)
    requires IsRun(env, run) && i < |run| - 1
    ensures X.Stable(run[i].x, run[i + 1].x)
  {
    RunInv(env, run, i);
    assert StepAt(env, run, i);
    StepStable(env, run[0], run[i], run[i + 1]);
  }

  lemma StepStable(env: Envs, s0: System, s: System, t: System)
    requires Inv(env, s0, s) && Next(env, s, t)
    ensures X.Stable(s.x, t.x)
  {
    var step :| NextBy(env, s, t, step);
    if step.ExchangeStep? {
      assert X.NextBy(s.x, t.x, step.xs);
      X.StepKeeps(s0.x, s.x, t.x);
    } else if IsPlacing(step.qs) {
      var n :| Places(env(step.who), s.q[step.who], step.qs, n) && Published(s, t, step.who, n);
      var slot := X.Slot(step.who.crs, Key(step.who.kind, n));
      assert X.NextBy(s.x, t.x, X.SubmitStep(slot, t.q[step.who].dst[n]));
      X.StepKeeps(s0.x, s.x, t.x);
    } else {
      X.StableSelf(s.x);
    }
  }

  /** A settled item is in the submit directory, under a plain name. */
  lemma SettledIsSubmitted(env: Envs, s0: System, s: System, who: Submitter, id: Q.Id)
    requires Inv(env, s0, s) && IsSettled(env, s, who, id) && HexNames(env(who))
    ensures var key := KeyOf(env(who), who, s.q[who].items[id]);
            IsSafeName(key.name) && !IsHidden(key.name) && X.Slot(who.crs, key) in s.x.submit
  {
    var u, e := s.q[who], env(who);
    Q.QuietSettles(e, u, id);
    var item := u.items[id];
    PlainName(item.contentHash, e.suffix(item.path));
    assert InPlace(s, who, Q.NameOf(e, item));
  }

  /** A listed file is in the exchange after the pass. */
  lemma PassPublishes(s: X.State, t: X.State, tree: seq<CrsEntry>, slot: X.Slot)
    requires WholePass(s, t, tree) && slot in s.submit
    requires slot.key.kind in ALLOWED_DATA_TYPES && IsSafeName(slot.key.name) && !IsHidden(slot.key.name)
    ensures slot.key in t.exchange
  {
    assert IsListed(tree, slot, s.submit[slot]);
    var c: nat, k: nat, i: nat :| ListedAt(tree, c, k, i, slot, s.submit[slot]);
    assert OfferedAt(tree, c, k, i, slot.key, {});
    SyncNames(s.exchange, tree, {}, slot.key);
  }

  /** A visible file is with the consumer after the fetch. */
  lemma FetchBrings(s: X.State, t: X.State, f: nat, listing: seq<FileEntry>, transfer: F.Transfer, key: Key)
    requires WholeFetch(s, t, f, key.kind, listing, transfer)
    requires key in s.exchange && !IsHidden(key.name)
    ensures key in t.fetchers[f].dst
  {
    var dst := Dir(s.fetchers[f].dst, key.kind);
    F.NewNamesMean(listing, dst);
    F.FetchMeans(listing, dst, transfer.arrived);
    assert key == Key(key.kind, key.name);
  }

  /** Main result on delivery, in every interleaving: once a submitter is quiet, one whole pass of the
      exchange process and then one completed fetch leave every item whose copy did not fail with the
      consumer, for good. */
  lemma Delivered(env: Envs, run: seq<System>, i: nat, who: Submitter, id: Q.Id,
                  j: nat, tree: seq<CrsEntry>,
                  k: nat, m: nat, f: nat, listing: seq<FileEntry>, transfer: F.Transfer, last: nat)
    requires IsRun(env, run) && i <= j <= k <= m <= last < |run|
    requires IsSettled(env, run[i], who, id) && HexNames(env(who)) && who.kind in ALLOWED_DATA_TYPES
    requires WholePass(run[i].x, run[j].x, tree)
    requires WholeFetch(run[k].x, run[m].x, f, who.kind, listing, transfer)
    ensures f in run[last].x.fetchers
    ensures KeyOf(env(who), who, run[i].q[who].items[id]) in run[last].x.fetchers[f].dst
  {
    var key := KeyOf(env(who), who, run[i].q[who].items[id]);
    RunInv(env, run, i);
    SettledIsSubmitted(env, run[0], run[i], who, id);
    PassPublishes(run[i].x, run[j].x, tree, X.Slot(who.crs, key));
    KeptForGood(env, run, j, k);
    FetchBrings(run[k].x, run[m].x, f, listing, transfer, key);
    KeptForGood(env, run, m, last);
    assert X.KeepsFiles(run[m].x.fetchers[f], run[last].x.fetchers[f]);
  }

  // ----- what is delivered -----

  /** Nothing was submitted, exchanged or fetched before. */
  ghost predicate StartsEmpty(s: System) {
    s.x.exchange == map[] && s.x.submitted == {} && forall f :: f in s.x.fetchers ==> s.x.fetchers[f].dst == map[]
  }

  /** All submitters hash alike, to texts of one length. */
  ghost predicate HashAlike(env: Envs, hash: Bytes -> string) {
    && (forall who, b :: env(who).hash(b) == hash(b))
    && forall a, b :: |hash(a)| == |hash(b)|
  }

  ghost predicate FromStable(env: Envs, s: System) {
    forall o :: o in s.origins ==> o.path in env(o.who).stable
  }

  lemma HashOfName(e: Q.Env, o: Q.Env, item: Q.Item, path: string, content: Bytes)
    requires item.contentHash == e.hash(item.hashed) && Q.NameOf(e, item) == Q.Name(o, path, content)
    requires |e.hash(item.hashed)| == |o.hash(content)|
    ensures o.hash(content) == item.contentHash
  {
    Q.SameLengthPrefix(item.contentHash, o.hash(content), e.suffix(item.path), o.suffix(path));
  }

  /** If nothing was there before and the files copied from are stable, the file under an item's name
      has the hash that was taken when the item was enqueued. */
  lemma DeliveredContent(env: Envs, run: seq<System>, i: nat, who: Submitter, id: Q.Id, f: nat,
                         hash: Bytes -> string)
    requires IsRun(env, run) && i < |run| && StartsEmpty(run[0]) && FromStable(env, run[i]) && HashAlike(env, hash)
    requires who in run[i].q && id in run[i].q[who].items && f in run[i].x.fetchers
    requires KeyOf(env(who), who, run[i].q[who].items[id]) in run[i].x.fetchers[f].dst
    ensures var item := run[i].q[who].items[id];
            hash(run[i].x.fetchers[f].dst[KeyOf(env(who), who, item)]) == hash(item.hashed) == item.contentHash
  {
    RunInv(env, run, i);
    var item := run[i].q[who].items[id];
    var key := KeyOf(env(who), who, item);
    var content := run[i].x.fetchers[f].dst[key];
    FetchedIsAccountedFor(env, run, i, f, key);
    assert Q.Inv(env(who), run[i].q[who]);
    assert IsAccountedFor(env, run, i, key, content);
    var o :| o in run[i].origins && o.key == key && o.content == content && OriginOk(env, o);
    assert env(who).hash(item.hashed) == hash(item.hashed) && env(o.who).hash(content) == hash(content);
    HashOfName(env(who), env(o.who), item, o.path, content);
  }

  // ----- such a pass and such a fetch are always possible -----

  /** Steps of the exchange process and the consumers are steps of the whole system. */
  lemma WorkIsStep(env: Envs, s: System, p: X.State, q: X.State)
    requires X.Works(p, q)
    ensures Next(env, s.(x := p), s.(x := q))
  {
    var step :| X.IsWork(step) && X.NextBy(p, q, step);
    assert NextBy(env, s.(x := p), s.(x := q), ExchangeStep(step));
  }

  /** So a run can go on with them, while the submitters do nothing. */
  lemma RunGoesOn(env: Envs, run: seq<System>, path: seq<X.State>, t: X.State)
    returns (longer: seq<System>)
    requires IsRun(env, run) && X.IsPath(path, run[|run| - 1].x, t)
    ensures IsRun(env, longer) && run <= longer && longer[|longer| - 1] == run[|run| - 1].(x := t)
  {
    var s := run[|run| - 1];
    longer := run;
    for i := 1 to |path|
      invariant IsRun(env, longer) && run <= longer
      invariant longer[|longer| - 1] == s.(x := path[i - 1])
    {
      assert X.WorkAt(path, i - 1);
      WorkIsStep(env, s, path[i - 1], path[i]);
      RunSnoc(env, longer, s.(x := path[i]));
      longer := longer + [s.(x := path[i])];
    }
  }

  lemma RunSnoc(env: Envs, run: seq<System>, t: System)
    requires IsRun(env, run) && Next(env, run[|run| - 1], t)
    ensures IsRun(env, run + [t])
  {
    var longer := run + [t];
    forall i: nat | i < |longer| - 1
      ensures StepAt(env, longer, i)
    {
      if i < |run| - 1 {
        assert StepAt(env, run, i);
      }
    }
  }

  lemma GoOn(env: Envs, run: seq<System>, t: X.State) returns (longer: seq<System>)
    requires IsRun(env, run) && X.Reaches(run[|run| - 1].x, t)
    ensures IsRun(env, longer) && run <= longer && longer[|longer| - 1] == run[|run| - 1].(x := t)
  {
    var path :| X.IsPath(path, run[|run| - 1].x, t);
    longer := RunGoesOn(env, run, path, t);
  }

  lemma AfterWholeFetch(s: X.State, f: nat, kind: string, listing: seq<FileEntry>, transfer: F.Transfer)
    requires f in s.fetchers && F.IsDirectory(listing) && ListsExchange(listing, s.exchange, kind)
    requires F.Completes(listing, Dir(s.fetchers[f].dst, kind), transfer)
    ensures WholeFetch(s, AfterFetch(s, f, kind, listing, transfer.arrived), f, kind, listing, transfer)
  {
  }

  /** Whenever the exchange process and the consumer are between two calls, the run can go on with a
      whole pass and then a whole fetch. */
  lemma CanDeliver(env: Envs, run: seq<System>, tree: seq<CrsEntry>, tmp: string,
                   f: nat, kind: string, listing: seq<FileEntry>, transfer: F.Transfer)
    returns (longer: seq<System>, j: nat)
    requires IsRun(env, run) && kind in ALLOWED_DATA_TYPES
    requires var x := run[|run| - 1].x;
      && x.copy == X.Idle && f in x.fetchers && x.fetchers[f].transfer == X.NoTransfer
      && ListsSubmit(tree, x.submit) && X.ListsOnlySubmit(tree, x.submit)
      && X.FreshTemp(x, Candidates(tree, {}), tmp)
      && var passed := x.(exchange := Publish(x.exchange, Candidates(tree, {})));
      && F.IsDirectory(listing) && ListsExchange(listing, passed.exchange, kind)
      && ListsOnly(passed.exchange, kind, listing)
      && F.Completes(listing, Dir(x.fetchers[f].dst, kind), transfer)
    ensures IsRun(env, longer) && run <= longer && |run| - 1 <= j < |longer|
    ensures longer[|longer| - 1].q == run[|run| - 1].q
    ensures WholePass(run[|run| - 1].x, longer[j].x, tree)
    ensures WholeFetch(longer[j].x, longer[|longer| - 1].x, f, kind, listing, transfer)
  {
    var x := run[|run| - 1].x;
    var passed := x.(exchange := Publish(x.exchange, Candidates(tree, {})));
    X.PassIsPath(x, tree, {}, tmp);
    var middle := GoOn(env, run, passed);
    FetchIsPath(passed, f, kind, listing, transfer.arrived);
    AfterWholeFetch(passed, f, kind, listing, transfer);
    longer := GoOn(env, middle, AfterFetch(passed, f, kind, listing, transfer.arrived));
    j := |middle| - 1;
  }
}
