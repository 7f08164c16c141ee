/** Submitters, the exchange process and fetchers running at the same time. They share nothing but
    directories, and any of them may be between any two of its steps. */
module ExchangeRuns {
  import opened Exchange
  import opened ExchangeContent

  /** A file of a submit directory. */
  datatype Slot = Slot(crs: string, key: Key)

  /** Where the exchange process is in the treatment of one file. */
  datatype Copy =
    | Idle
    | Wanted(slot: Slot)                                   // the destination was seen not to exist
    | Opened(slot: Slot, content: Bytes)                   // the file is open: its content is fixed
    | Copying(slot: Slot, content: Bytes, tmp: string)     // the hidden temporary file exists

  /** One consumer: its directory, and the file it is transferring, if any. */
  datatype Fetcher = Fetcher(dst: map<Key, Bytes>, transfer: Transfer)

  datatype Transfer =
    | NoTransfer
    | Listed(key: Key)                        // seen in the exchange, missing in the destination
    | Receiving(key: Key, content: Bytes, part: Bytes)  // part is what the hidden temporary file holds

  datatype State = State(
    submit: map<Slot, Bytes>,
    submitted: set<(Key, Bytes)>,             // every file ever submitted under a visible name
    exchange: map<Key, Bytes>,
    copy: Copy,
    fetchers: map<nat, Fetcher>)

  /** What consumers can see: visible files of the data types. */
  predicate IsPublic(key: Key) {
    key.kind in ALLOWED_DATA_TYPES && !IsHidden(key.name)
  }

  // ----- the steps -----

  /** A submitter renames a complete file into place. A file already open elsewhere keeps its content. */
  ghost predicate Submit(s: State, t: State, slot: Slot, content: Bytes) {
    && !IsHidden(slot.key.name)
    && t == s.(submit := s.submit[slot := content], submitted := s.submitted + {(slot.key, content)})
  }

  /** Hidden files of a submit directory (temporary files of the submitter) change in any way. */
  ghost predicate Scribble(s: State, t: State, slot: Slot, content: Bytes) {
    IsHidden(slot.key.name) && t == s.(submit := s.submit[slot := content])
  }

  ghost predicate Withdraw(s: State, t: State, slot: Slot) {
    t == s.(submit := s.submit - {slot})
  }

  /** The exchange process comes to a file whose name the exchange does not have. */
  ghost predicate Want(s: State, t: State, slot: Slot) {
    && s.copy == Idle && slot in s.submit
    && slot.key.kind in ALLOWED_DATA_TYPES && IsSafeName(slot.key.name) && slot.key !in s.exchange
    && t == s.(copy := Wanted(slot))
  }

  /** Opening gives a handle on the content the name has at that moment. */
  ghost predicate Open(s: State, t: State) {
    && s.copy.Wanted? && s.copy.slot in s.submit
    && t == s.(copy := Opened(s.copy.slot, s.submit[s.copy.slot]))
  }

  /** mkstemp: a new file in the destination directory, whose name starts with a dot. */
  ghost predicate MakeTemp(s: State, t: State, tmp: string) {
    && s.copy.Opened?
    && "." <= tmp && Key(s.copy.slot.key.kind, tmp) !in s.exchange
    && t == s.(exchange := s.exchange[Key(s.copy.slot.key.kind, tmp) := []],
               copy := Copying(s.copy.slot, s.copy.content, tmp))
  }

  function TempKey(c: Copy): Key
    requires c.Copying?
  {
    Key(c.slot.key.kind, c.tmp)
  }

  /** Some more bytes reach the temporary file. Of a hidden source, they may be any bytes. */
  ghost predicate Chunk(s: State, t: State, part: Bytes) {
    && s.copy.Copying? && TempKey(s.copy) in s.exchange
    && s.exchange[TempKey(s.copy)] <= part
    && (!IsHidden(s.copy.slot.key.name) ==> part <= s.copy.content)
    && t == s.(exchange := s.exchange[TempKey(s.copy) := part])
  }

  /** At the end of the source file, the temporary file is renamed over the destination. */
  ghost predicate Rename(s: State, t: State) {
    && s.copy.Copying? && TempKey(s.copy) in s.exchange
    && (!IsHidden(s.copy.slot.key.name) ==> s.exchange[TempKey(s.copy)] == s.copy.content)
    && t == s.(exchange := (s.exchange - {TempKey(s.copy)})[s.copy.slot.key := s.exchange[TempKey(s.copy)]],
               copy := Idle)
  }

  /** An I/O error, or the end of the process: the temporary file may or may not be removed. */
  ghost predicate Abandon(s: State, t: State, removed: bool) {
    t == s.(copy := Idle,
            exchange := if removed && s.copy.Copying? then s.exchange - {TempKey(s.copy)} else s.exchange)
  }

  /** Another process writes outside the directories of the data types, as the lifecycle sidecar does
      with its signal file. */
  ghost predicate Elsewhere(s: State, t: State, key: Key, content: Bytes) {
    key.kind !in ALLOWED_DATA_TYPES && t == s.(exchange := s.exchange[key := content])
  }

  /** A consumer sees a visible name that it lacks. */
  ghost predicate List(s: State, t: State, f: nat, key: Key) {
    && f in s.fetchers && s.fetchers[f].transfer == NoTransfer
    && key in s.exchange && IsPublic(key) && key !in s.fetchers[f].dst
    && t == s.(fetchers := s.fetchers[f := s.fetchers[f].(transfer := Listed(key))])
  }

  ghost predicate Receive(s: State, t: State, f: nat) {
    && f in s.fetchers && s.fetchers[f].transfer.Listed?
    && var key := s.fetchers[f].transfer.key;
    && key in s.exchange
    && t == s.(fetchers := s.fetchers[f := s.fetchers[f].(transfer := Receiving(key, s.exchange[key], []))])
  }

  ghost predicate ReceiveMore(s: State, t: State, f: nat, part: Bytes) {
    && f in s.fetchers && s.fetchers[f].transfer.Receiving?
    && var r := s.fetchers[f].transfer;
    && r.part <= part <= r.content
    && t == s.(fetchers := s.fetchers[f := s.fetchers[f].(transfer := Receiving(r.key, r.content, part))])
  }

  ghost predicate Received(s: State, t: State, f: nat) {
    && f in s.fetchers && s.fetchers[f].transfer.Receiving?
    && var r := s.fetchers[f].transfer;
    && r.part == r.content
    && t == s.(fetchers := s.fetchers[f := Fetcher(s.fetchers[f].dst[r.key := r.part], NoTransfer)])
  }

  ghost predicate GiveUp(s: State, t: State, f: nat) {
    && f in s.fetchers
    && t == s.(fetchers := s.fetchers[f := s.fetchers[f].(transfer := NoTransfer)])
  }

  datatype Step =
    | SubmitStep(slot: Slot, content: Bytes) | ScribbleStep(slot: Slot, content: Bytes) | WithdrawStep(slot: Slot)
    | WantStep(slot: Slot) | OpenStep | MakeTempStep(tmp: string) | ChunkStep(part: Bytes) | RenameStep
    | AbandonStep(removed: bool) | ElsewhereStep(key: Key, content: Bytes)
    | ListStep(f: nat, key: Key) | ReceiveStep(f: nat) | ReceiveMoreStep(f: nat, part: Bytes)
    | ReceivedStep(f: nat) | GiveUpStep(f: nat)

  ghost predicate NextBy(s: State, t: State, step: Step) {
    match step
    case SubmitStep(slot, content) => Submit(s, t, slot, content)
    case ScribbleStep(slot, content) => Scribble(s, t, slot, content)
    case WithdrawStep(slot) => Withdraw(s, t, slot)
    case WantStep(slot) => Want(s, t, slot)
    case OpenStep => Open(s, t)
    case MakeTempStep(tmp) => MakeTemp(s, t, tmp)
    case ChunkStep(part) => Chunk(s, t, part)
    case RenameStep => Rename(s, t)
    case AbandonStep(removed) => Abandon(s, t, removed)
    case ElsewhereStep(key, content) => Elsewhere(s, t, key, content)
    case ListStep(f, key) => List(s, t, f, key)
    case ReceiveStep(f) => Receive(s, t, f)
    case ReceiveMoreStep(f, part) => ReceiveMore(s, t, f, part)
    case ReceivedStep(f) => Received(s, t, f)
    case GiveUpStep(f) => GiveUp(s, t, f)
  }

  ghost predicate Next(s: State, t: State) {
    exists step :: NextBy(s, t, step)
  }

  /** Any directories may be there at the start; nobody is in the middle of anything. */
  ghost predicate Init(s: State) {
    && s.copy == Idle
    && (forall f :: f in s.fetchers ==> s.fetchers[f].transfer == NoTransfer)
    && (forall slot :: slot in s.submit && !IsHidden(slot.key.name) ==> (slot.key, s.submit[slot]) in s.submitted)
  }

  ghost predicate IsRun(run: seq<State>) {
    && run != [] && Init(run[0])
    && forall i: nat :: i < |run| - 1 ==> StepAt(run, i)
  }

  ghost predicate StepAt(run: seq<State>, i: nat)
    requires i + 1 < |run|
  {
    Next(run[i], run[i + 1])
  }

  // ----- the invariant -----

  ghost predicate FromSubmission(s: State, key: Key, content: Bytes) {
    (key, content) in s.submitted
  }

  ghost predicate Genuine(s0: State, s: State, key: Key, content: Bytes) {
    FromSubmission(s, key, content) || (key in s0.exchange && s0.exchange[key] == content)
  }

  ghost predicate SubmitOk(s: State) {
    forall slot :: slot in s.submit && !IsHidden(slot.key.name) ==> FromSubmission(s, slot.key, s.submit[slot])
  }

  ghost predicate ExchangeOk(s0: State, s: State) {
    forall key :: key in s.exchange && IsPublic(key) ==> Genuine(s0, s, key, s.exchange[key])
  }

  ghost predicate CopyOk(s: State) {
    && (s.copy != Idle ==> s.copy.slot.key.kind in ALLOWED_DATA_TYPES)
    && (s.copy != Idle && !IsHidden(s.copy.slot.key.name) ==> CopyingOk(s))
  }

  ghost predicate CopyingOk(s: State)
    requires s.copy != Idle
  {
    && s.copy.slot.key !in s.exchange
    && (s.copy.Opened? || s.copy.Copying? ==> FromSubmission(s, s.copy.slot.key, s.copy.content))
  }

  ghost predicate TempOk(s: State) {
    s.copy.Copying? ==> IsHidden(s.copy.tmp)
  }

  /** Every file of a consumer was there before the run or has a visible name and genuine content;
      so has the file being transferred. */
  ghost predicate FetcherOk(s0: State, s: State, f: nat, g: Fetcher) {
    && f in s0.fetchers
    && (forall key :: key in g.dst ==>
          (key in s0.fetchers[f].dst && s0.fetchers[f].dst[key] == g.dst[key])
          || (IsPublic(key) && Genuine(s0, s, key, g.dst[key])))
    && (forall key :: key in s0.fetchers[f].dst ==> key in g.dst)
    && TransferOk(s0, s, g)
  }

  ghost predicate TransferOk(s0: State, s: State, f: Fetcher) {
    match f.transfer
    case NoTransfer => true
    case Listed(key) => IsPublic(key) && key !in f.dst
    case Receiving(key, content, part) => IsPublic(key) && key !in f.dst && Genuine(s0, s, key, content)
  }

  ghost predicate Inv(s0: State, s: State) {
    && SubmitOk(s) && ExchangeOk(s0, s) && CopyOk(s) && TempOk(s)
    && (forall f :: f in s.fetchers ==> FetcherOk(s0, s, f, s.fetchers[f]))
    && s0.submitted <= s.submitted
  }

  /** What no step undoes: visible names in the exchange, and files of consumers. */
  ghost predicate Stable(s: State, t: State) {
    && (forall key :: key in s.exchange && IsPublic(key) ==> key in t.exchange && t.exchange[key] == s.exchange[key])
    && s.submitted <= t.submitted
    && (forall f :: f in s.fetchers ==> f in t.fetchers && KeepsFiles(s.fetchers[f], t.fetchers[f]))
  }

  ghost predicate KeepsFiles(f: Fetcher, g: Fetcher) {
    forall key :: key in f.dst ==> key in g.dst && g.dst[key] == f.dst[key]
  }

  lemma InitOk(s: State)
    requires Init(s)
    ensures Inv(s, s)
  {
  }

  lemma GenuineLasts(s0: State, s: State, t: State)
    requires s.submitted <= t.submitted
    ensures forall key, content :: Genuine(s0, s, key, content) ==> Genuine(s0, t, key, content)
  {
  }

  lemma ConsumersStay(s0: State, s: State, t: State)
    requires forall f :: f in s.fetchers ==> FetcherOk(s0, s, f, s.fetchers[f])
    requires t.fetchers == s.fetchers && s.submitted <= t.submitted
    ensures forall f :: f in t.fetchers ==> FetcherOk(s0, t, f, t.fetchers[f])
    ensures forall f :: f in s.fetchers ==> KeepsFiles(s.fetchers[f], t.fetchers[f])
  {
    GenuineLasts(s0, s, t);
    forall f | f in t.fetchers
      ensures FetcherOk(s0, t, f, t.fetchers[f])
    {
      assert FetcherOk(s0, s, f, s.fetchers[f]);
    }
  }

  /** Steps that leave the exchange and the consumers alone. */
  lemma SubmitSideSteps(s0: State, s: State, t: State, step: Step)
    requires Inv(s0, s) && NextBy(s, t, step)
    requires step.SubmitStep? || step.ScribbleStep? || step.WithdrawStep? || step.WantStep? || step.OpenStep?
    ensures Inv(s0, t) && Stable(s, t)
  {
    ConsumersStay(s0, s, t);
    GenuineLasts(s0, s, t);
  }

  lemma MakeTempKeeps(s0: State, s: State, t: State, tmp: string)
    requires Inv(s0, s) && MakeTemp(s, t, tmp)
    ensures Inv(s0, t) && Stable(s, t)
  {
    HiddenMeans(tmp);
    ConsumersStay(s0, s, t);
  }

  lemma ChunkKeeps(s0: State, s: State, t: State, part: Bytes)
    requires Inv(s0, s) && Chunk(s, t, part)
    ensures Inv(s0, t) && Stable(s, t)
  {
    ConsumersStay(s0, s, t);
    assert IsHidden(TempKey(s.copy).name);
  }

  lemma RenameKeeps(s0: State, s: State, t: State)
    requires Inv(s0, s) && Rename(s, t)
    ensures Inv(s0, t) && Stable(s, t)
  {
    ConsumersStay(s0, s, t);
    assert IsHidden(TempKey(s.copy).name);
  }

  lemma ElsewhereKeeps(s0: State, s: State, t: State, key: Key, content: Bytes)
    requires Inv(s0, s) && Elsewhere(s, t, key, content)
    ensures Inv(s0, t) && Stable(s, t)
  {
    ConsumersStay(s0, s, t);
  }

  lemma AbandonKeeps(s0: State, s: State, t: State, removed: bool)
    requires Inv(s0, s) && Abandon(s, t, removed)
    ensures Inv(s0, t) && Stable(s, t)
  {
    ConsumersStay(s0, s, t);
    assert s.copy.Copying? ==> IsHidden(TempKey(s.copy).name);
  }

  lemma OneConsumerMoves(s0: State, s: State, t: State, f: nat, g: Fetcher)
    requires Inv(s0, s) && f in s.fetchers && t == s.(fetchers := s.fetchers[f := g])
    requires FetcherOk(s0, s, f, g) && KeepsFiles(s.fetchers[f], g)
    ensures Inv(s0, t) && Stable(s, t)
  {
    forall h | h in t.fetchers
      ensures FetcherOk(s0, t, h, t.fetchers[h])
    {
      assert FetcherOk(s0, s, h, if h == f then g else s.fetchers[h]);
    }
  }

  /** What the moving consumer has and transfers is still in order. */
  lemma ConsumerMoveOk(s0: State, s: State, t: State, step: Step)
    requires Inv(s0, s) && NextBy(s, t, step)
    requires step.ListStep? || step.ReceiveStep? || step.ReceiveMoreStep? || step.ReceivedStep? || step.GiveUpStep?
    ensures step.f in s.fetchers && step.f in t.fetchers
    ensures FetcherOk(s0, s, step.f, t.fetchers[step.f]) && KeepsFiles(s.fetchers[step.f], t.fetchers[step.f])
  {
    assert FetcherOk(s0, s, step.f, s.fetchers[step.f]);
  }

  lemma ConsumerSteps(s0: State, s: State, t: State, step: Step)
    requires Inv(s0, s) && NextBy(s, t, step)
    requires step.ListStep? || step.ReceiveStep? || step.ReceiveMoreStep? || step.ReceivedStep? || step.GiveUpStep?
    ensures Inv(s0, t) && Stable(s, t)
  {
    ConsumerMoveOk(s0, s, t, step);
    OneConsumerMoves(s0, s, t, step.f, t.fetchers[step.f]);
  }

  lemma StableTransitive(a: State, b: State, c: State)
    requires Stable(a, b) && Stable(b, c)
    ensures Stable(a, c)
  {
    forall f | f in a.fetchers
      ensures f in c.fetchers && KeepsFiles(a.fetchers[f], c.fetchers[f])
    {
      assert KeepsFiles(a.fetchers[f], b.fetchers[f]) && KeepsFiles(b.fetchers[f], c.fetchers[f]);
    }
  }

  /** Every step keeps the invariant and everything already published. */
  lemma StepKeeps(s0: State, s: State, t: State)
    requires Inv(s0, s) && Next(s, t)
    ensures Inv(s0, t) && Stable(s, t)
  {
    var step :| NextBy(s, t, step);
    match step {
      case SubmitStep(_, _) => SubmitSideSteps(s0, s, t, step);
      case ScribbleStep(_, _) => SubmitSideSteps(s0, s, t, step);
      case WithdrawStep(_) => SubmitSideSteps(s0, s, t, step);
      case WantStep(_) => SubmitSideSteps(s0, s, t, step);
      case OpenStep => SubmitSideSteps(s0, s, t, step);
      case MakeTempStep(tmp) => MakeTempKeeps(s0, s, t, tmp);
      case ChunkStep(part) => ChunkKeeps(s0, s, t, part);
      case RenameStep => RenameKeeps(s0, s, t);
      case AbandonStep(removed) => AbandonKeeps(s0, s, t, removed);
      case ElsewhereStep(key, content) => ElsewhereKeeps(s0, s, t, key, content);
      case ListStep(_, _) => ConsumerSteps(s0, s, t, step);
      case ReceiveStep(_) => ConsumerSteps(s0, s, t, step);
      case ReceiveMoreStep(_, _) => ConsumerSteps(s0, s, t, step);
      case ReceivedStep(_) => ConsumerSteps(s0, s, t, step);
      case GiveUpStep(_) => ConsumerSteps(s0, s, t, step);
    }
  }

  lemma {:induction false} RunInv(run: seq<State>, i: nat)
    requires IsRun(run) && i < |run|
    ensures Inv(run[0], run[i])
  {
    if i == 0 {
      InitOk(run[0]);
    } else {
      RunInv(run, i - 1);
      assert StepAt(run, i - 1);
      StepKeeps(run[0], run[i - 1], run[i]);
    }
  }

  lemma NextStable(run: seq<State>, i: nat)
    requires IsRun(run) && i < |run| - 1
    ensures Stable(run[i], run[i + 1])
  {
    RunInv(run, i);
    assert StepAt(run, i);
    StepKeeps(run[0], run[i], run[i + 1]);
  }

  lemma StableSelf(s: State)
    ensures Stable(s, s)
  {
  }

  /** Main result on stability, over every interleaving: a visible name of a data type, once in the exchange,
      never disappears and never changes content; nor does any file of a consumer. */
  lemma {:induction false} PublishedForGood(run: seq<State>, i: nat, j: nat)
    requires IsRun(run) && i <= j < |run|
    ensures Stable(run[i], run[j])
    decreases j
  {
    if i < j {
      PublishedForGood(run, i, j - 1);
      NextStable(run, j - 1);
      StableTransitive(run[i], run[j - 1], run[j]);
    } else {
      StableSelf(run[i]);
    }
  }

  /** Main result on integrity, over every interleaving: a visible file of a data type in the exchange is
      the whole content of some file submitted under that type and name, or was there before the run. A
      file of a consumer was there before the run, or is such a visible file of a data type. */
  lemma OnlyWholeFiles(run: seq<State>, i: nat, key: Key)
    requires IsRun(run) && i < |run|
    ensures key in run[i].exchange && IsPublic(key) ==>
              (key, run[i].exchange[key]) in run[i].submitted
              || (key in run[0].exchange && run[0].exchange[key] == run[i].exchange[key])
    ensures forall f :: f in run[i].fetchers && key in run[i].fetchers[f].dst ==>
              f in run[0].fetchers &&
              var content := run[i].fetchers[f].dst[key];
              (key in run[0].fetchers[f].dst && run[0].fetchers[f].dst[key] == content)
              || (IsPublic(key)
                  && ((key, content) in run[i].submitted
                      || (key in run[0].exchange && run[0].exchange[key] == content)))
  {
    RunInv(run, i);
    forall f | f in run[i].fetchers && key in run[i].fetchers[f].dst
      ensures f in run[0].fetchers
      ensures var content := run[i].fetchers[f].dst[key];
              (key in run[0].fetchers[f].dst && run[0].fetchers[f].dst[key] == content)
              || (IsPublic(key) && Genuine(run[0], run[i], key, content))
    {
      assert FetcherOk(run[0], run[i], f, run[i].fetchers[f]);
    }
  }

  // ----- the sequential pass is one of these behaviours -----

  /** A step of the exchange process or of a consumer. */
  predicate IsWork(step: Step) {
    !step.SubmitStep? && !step.ScribbleStep? && !step.WithdrawStep? && !step.ElsewhereStep?
  }

  ghost predicate Works(s: State, t: State) {
    exists step :: IsWork(step) && NextBy(s, t, step)
  }

  ghost predicate WorkAt(path: seq<State>, i: nat)
    requires i + 1 < |path|
  {
    Works(path[i], path[i + 1])
  }

  /** A sequence of steps of these two, from any state on. */
  ghost predicate IsPath(path: seq<State>, s: State, t: State) {
    && path != [] && path[0] == s && path[|path| - 1] == t
    && forall i: nat :: i < |path| - 1 ==> WorkAt(path, i)
  }

  ghost predicate Reaches(s: State, t: State) {
    exists path :: IsPath(path, s, t)
  }

  lemma ReachesBy(s: State, m: State, t: State, step: Step)
    requires Reaches(s, m) && NextBy(m, t, step) && IsWork(step)
    ensures Reaches(s, t)
  {
    var path :| IsPath(path, s, m);
    var longer := path + [t];
    forall i: nat | i < |longer| - 1
      ensures WorkAt(longer, i)
    {
      if i < |path| - 1 {
        assert WorkAt(path, i);
      }
    }
    assert IsPath(longer, s, t);
  }

  lemma ReachesSelf(s: State)
    ensures Reaches(s, s)
  {
    assert IsPath([s], s, s);
  }

  /** Publishing one file is a path of the state machine. */
  lemma CopyIsPath(s0: State, s: State, slot: Slot, tmp: string)
    requires Reaches(s0, s) && s.copy == Idle && slot in s.submit
    requires slot.key.kind in ALLOWED_DATA_TYPES && IsSafeName(slot.key.name) && slot.key !in s.exchange
    requires "." <= tmp && Key(slot.key.kind, tmp) !in s.exchange && tmp != slot.key.name
    ensures Reaches(s0, s.(exchange := s.exchange[slot.key := s.submit[slot]]))
  {
    var content := s.submit[slot];
    var wanted := s.(copy := Wanted(slot));
    var open := s.(copy := Opened(slot, content));
    var temp := Key(slot.key.kind, tmp);
    var copying := s.(copy := Copying(slot, content, tmp), exchange := s.exchange[temp := []]);
    var copied := copying.(exchange := s.exchange[temp := content]);
    ReachesBy(s0, s, wanted, WantStep(slot));
    ReachesBy(s0, wanted, open, OpenStep);
    ReachesBy(s0, open, copying, MakeTempStep(tmp));
    assert copied.exchange == copying.exchange[temp := content];
    ReachesBy(s0, copying, copied, ChunkStep(content));
    assert s.exchange[temp := content] - {temp} == s.exchange;
    ReachesBy(s0, copied, s.(exchange := s.exchange[slot.key := content]), RenameStep);
  }

  /** The candidates of a pass are files of the submit directories. */
  ghost predicate InSubmit(s: State, found: seq<Candidate>) {
    forall c :: c in found ==> OfferedBySome(s, c)
  }

  ghost predicate OfferedBySome(s: State, c: Candidate) {
    exists crs :: Offered(s, c, crs)
  }

  ghost predicate Offered(s: State, c: Candidate, crs: string) {
    && Slot(crs, c.key) in s.submit && s.submit[Slot(crs, c.key)] == c.content
    && c.key.kind in ALLOWED_DATA_TYPES && IsSafeName(c.key.name)
  }

  /** A name that mkstemp may choose. */
  ghost predicate FreshTemp(s: State, found: seq<Candidate>, tmp: string) {
    && "." <= tmp
    && (forall kind :: Key(kind, tmp) !in s.exchange)
    && (forall i :: 0 <= i < |found| ==> found[i].key.name != tmp)
  }

  /** Every regular file that the tree lists in a data type directory is in the submit directory, with this
      content. */
  ghost predicate ListsOnlySubmit(tree: seq<CrsEntry>, submit: map<Slot, Bytes>) {
    forall c: nat, t: nat, f: nat, key :: OfferedAt(tree, c, t, f, key, {}) ==>
      && Slot(tree[c].name, key) in submit
      && submit[Slot(tree[c].name, key)] == tree[c].types[t].files[f].node.content
  }

  lemma CandidatesInSubmit(s: State, tree: seq<CrsEntry>, faults: Faults)
    requires ListsOnlySubmit(tree, s.submit)
    ensures InSubmit(s, Candidates(tree, faults))
  {
    forall x | x in Candidates(tree, faults)
      ensures OfferedBySome(s, x)
    {
      var c, t, f := FileOfTree(tree, faults, x);
      assert OfferedAt(tree, c, t, f, x.key, {});
      SafeMeans(x.key.name);
      SafeMeans(x.key.kind);
      assert Offered(s, x, tree[c].name);
    }
  }

  /** A whole undisturbed pass over the submit directories is a path of the state machine, ending in the
      directory that SyncOnce computes: the sequential model and the interleaved one agree. */
  lemma PassIsPath(s: State, tree: seq<CrsEntry>, faults: Faults, tmp: string)
    requires s.copy == Idle && ListsOnlySubmit(tree, s.submit) && FreshTemp(s, Candidates(tree, faults), tmp)
    ensures Reaches(s, s.(exchange := Publish(s.exchange, Candidates(tree, faults))))
  {
    CandidatesInSubmit(s, tree, faults);
    CopiesArePath(s, Candidates(tree, faults), tmp);
  }

  lemma {:induction false} CopiesArePath(s: State, found: seq<Candidate>, tmp: string)
    requires s.copy == Idle && InSubmit(s, found) && FreshTemp(s, found, tmp)
    ensures Reaches(s, s.(exchange := Publish(s.exchange, found)))
    ensures forall kind :: Key(kind, tmp) !in Publish(s.exchange, found)
  {
    if found == [] {
      ReachesSelf(s);
      assert s.(exchange := s.exchange) == s;
    } else {
      var front, last := found[..|found| - 1], found[|found| - 1];
      CopiesArePath(s, front, tmp);
      var m := s.(exchange := Publish(s.exchange, front));
      assert OfferedBySome(s, last);
      var crs :| Offered(s, last, crs);
      if last.key !in m.exchange {
        CopyIsPath(s, m, Slot(crs, last.key), tmp);
      }
    }
  }
}
