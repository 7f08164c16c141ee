/** The batching submitters, the exchange process and the consumers together: every submit directory
    is the destination of one submitter, and its files become visible to the exchange process when a
    copy is renamed into place. */
module EndToEnd {
  import opened Exchange
  import X = ExchangeRuns
  import Q = SubmitQueue

  /** One submitter for each CRS and data type. */
  datatype Submitter = Submitter(crs: string, kind: string)

  /** A file that a submitter put in place, and the file it was copied from. */
  datatype Origin = Origin(key: Key, content: Bytes, who: Submitter, path: string)

  datatype System = System(x: X.State, q: map<Submitter, Q.State>, origins: set<Origin>)

  type Envs = Submitter -> Q.Env

  datatype Step = ExchangeStep(xs: X.Step) | SubmitterStep(who: Submitter, qs: Q.Step)

  /** The step of a submitter that puts a file in place under this name. */
  ghost predicate Places(e: Q.Env, u: Q.State, qs: Q.Step, n: string) {
    if qs.FinishStep? then Q.First(u, qs.th) && n == Q.NameOf(e, Q.FirstItem(u, qs.th))
    else
      && qs.DirectFinishStep? && qs.th in u.threads && u.threads[qs.th].DirectReading?
      && n == Q.Name(e, u.threads[qs.th].path, u.threads[qs.th].hashed)
  }

  predicate IsPlacing(qs: Q.Step) {
    qs.FinishStep? || qs.DirectFinishStep?
  }

  /** The file is then in the submit directory. Names start with a hash, so they are not hidden. */
  ghost predicate Published(s: System, t: System, who: Submitter, n: string) {
    && who in t.q && n in t.q[who].dst && n in t.q[who].source
    && X.Submit(s.x, t.x, X.Slot(who.crs, Key(who.kind, n)), t.q[who].dst[n])
    && t.origins == s.origins + {Origin(Key(who.kind, n), t.q[who].dst[n], who, t.q[who].source[n])}
  }

  ghost predicate NextBy(env: Envs, s: System, t: System, step: Step) {
    match step
    case ExchangeStep(xs) =>
      !xs.SubmitStep? && !xs.WithdrawStep? && X.NextBy(s.x, t.x, xs) && t.q == s.q && t.origins == s.origins
    case SubmitterStep(who, qs) =>
      && who in s.q && who in t.q && t.q == s.q[who := t.q[who]]
      && Q.NextBy(env(who), s.q[who], t.q[who], qs)
      && if IsPlacing(qs) then exists n :: Places(env(who), s.q[who], qs, n) && Published(s, t, who, n)
         else t.x == s.x && t.origins == s.origins
  }

  ghost predicate Next(env: Envs, s: System, t: System) {
    exists step :: NextBy(env, s, t, step)
  }

  /** The submit directories hold what the submitters have in their destinations. */
  ghost predicate Agree(s: System) {
    forall who, n :: who in s.q && n in s.q[who].dst && !IsHidden(n) ==> InPlace(s, who, n)
  }

  ghost predicate InPlace(s: System, who: Submitter, n: string)
    requires who in s.q && n in s.q[who].dst
  {
    var slot := X.Slot(who.crs, Key(who.kind, n));
    slot in s.x.submit && s.x.submit[slot] == s.q[who].dst[n]
  }

  ghost predicate Init(s: System) {
    && X.Init(s.x) && (forall who :: who in s.q ==> Q.Init(s.q[who])) && s.origins == {} && Agree(s)
  }

  ghost predicate StepAt(env: Envs, run: seq<System>, i: nat)
    requires i + 1 < |run|
  {
    Next(env, run[i], run[i + 1])
  }

  ghost predicate IsRun(env: Envs, run: seq<System>) {
    && run != [] && Init(run[0])
    && forall i: nat :: i < |run| - 1 ==> StepAt(env, run, i)
  }

  // ----- the invariant -----

  /** A file copied from a stable one is named after the hash of its own content. */
  ghost predicate OriginOk(env: Envs, o: Origin) {
    o.path in env(o.who).stable ==> o.key.name == Q.Name(env(o.who), o.path, o.content)
  }

  ghost predicate HasOrigin(s: System, key: Key, content: Bytes) {
    exists o :: o in s.origins && o.key == key && o.content == content
  }

  /** Whatever was submitted was so at the start, or some submitter put it in place. */
  ghost predicate SubmittedOk(s0: System, s: System) {
    forall key, content :: (key, content) in s.x.submitted ==>
      (key, content) in s0.x.submitted || HasOrigin(s, key, content)
  }

  ghost predicate SubmittersOk(env: Envs, s: System) {
    forall who :: who in s.q ==> Q.Inv(env(who), s.q[who])
  }

  ghost predicate Inv(env: Envs, s0: System, s: System) {
    && X.Inv(s0.x, s.x) && SubmittersOk(env, s) && Agree(s) && SubmittedOk(s0, s)
    && forall o :: o in s.origins ==> OriginOk(env, o)
  }

  lemma InitOk(env: Envs, s: System)
    requires Init(s)
    ensures Inv(env, s, s)
  {
    X.InitOk(s.x);
    forall who | who in s.q
      ensures Q.Inv(env(who), s.q[who])
    {
      Q.InitInv(env(who), s.q[who]);
    }
  }

  /** Apart from the submitters, only hidden files of the submit directories change. */
  lemma ExchangeSubmits(s: X.State, t: X.State, xs: X.Step)
    requires X.NextBy(s, t, xs) && !xs.SubmitStep? && !xs.WithdrawStep?
    ensures t.submitted == s.submitted
    ensures forall slot :: slot in s.submit && !IsHidden(slot.key.name) ==>
              slot in t.submit && t.submit[slot] == s.submit[slot]
  {
  }

  lemma OriginsStay(s0: System, s: System, t: System)
    requires SubmittedOk(s0, s) && t.x.submitted == s.x.submitted && t.origins == s.origins
    ensures SubmittedOk(s0, t)
  {
    forall key, content | (key, content) in t.x.submitted && (key, content) !in s0.x.submitted
      ensures HasOrigin(t, key, content)
    {
      assert HasOrigin(s, key, content);
    }
  }

  lemma ExchangeKeeps(env: Envs, s0: System, s: System, t: System, xs: X.Step)
    requires Inv(env, s0, s) && NextBy(env, s, t, ExchangeStep(xs))
    ensures Inv(env, s0, t)
  {
    assert X.Next(s.x, t.x);
    X.StepKeeps(s0.x, s.x, t.x);
    ExchangeSubmits(s.x, t.x, xs);
    forall who, n | who in t.q && n in t.q[who].dst && !IsHidden(n)
      ensures InPlace(t, who, n)
    {
      assert InPlace(s, who, n);
    }
    OriginsStay(s0, s, t);
  }

  lemma SubmittersKeep(env: Envs, s: System, t: System, who: Submitter, qs: Q.Step)
    requires SubmittersOk(env, s) && NextBy(env, s, t, SubmitterStep(who, qs))
    ensures SubmittersOk(env, t)
  {
    assert Q.Next(env(who), s.q[who], t.q[who]);
    Q.StepKeeps(env(who), s.q[who], t.q[who]);
  }

  /** Other steps of a submitter leave its destination alone. */
  lemma OnlyPlacing(e: Q.Env, u: Q.State, v: Q.State, qs: Q.Step)
    requires Q.NextBy(e, u, v, qs) && !IsPlacing(qs)
    ensures v.dst == u.dst
  {
  }

  lemma PlacingWrites(e: Q.Env, u: Q.State, v: Q.State, qs: Q.Step, n: string)
    requires Q.NextBy(e, u, v, qs) && IsPlacing(qs) && Places(e, u, qs, n)
    ensures n in v.dst && v.dst == u.dst[n := v.dst[n]]
  {
  }

  lemma StillAgree(s: System, t: System, who: Submitter)
    requires Agree(s) && who in s.q && who in t.q && t.q == s.q[who := t.q[who]] && t.x == s.x
    requires t.q[who].dst == s.q[who].dst
    ensures Agree(t)
  {
    forall w, n | w in t.q && n in t.q[w].dst && !IsHidden(n)
      ensures InPlace(t, w, n)
    {
      assert InPlace(s, w, n);
    }
  }

  lemma QuietSubmitterKeeps(env: Envs, s0: System, s: System, t: System, who: Submitter, qs: Q.Step)
    requires Inv(env, s0, s) && NextBy(env, s, t, SubmitterStep(who, qs)) && !IsPlacing(qs)
    ensures Inv(env, s0, t)
  {
    SubmittersKeep(env, s, t, who, qs);
    OnlyPlacing(env(who), s.q[who], t.q[who], qs);
    StillAgree(s, t, who);
    OriginsStay(s0, s, t);
  }

  lemma PublishedSubmitted(s0: System, s: System, t: System, who: Submitter, n: string)
    requires SubmittedOk(s0, s) && Published(s, t, who, n)
    ensures SubmittedOk(s0, t)
  {
    var placed := Origin(Key(who.kind, n), t.q[who].dst[n], who, t.q[who].source[n]);
    forall key, content | (key, content) in t.x.submitted && (key, content) !in s0.x.submitted
      ensures HasOrigin(t, key, content)
    {
      if (key, content) in s.x.submitted {
        assert HasOrigin(s, key, content);
        var o :| o in s.origins && o.key == key && o.content == content;
        assert o in t.origins;
      } else {
        assert placed in t.origins && placed.key == key && placed.content == content;
      }
    }
  }

  lemma PublishedAgree(s: System, t: System, who: Submitter, n: string)
    requires Agree(s) && who in s.q && Published(s, t, who, n) && t.q == s.q[who := t.q[who]]
    requires t.q[who].dst == s.q[who].dst[n := t.q[who].dst[n]]
    ensures Agree(t)
  {
    forall w, m | w in t.q && m in t.q[w].dst && !IsHidden(m)
      ensures InPlace(t, w, m)
    {
      if w != who || m != n {
        assert InPlace(s, w, m);
      }
    }
  }

  lemma PublishedOrigin(env: Envs, s: System, t: System, who: Submitter, n: string)
    requires SubmittersOk(env, t) && Published(s, t, who, n)
    requires forall o :: o in s.origins ==> OriginOk(env, o)
    ensures forall o :: o in t.origins ==> OriginOk(env, o)
  {
    assert Q.NamesOk(env(who), t.q[who]);
  }

  lemma PlacingKeeps(env: Envs, s0: System, s: System, t: System, who: Submitter, qs: Q.Step)
    requires Inv(env, s0, s) && NextBy(env, s, t, SubmitterStep(who, qs)) && IsPlacing(qs)
    ensures Inv(env, s0, t)
  {
    var n :| Places(env(who), s.q[who], qs, n) && Published(s, t, who, n);
    SubmittersKeep(env, s, t, who, qs);
    PlacingWrites(env(who), s.q[who], t.q[who], qs, n);
    assert X.NextBy(s.x, t.x, X.SubmitStep(X.Slot(who.crs, Key(who.kind, n)), t.q[who].dst[n]));
    X.StepKeeps(s0.x, s.x, t.x);
    PublishedSubmitted(s0, s, t, who, n);
    PublishedAgree(s, t, who, n);
    PublishedOrigin(env, s, t, who, n);
  }

  lemma StepKeeps(env: Envs, s0: System, s: System, t: System)
    requires Inv(env, s0, s) && Next(env, s, t)
    ensures Inv(env, s0, t)
  {
    var step :| NextBy(env, s, t, step);
    match step {
      case ExchangeStep(xs) => ExchangeKeeps(env, s0, s, t, xs);
      case SubmitterStep(who, qs) =>
        if IsPlacing(qs) {
          PlacingKeeps(env, s0, s, t, who, qs);
        } else {
          QuietSubmitterKeeps(env, s0, s, t, who, qs);
        }
    }
  }

  lemma {:induction false} RunInv(env: Envs, run: seq<System>, i: nat)
    requires IsRun(env, run) && i < |run|
    ensures Inv(env, run[0], run[i])
  {
    if i == 0 {
      InitOk(env, run[0]);
    } else {
      RunInv(env, run, i - 1);
      assert StepAt(env, run, i - 1);
      StepKeeps(env, run[0], run[i - 1], run[i]);
    }
  }

  // ----- from the submitted file to the consumer -----

  /** Where a file may come from: it was there before the run, or a submitter put exactly this content in
      place under exactly this name, and if it was copied from a stable file, the name is the hash of the
      content and the suffix of that file. */
  ghost predicate IsAccountedFor(env: Envs, run: seq<System>, i: nat, key: Key, content: Bytes)
    requires i < |run|
  {
    || (key in run[0].x.exchange && run[0].x.exchange[key] == content)
    || (key, content) in run[0].x.submitted
    || exists o :: o in run[i].origins && o.key == key && o.content == content && OriginOk(env, o)
  }

  /** Main result from end to end, in every interleaving of all submitters, the exchange process and the
      consumers: each file of a consumer that it did not have from the start is accounted for. */
  lemma FetchedIsAccountedFor(env: Envs, run: seq<System>, i: nat, f: nat, key: Key)
    requires IsRun(env, run) && i < |run|
    requires f in run[i].x.fetchers && key in run[i].x.fetchers[f].dst
    ensures f in run[0].x.fetchers
    ensures var content := run[i].x.fetchers[f].dst[key];
            (key in run[0].x.fetchers[f].dst && run[0].x.fetchers[f].dst[key] == content)
            || (X.IsPublic(key) && IsAccountedFor(env, run, i, key, content))
  {
    RunInv(env, run, i);
    var s0, s := run[0], run[i];
    var content := s.x.fetchers[f].dst[key];
    assert X.FetcherOk(s0.x, s.x, f, s.x.fetchers[f]);
    if !(key in s0.x.fetchers[f].dst && s0.x.fetchers[f].dst[key] == content) {
      assert X.Genuine(s0.x, s.x, key, content);
      if (key, content) in s.x.submitted && (key, content) !in s0.x.submitted {
        assert HasOrigin(s, key, content);
      }
    }
  }

  /** So is each visible file of a data type in the exchange; and what a submitter has stored is what the exchange
      process finds in the submit directory. */
  lemma ExchangedIsAccountedFor(env: Envs, run: seq<System>, i: nat, key: Key)
    requires IsRun(env, run) && i < |run|
    ensures key in run[i].x.exchange && X.IsPublic(key) ==>
              IsAccountedFor(env, run, i, key, run[i].x.exchange[key])
    ensures Agree(run[i])
  {
    RunInv(env, run, i);
    var s0, s := run[0], run[i];
    if key in s.x.exchange && X.IsPublic(key) {
      assert X.Genuine(s0.x, s.x, key, s.x.exchange[key]);
      if (key, s.x.exchange[key]) in s.x.submitted && (key, s.x.exchange[key]) !in s0.x.submitted {
        assert HasOrigin(s, key, s.x.exchange[key]);
      }
    }
  }
}
