/** What the outcomes of the submit queue's items say about the destinations that flushes write. */
module SubmitOutcomes {
  import opened SubmitQueue

  /** The item counts as copied under this name. */
  ghost predicate CopiedAs(e: Env, s: State, id: Id, n: string) {
    id in s.outcome && s.outcome[id] == Copied && id in s.items && NameOf(e, s.items[id]) == n
  }

  /** The destinations that flushes have written are just those of the items that count as copied, and of no
      two such items. */
  ghost predicate OutcomesTell(e: Env, s: State) {
    && (forall n :: n in s.written <==> exists id :: CopiedAs(e, s, id, n))
    && (forall a, b, n :: CopiedAs(e, s, a, n) && CopiedAs(e, s, b, n) ==> a == b)
  }

  lemma TellStays(e: Env, s: State, t: State)
    requires OutcomesTell(e, s) && OutcomesOk(e, s)
    requires t.outcome == s.outcome && t.written == s.written
    requires forall id :: id in s.items ==> id in t.items && t.items[id] == s.items[id]
    ensures OutcomesTell(e, t)
  {
    forall id, n
      ensures CopiedAs(e, t, id, n) <==> CopiedAs(e, s, id, n)
    {
      if id in s.outcome {
        assert OutcomeOk(e, s, id);
      }
    }
  }

  /** The first item of a batch is not settled yet. */
  lemma NotYetSettled(s: State, th: nat)
    requires Placed(s) && First(s, th)
    ensures BatchOf(s.threads[th])[0] !in s.outcome
  {
    var id := BatchOf(s.threads[th])[0];
    assert IsAt(s, id, InFlight(th, 0));
    if id in s.outcome {
      assert IsAt(s, id, Settled);
    }
  }

  lemma TellNotCopied(e: Env, s: State, t: State, th: nat, o: Outcome)
    requires OutcomesTell(e, s) && Placed(s) && First(s, th) && o != Copied
    requires t.items == s.items && t.written == s.written
    requires t.outcome == s.outcome[BatchOf(s.threads[th])[0] := o]
    ensures OutcomesTell(e, t)
  {
    NotYetSettled(s, th);
    forall id, n
      ensures CopiedAs(e, t, id, n) <==> CopiedAs(e, s, id, n)
    {
    }
  }

  lemma TellCopied(e: Env, s: State, t: State, th: nat)
    requires OutcomesTell(e, s) && Placed(s) && First(s, th)
    requires NameOf(e, FirstItem(s, th)) !in s.written
    requires t.items == s.items && t.written == s.written + [NameOf(e, FirstItem(s, th))]
    requires t.outcome == s.outcome[BatchOf(s.threads[th])[0] := Copied]
    ensures OutcomesTell(e, t)
  {
    var first, name := BatchOf(s.threads[th])[0], NameOf(e, FirstItem(s, th));
    NotYetSettled(s, th);
    forall id, n
      ensures CopiedAs(e, t, id, n) <==> CopiedAs(e, s, id, n) || (id == first && n == name)
    {
    }
    forall n
      ensures n in t.written <==> exists id :: CopiedAs(e, t, id, n)
    {
      if n == name {
        assert CopiedAs(e, t, first, n);
      } else if id :| CopiedAs(e, s, id, n) {
        assert CopiedAs(e, t, id, n);
      }
    }
  }

  lemma ExamineTells(e: Env, s: State, t: State, th: nat)
    requires OutcomesTell(e, s) && Placed(s) && OutcomesOk(e, s) && Examine(e, s, t, th)
    ensures OutcomesTell(e, t)
  {
    if !e.shared || NameOf(e, FirstItem(s, th)) in s.dst {
      TellNotCopied(e, s, t, th, Skipped);
    } else {
      TellStays(e, s, t);
    }
  }

  lemma FinishTells(e: Env, s: State, t: State, th: nat)
    requires OutcomesTell(e, s) && Placed(s) && CopiersOk(e, s) && FinishCopy(e, s, t, th)
    ensures OutcomesTell(e, t)
  {
    assert CopierOk(e, s, th);
    TellCopied(e, s, t, th);
  }

  lemma FailTells(e: Env, s: State, t: State, th: nat)
    requires OutcomesTell(e, s) && Placed(s) && FailCopy(s, t, th)
    ensures OutcomesTell(e, t)
  {
    TellNotCopied(e, s, t, th, Failed);
  }

  /** Outcomes, written names and the items there are stay as they are. */
  ghost predicate LeavesOutcomes(s: State, t: State) {
    && t.outcome == s.outcome && t.written == s.written
    && forall id :: id in s.items ==> id in t.items && t.items[id] == s.items[id]
  }

  predicate IsShared(step: Step) {
    || step.WriteStep? || step.RemoveStep? || step.AppendStep? || step.DecideStep?
    || step.LockStep? || step.UnlockStep? || step.DirectFinishStep? || step.OpenStep?
  }

  lemma SharedStepsLeave(e: Env, s: State, t: State, step: Step)
    requires NextBy(e, s, t, step) && IsShared(step)
    ensures LeavesOutcomes(s, t)
  {
  }

  lemma ProgressLeaves(e: Env, s: State, t: State, step: Step)
    requires NextBy(e, s, t, step) && IsProgress(step)
    ensures LeavesOutcomes(s, t)
  {
  }

  lemma OthersTell(e: Env, s: State, t: State, step: Step)
    requires OutcomesTell(e, s) && OutcomesOk(e, s) && NextBy(e, s, t, step)
    requires IsShared(step) || IsProgress(step)
    ensures OutcomesTell(e, t)
  {
    if IsShared(step) {
      SharedStepsLeave(e, s, t, step);
    } else {
      ProgressLeaves(e, s, t, step);
    }
    TellStays(e, s, t);
  }

  lemma SettlingTells(e: Env, s: State, t: State, step: Step)
    requires OutcomesTell(e, s) && Placed(s) && OutcomesOk(e, s) && CopiersOk(e, s) && NextBy(e, s, t, step)
    requires step.ExamineStep? || step.FinishStep? || step.FailStep?
    ensures OutcomesTell(e, t)
  {
    if step.ExamineStep? {
      ExamineTells(e, s, t, step.th);
    } else if step.FinishStep? {
      FinishTells(e, s, t, step.th);
    } else {
      FailTells(e, s, t, step.th);
    }
  }

  lemma TellKept(e: Env, s: State, t: State)
    requires Inv(e, s) && OutcomesTell(e, s) && Next(e, s, t)
    ensures OutcomesTell(e, t)
  {
    var step :| NextBy(e, s, t, step);
    if IsShared(step) || IsProgress(step) {
      OthersTell(e, s, t, step);
    } else {
      SettlingTells(e, s, t, step);
    }
  }

  /** Main result on outcomes: in every interleaving, the destinations written by flushes are those of the items
      that count as copied, one item for each. */
  lemma {:induction false} OutcomesAreTrue(e: Env, run: seq<State>, i: nat)
    requires IsRun(e, run) && i < |run|
    ensures OutcomesTell(e, run[i])
  {
    if i > 0 {
      OutcomesAreTrue(e, run, i - 1);
      RunInv(e, run, i - 1);
      assert StepAt(e, run, i - 1);
      TellKept(e, run[i - 1], run[i]);
    }
  }
}
