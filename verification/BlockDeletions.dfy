/** Runs whose workers execute what they claimed and finish rows as the backend answered
    (filemgr/block_delete_worker.go): a row is deleted exactly if a call naming its block was accepted
    while the row was being deleted, and no call names a block that is referenced. */
module BlockDeletions {
  import opened BlockTables
  import opened BlockWorker
  import opened BlockClaims
  import opened BlockInvariant
  import opened BlockExecute
  import opened BlockRuns
  import opened BlockRows

  /** One executeBlockDeleteWork: the backend's answers, the works and the time. */
  datatype Execution = Execution(respond: seq<PartKey> -> Response, works: seq<Work>, now: int)

  /** The step finishes the row of `work` as the execution decides. */
  ghost predicate Decided(x: Execution, work: Work, step: Step) {
    && step.StepFinishDelete? && work in x.works && work.key == step.key
    && VerdictOf(x.respond, x.works, work, x.now) == Verdict(step.state, step.nextAttemptAt)
  }

  /** Claim `c` handed out these works, with what the rows say afterwards. */
  ghost predicate HandedOut(states: seq<Tables>, steps: seq<Step>, c: int, works: seq<Work>) {
    && 0 <= c < |steps| < |states| && steps[c].StepClaim?
    && (forall i :: 0 <= i < |steps[c].candidates| ==> steps[c].candidates[i] in states[c].states)
    && var keys := ClaimWork(states[c], steps[c].backend, steps[c].candidates, steps[c].now).works;
       && |works| == |keys|
       && forall i :: 0 <= i < |keys| ==> works[i].key == keys[i] && Remembers(states[c + 1], works[i])
  }

  predicate Remembers(t: Tables, work: Work) {
    work.key in t.states
    && work == Work(work.key, t.states[work.key].uploadedAt, t.states[work.key].attempts)
  }

  ghost predicate ClaimedBefore(states: seq<Tables>, steps: seq<Step>, n: int, works: seq<Work>) {
    exists c :: 0 <= c < n && HandedOut(states, steps, c, works)
  }

  /** A run in which every row is finished by an execution of what was claimed before. */
  ghost predicate IsExecutedRun(states: seq<Tables>, steps: seq<Step>, executions: seq<Execution>, works: seq<Work>) {
    && IsRun(states, steps) && |executions| == |works| == |steps|
    && forall n {:trigger FinishedAt(states, steps, executions, works, n)} ::
         0 <= n < |steps| ==> FinishedAt(states, steps, executions, works, n)
  }

  ghost predicate FinishedAt(states: seq<Tables>, steps: seq<Step>, executions: seq<Execution>, works: seq<Work>,
                             n: int)
    requires 0 <= n < |steps| && |executions| == |works| == |steps|
  {
    steps[n].StepFinishDelete? ==>
      Decided(executions[n], works[n], steps[n]) && ClaimedBefore(states, steps, n, executions[n].works)
  }

  /** Step `n` deleted `k` after a call for it was accepted. */
  ghost predicate AcceptedAt(steps: seq<Step>, executions: seq<Execution>, works: seq<Work>, n: int, k: PartKey)
    requires 0 <= n < |steps| && |executions| == |works| == |steps|
  {
    && steps[n].StepFinishDelete? && steps[n].key == k && works[n].key == k && executions[n].works != []
    && DeletingCallAccepted(executions[n].respond, executions[n].works, works[n])
  }

  predicate IsDeleted(t: Tables, k: PartKey) {
    k in t.states && t.states[k].state.Deleted?
  }

  /** No other step deletes a row. */
  lemma OnlyFinishDeletes(t: Tables, step: Step, k: PartKey)
    requires Inv(t) && Apply(t, step).Ok? && IsDeleted(Apply(t, step).value, k)
    ensures IsDeleted(t, k) || (step.StepFinishDelete? && step.key == k && step.state.Deleted?)
  {
    if k in t.states { RowExactly(t, step, k); } else { NewRowExactly(t, step, k); }
  }

  /** What an execution decided means that a call was accepted exactly if the row is to be deleted. */
  lemma DecidedMeans(steps: seq<Step>, executions: seq<Execution>, works: seq<Work>, n: int)
    requires 0 <= n < |steps| && |executions| == |works| == |steps| && Decided(executions[n], works[n], steps[n])
    ensures steps[n].state.Deleted? <==> AcceptedAt(steps, executions, works, n, steps[n].key)
  {
    VerdictMeans(executions[n].respond, executions[n].works, works[n], executions[n].now);
  }

  lemma StepDeletes(states: seq<Tables>, steps: seq<Step>, executions: seq<Execution>, works: seq<Work>, n: nat,
                    k: PartKey)
    requires IsExecutedRun(states, steps, executions, works) && n < |steps|
    requires !IsDeleted(states[n], k) && IsDeleted(states[n + 1], k)
    ensures AcceptedAt(steps, executions, works, n, k)
  {
    RunKeepsInv(states, steps, n);
    RunStep(states, steps, n);
    OnlyFinishDeletes(states[n], steps[n], k);
    if steps[n].StepFinishDelete? { FinishDecides(states, steps, executions, works, n); }
  }

  /** A row that is deleted and was not before was deleted after the backend accepted its deletion. */
  lemma {:induction false} DeletedOnlyIfAccepted(states: seq<Tables>, steps: seq<Step>, executions: seq<Execution>,
                                                 works: seq<Work>, i: nat, j: nat, k: PartKey) returns (n: nat)
    requires IsExecutedRun(states, steps, executions, works) && i <= j < |states|
    requires !IsDeleted(states[i], k) && IsDeleted(states[j], k)
    ensures i <= n < j && AcceptedAt(steps, executions, works, n, k)
    decreases j
  {
    if IsDeleted(states[j - 1], k) {
      n := DeletedOnlyIfAccepted(states, steps, executions, works, i, j - 1, k);
    } else {
      n := j - 1;
      StepDeletes(states, steps, executions, works, n, k);
    }
  }

  /** The row that a finishing step leaves, if it was being deleted. */
  lemma FinishedRow(states: seq<Tables>, steps: seq<Step>, n: nat)
    requires IsRun(states, steps) && n < |steps| && steps[n].StepFinishDelete? && steps[n].key in states[n].states
    requires states[n].states[steps[n].key].state.Deleting?
    ensures steps[n].key in states[n + 1].states && states[n + 1].states[steps[n].key].state == steps[n].state
  {
    RunStep(states, steps, n);
  }

  /** A row whose deletion was accepted while it was being deleted is deleted from then on, and one
      whose deletion was not accepted is not deleted by that execution. */
  lemma AcceptedIsDeleted(states: seq<Tables>, steps: seq<Step>, executions: seq<Execution>, works: seq<Work>,
                          n: nat, j: nat, k: PartKey)
    requires IsExecutedRun(states, steps, executions, works) && n < j < |states|
    requires steps[n].StepFinishDelete? && steps[n].key == k
    requires k in states[n].states && states[n].states[k].state.Deleting?
    ensures AcceptedAt(steps, executions, works, n, k) <==> IsDeleted(states[n + 1], k)
    ensures AcceptedAt(steps, executions, works, n, k) ==> IsDeleted(states[j], k)
  {
    FinishedRow(states, steps, n);
    FinishDecides(states, steps, executions, works, n);
    DeletedForever(states, steps, n + 1, j, k);
  }

  lemma FinishDecides(states: seq<Tables>, steps: seq<Step>, executions: seq<Execution>, works: seq<Work>, n: nat)
    requires IsExecutedRun(states, steps, executions, works) && n < |steps| && steps[n].StepFinishDelete?
    ensures steps[n].state.Deleted? <==> AcceptedAt(steps, executions, works, n, steps[n].key)
  {
    assert FinishedAt(states, steps, executions, works, n);
    DecidedMeans(steps, executions, works, n);
  }

  lemma DeletedForever(states: seq<Tables>, steps: seq<Step>, i: nat, j: nat, k: PartKey)
    requires IsRun(states, steps) && i <= j < |states|
    ensures IsDeleted(states[i], k) ==> IsDeleted(states[j], k)
  {
    if IsDeleted(states[i], k) { CondemnedForever(states, steps, i, j, k); }
  }

  /** Every call of an execution names only parts that were claimed before, in time for the backend, and
      that nothing has referred to since or will refer to again. */
  lemma CallsAreSafe(states: seq<Tables>, steps: seq<Step>, executions: seq<Execution>, works: seq<Work>, n: nat,
                     work: Work) returns (c: nat)
    requires IsExecutedRun(states, steps, executions, works) && n < |steps| && steps[n].StepFinishDelete?
    requires work in executions[n].works
    ensures c < n && HandedOut(states, steps, c, executions[n].works)
    ensures forall p :: c < p < |states| ==> !HasLiveReference(states[p], work.key.file)
    ensures work.key in states[c].states && steps[c].now < states[c].states[work.key].uploadedAt + DeleteDeadline
  {
    assert FinishedAt(states, steps, executions, works, n);
    c :| 0 <= c < n && HandedOut(states, steps, c, executions[n].works);
    forall p | c < p < |states|
      ensures !HasLiveReference(states[p], work.key.file)
      ensures work.key in states[c].states && steps[c].now < states[c].states[work.key].uploadedAt + DeleteDeadline
    {
      DeleteCallsAreSafe(states, steps, c, p, work.key);
    }
    assert c < n < |states|;
  }

  /** A row that came to be deleted was claimed, nothing has referred to its file since, and the backend
      accepted a call for it. */
  lemma DeletedWasClaimed(states: seq<Tables>, steps: seq<Step>, executions: seq<Execution>, works: seq<Work>,
                          i: nat, j: nat, k: PartKey) returns (c: nat, n: nat)
    requires IsExecutedRun(states, steps, executions, works) && i <= j < |states|
    requires !IsDeleted(states[i], k) && IsDeleted(states[j], k)
    ensures c < n < j && AcceptedAt(steps, executions, works, n, k)
    ensures HandedOut(states, steps, c, executions[n].works) && works[n] in executions[n].works && works[n].key == k
    ensures forall p :: c < p < |states| ==> !HasLiveReference(states[p], k.file)
  {
    n := DeletedOnlyIfAccepted(states, steps, executions, works, i, j, k);
    assert FinishedAt(states, steps, executions, works, n);
    c := CallsAreSafe(states, steps, executions, works, n, works[n]);
  }

  // ---------------------------------------------------------------------------
  // The other ends
  // ---------------------------------------------------------------------------

  predicate InState(t: Tables, k: PartKey, state: DeleteState) {
    k in t.states && t.states[k].state == state
  }

  /** A claim finds the row after its deadline. */
  predicate LateClaim(t: Tables, step: Step, k: PartKey) {
    && step.StepClaim? && k in step.candidates && k in t.states
    && step.now >= t.states[k].uploadedAt + DeleteDeadline
  }

  /** Step `n` finishes the row of `k` after an answer that was no acceptance. */
  ghost predicate RefusedAt(states: seq<Tables>, steps: seq<Step>, executions: seq<Execution>, works: seq<Work>,
                            n: int, k: PartKey)
    requires 0 <= n < |steps| == |executions| == |works| < |states|
  {
    && steps[n].StepFinishDelete? && steps[n].key == k && works[n].key == k && executions[n].works != []
    && k in states[n].states && works[n].uploadedAt == states[n].states[k].uploadedAt
    && !Deciding(executions[n].respond, executions[n].works, works[n]).0.Accepted?
  }

  /** The answer was temporary and its delay does not end before the deadline. */
  ghost predicate LateRetry(x: Execution, work: Work, deadline: int)
    requires x.works != []
  {
    var (answer, attempts) := Deciding(x.respond, x.works, work);
    Temporary(answer) && RetryAt(answer, attempts, x.now) >= deadline * Millisecond
  }

  lemma ClaimGives(t: Tables, step: Step, k: PartKey)
    requires Inv(t) && Apply(t, step).Ok? && step.StepClaim? && k in t.states
    ensures InState(Apply(t, step).value, k, Expired) ==> InState(t, k, Expired) || LateClaim(t, step, k)
    ensures InState(Apply(t, step).value, k, Failed) ==> InState(t, k, Failed)
  {
    RowExactly(t, step, k);
  }

  /** A row expires or fails in a claim that finds it late, or in the end of an execution. */
  lemma EndsOnlyBy(t: Tables, step: Step, k: PartKey, state: DeleteState)
    requires Inv(t) && Apply(t, step).Ok? && (state.Expired? || state.Failed?)
    requires !InState(t, k, state) && InState(Apply(t, step).value, k, state)
    ensures k in t.states
    ensures (state.Expired? && LateClaim(t, step, k))
         || (step.StepFinishDelete? && step.key == k && step.state == state)
  {
    if k in t.states {
      if step.StepClaim? { ClaimGives(t, step, k); } else { RowExactly(t, step, k); }
    } else {
      NewRowExactly(t, step, k);
    }
  }

  /** The work of a finishing step is the row's. */
  lemma WorkIsRow(states: seq<Tables>, steps: seq<Step>, executions: seq<Execution>, works: seq<Work>, n: nat)
    requires IsExecutedRun(states, steps, executions, works) && n < |steps| && steps[n].StepFinishDelete?
    ensures executions[n].works != [] && works[n] in executions[n].works && works[n].key == steps[n].key
    ensures steps[n].key in states[n].states && works[n].uploadedAt == states[n].states[steps[n].key].uploadedAt
  {
    assert FinishedAt(states, steps, executions, works, n);
    var c :| 0 <= c < n && HandedOut(states, steps, c, executions[n].works);
    WasRemembered(states, steps, c, executions[n].works, works[n]);
    RunKeepsBlock(states, steps, c + 1, n, works[n].key);
  }

  lemma WasRemembered(states: seq<Tables>, steps: seq<Step>, c: int, works: seq<Work>, work: Work)
    requires HandedOut(states, steps, c, works) && work in works
    ensures Remembers(states[c + 1], work)
  {
    var i :| 0 <= i < |works| && works[i] == work;
    assert Remembers(states[c + 1], works[i]);
  }

  /** What a finishing step decided by the answers. */
  lemma FinishRefuses(states: seq<Tables>, steps: seq<Step>, executions: seq<Execution>, works: seq<Work>, n: nat)
    requires IsExecutedRun(states, steps, executions, works) && n < |steps| && steps[n].StepFinishDelete?
    requires steps[n].state.Expired? || steps[n].state.Failed?
    ensures RefusedAt(states, steps, executions, works, n, steps[n].key)
    ensures steps[n].state.Failed? <==>
      !Temporary(Deciding(executions[n].respond, executions[n].works, works[n]).0)
    ensures steps[n].state.Expired? ==>
      LateRetry(executions[n], works[n], works[n].uploadedAt + DeleteDeadline)
  {
    WorkIsRow(states, steps, executions, works, n);
    assert FinishedAt(states, steps, executions, works, n);
    VerdictMeans(executions[n].respond, executions[n].works, works[n], executions[n].now);
  }

  /** A row that came to be expired did so in a claim at or after its deadline, or after a temporary answer whose
      delay ends at or after it. */
  lemma {:induction false} ExpiredOnlyLate(states: seq<Tables>, steps: seq<Step>, executions: seq<Execution>,
                                           works: seq<Work>, i: nat, j: nat, k: PartKey) returns (n: nat)
    requires IsExecutedRun(states, steps, executions, works) && i <= j < |states|
    requires !InState(states[i], k, Expired) && InState(states[j], k, Expired)
    ensures i <= n < j && k in states[n].states
    ensures LateClaim(states[n], steps[n], k)
         || (RefusedAt(states, steps, executions, works, n, k)
             && LateRetry(executions[n], works[n], states[n].states[k].uploadedAt + DeleteDeadline))
    decreases j
  {
    if InState(states[j - 1], k, Expired) {
      n := ExpiredOnlyLate(states, steps, executions, works, i, j - 1, k);
    } else {
      n := j - 1;
      RunKeepsInv(states, steps, n);
      RunStep(states, steps, n);
      EndsOnlyBy(states[n], steps[n], k, Expired);
      if steps[n].StepFinishDelete? { FinishRefuses(states, steps, executions, works, n); }
    }
  }

  /** A row that came to be failed did so after a call for it was refused for good. */
  lemma {:induction false} FailedOnlyIfRefused(states: seq<Tables>, steps: seq<Step>, executions: seq<Execution>,
                                               works: seq<Work>, i: nat, j: nat, k: PartKey) returns (n: nat)
    requires IsExecutedRun(states, steps, executions, works) && i <= j < |states|
    requires !InState(states[i], k, Failed) && InState(states[j], k, Failed)
    ensures i <= n < j && RefusedAt(states, steps, executions, works, n, k)
    ensures !Temporary(Deciding(executions[n].respond, executions[n].works, works[n]).0)
    decreases j
  {
    if InState(states[j - 1], k, Failed) {
      n := FailedOnlyIfRefused(states, steps, executions, works, i, j - 1, k);
    } else {
      n := j - 1;
      RunKeepsInv(states, steps, n);
      RunStep(states, steps, n);
      EndsOnlyBy(states[n], steps[n], k, Failed);
      FinishRefuses(states, steps, executions, works, n);
    }
  }

  // ---------------------------------------------------------------------------
  // It can be deleted
  // ---------------------------------------------------------------------------

  /** Whatever is pending can be deleted before its deadline: a claim and an accepted call lead there. */
  lemma PendingCanBeDeleted(states: seq<Tables>, steps: seq<Step>, k: PartKey, now: int)
    returns (more: seq<Tables>, taken: seq<Step>)
    requires IsRun(states, steps) && k in states[|steps|].states && states[|steps|].states[k].state.Pending?
    requires now < states[|steps|].states[k].uploadedAt + DeleteDeadline
    ensures IsRun(more, taken) && steps <= taken && states <= more && IsDeleted(more[|taken|], k)
  {
    var t := states[|steps|];
    var a, b := StepClaim(t.states[k].backend, [k], now), StepFinishDelete(k, Deleted, 0);
    RunKeepsInv(states, steps, |steps|);
    ClaimTakes(t, k, now);
    RunExtends(states, steps, a);
    more, taken := states + [Apply(t, a).value], steps + [a];
    FinishDeletes(Apply(t, a).value, k);
    RunExtends(more, taken, b);
    more, taken := more + [Apply(Apply(t, a).value, b).value], taken + [b];
  }

  lemma ClaimTakes(t: Tables, k: PartKey, now: int)
    requires Inv(t) && InState(t, k, Pending) && now < t.states[k].uploadedAt + DeleteDeadline
    ensures var r := Apply(t, StepClaim(t.states[k].backend, [k], now));
      r.Ok? && Inv(r.value) && InState(r.value, k, Deleting)
  {
    var step := StepClaim(t.states[k].backend, [k], now);
    RowExactly(t, step, k);
    ApplyKeepsInv(t, step);
  }

  lemma FinishDeletes(t: Tables, k: PartKey)
    requires Inv(t) && InState(t, k, Deleting)
    ensures var r := Apply(t, StepFinishDelete(k, Deleted, 0)); r.Ok? && IsDeleted(r.value, k)
  {
    RowExactly(t, StepFinishDelete(k, Deleted, 0), k);
  }

  lemma RunExtends(states: seq<Tables>, steps: seq<Step>, step: Step)
    requires IsRun(states, steps) && SourcesPhysical(states[|steps|]) && Apply(states[|steps|], step).Ok?
    ensures IsRun(states + [Apply(states[|steps|], step).value], steps + [step])
  {
    var more, taken := states + [Apply(states[|steps|], step).value], steps + [step];
    forall i | 0 <= i < |taken| ensures StepAt(more, taken, i) {
      if i < |steps| { assert StepAt(states, steps, i); }
    }
  }
}
