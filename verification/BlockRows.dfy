/** What every step makes of every delete row, and where rows come from. */
module BlockRows {
  import opened BlockTables
  import opened BlockSteps
  import opened BlockWorker
  import opened BlockClaims
  import opened BlockInvariant
  import opened BlockShapes
  import opened BlockRuns
  import opened BlockForgotten

  /** The step puts the file out of use: it takes the last reference, otherwise than by releasing pins, or
      discards what had none. */
  ghost predicate PutsOutOfUse(t: Tables, u: Tables, step: Step, f: FileId) {
    !HasLiveReference(u, f) && if HasLiveReference(t, f) then !step.StepRelease? else Discards(t, step, f)
  }

  lemma MarkingStep(t: Tables, step: Step, k: PartKey)
    requires Inv(t) && Apply(t, step).Ok? && k in t.states && !step.StepClaim? && !step.StepFinishDelete?
    ensures var u := Apply(t, step).value; k in u.states && KeptOrDue(t.states[k], u.states[k], Clock(step))
  {
    if IsUploadStep(step) {
      UploadStepShape(t, step);
    } else if IsMappingStep(step) {
      MappingStepShape(t, step);
    } else if IsFileStep(step) {
      FileStepShape(t, step);
    } else {
      OtherStepShape(t, step);
    }
  }

  lemma ReleaseKeepsRows(t: Tables, step: Step)
    requires SourcesPhysical(t) && Apply(t, step).Ok? && step.StepRelease?
    ensures Apply(t, step).value.states == t.states
  {
  }

  /** A live row is due after a step exactly if the step puts its file out of use. */
  lemma LiveRowExactly(t: Tables, step: Step, k: PartKey)
    requires Inv(t) && Apply(t, step).Ok? && IsLive(t, k) && !step.StepClaim? && !step.StepFinishDelete?
    ensures var u := Apply(t, step).value;
      k in u.states && (u.states[k] == t.states[k] <==> !PutsOutOfUse(t, u, step, k.file))
  {
    var u := Apply(t, step).value;
    MarkingStep(t, step, k);
    ApplyKeepsInv(t, step);
    if !HasLiveReference(t, k.file) && !HasLiveReference(u, k.file) {
      StepForgets(t, step, k);
    }
    if step.StepRelease? {
      ReleaseKeepsRows(t, step);
    } else {
      LiveRowDecided(t, u, step, k);
    }
  }

  lemma LiveRowDecided(t: Tables, u: Tables, step: Step, k: PartKey)
    requires IsLive(t, k) && k in u.states && KeptOrDue(t.states[k], u.states[k], Clock(step))
    requires Safe(u) && NoLeak(t, u) && !step.StepRelease?
    requires !HasLiveReference(t, k.file) && !HasLiveReference(u, k.file) ==>
      (IsLive(u, k) <==> !Discards(t, step, k.file))
    ensures u.states[k] == t.states[k] <==> !PutsOutOfUse(t, u, step, k.file)
  {
  }

  /** Every step of every kind leaves exactly this of every row. */
  lemma RowExactly(t: Tables, step: Step, k: PartKey)
    requires Inv(t) && Apply(t, step).Ok? && k in t.states
    ensures k in Apply(t, step).value.states
    ensures var u, row := Apply(t, step).value, t.states[k];
      u.states[k] ==
        if step.StepClaim? then AfterClaim(row, k in step.candidates, step.backend, step.now)
        else if step.StepFinishDelete? && step.key == k && row.state.Deleting?
        then DeleteRow(row.backend, row.uploadedAt, step.state, row.attempts, step.nextAttemptAt, 0)
        else if row.state.Live? && PutsOutOfUse(t, u, step, k.file)
        then DeleteRow(row.backend, row.uploadedAt, Pending, row.attempts, Clock(step), 0)
        else row
  {
    if step.StepClaim? {
      ApplyClaim(t, step);
      ClaimedExactly(t, step.backend, step.candidates, step.now);
    } else if step.StepFinishDelete? {
      FinishPutsNothingOut(t, step, k.file);
    } else {
      MarkingStep(t, step, k);
      if IsLive(t, k) { LiveRowExactly(t, step, k); }
    }
  }

  lemma FinishPutsNothingOut(t: Tables, step: Step, f: FileId)
    requires SourcesPhysical(t) && Apply(t, step).Ok? && step.StepFinishDelete?
    ensures !PutsOutOfUse(t, Apply(t, step).value, step, f)
  {
    SameReferences(t, Apply(t, step).value);
  }

  /** A row comes with its part: live with a stored block, due at once if the part could not be recorded. */
  lemma NewRowExactly(t: Tables, step: Step, k: PartKey)
    requires Inv(t) && Apply(t, step).Ok? && k !in t.states
    ensures k in Apply(t, step).value.states
       <==> (step.StepCreatePart? || step.StepCompensatePart?) && step.key == k
    ensures step.StepCreatePart? && step.key == k ==>
      Apply(t, step).value.states[k] == DeleteRow(step.backend, step.uploadedAt, Live, 0, 0, 0)
    ensures step.StepCompensatePart? && step.key == k ==>
      Apply(t, step).value.states[k] == DeleteRow(step.backend, step.uploadedAt, Pending, 0, step.now, 0)
  {
    if !IsFileStep(step) { NoNewRow(t, step); }
  }

  lemma NoNewRow(t: Tables, step: Step)
    requires Inv(t) && Apply(t, step).Ok? && !IsFileStep(step)
    ensures Apply(t, step).value.states.Keys == t.states.Keys
  {
    if IsUploadStep(step) {
      UploadStepShape(t, step);
    } else if IsMappingStep(step) {
      MappingStepShape(t, step);
    } else {
      OtherStepShape(t, step);
    }
  }

  /** The row keeps its backend and its upload time, and its attempts are counted by claims only. */
  predicate SameBlock(a: DeleteRow, b: DeleteRow) {
    b.backend == a.backend && b.uploadedAt == a.uploadedAt && b.attempts >= a.attempts
  }

  lemma StepKeepsBlock(t: Tables, step: Step, k: PartKey)
    requires Inv(t) && Apply(t, step).Ok? && k in t.states
    ensures k in Apply(t, step).value.states && SameBlock(t.states[k], Apply(t, step).value.states[k])
    ensures Apply(t, step).value.states[k].attempts == t.states[k].attempts +
      if step.StepClaim? && Takes(t.states[k], k in step.candidates, step.backend, step.now) then 1 else 0
  {
    RowExactly(t, step, k);
  }

  lemma RunStepKeepsBlock(states: seq<Tables>, steps: seq<Step>, n: nat, k: PartKey)
    requires IsRun(states, steps) && n < |steps| && k in states[n].states
    ensures k in states[n + 1].states && SameBlock(states[n].states[k], states[n + 1].states[k])
  {
    RunKeepsInv(states, steps, n);
    RunStep(states, steps, n);
    StepKeepsBlock(states[n], steps[n], k);
  }

  lemma {:induction false} RunKeepsBlock(states: seq<Tables>, steps: seq<Step>, i: nat, j: nat, k: PartKey)
    requires IsRun(states, steps) && i <= j < |states| && k in states[i].states
    ensures k in states[j].states && SameBlock(states[i].states[k], states[j].states[k])
    decreases j
  {
    if i < j {
      RunKeepsBlock(states, steps, i, j - 1, k);
      RunStepKeepsBlock(states, steps, j - 1, k);
    }
  }
}
