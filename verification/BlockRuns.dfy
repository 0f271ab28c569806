/** Runs: any interleaving of the mutation transactions with the steps of any number of delete
    workers.  A worker remembers what it claimed and may call the backend at any later time. */
module BlockRuns {
  import opened BlockTables
  import opened BlockSteps
  import opened BlockWorker
  import opened BlockInvariant
  import opened BlockMappingProofs
  import opened BlockUploadProofs
  import opened BlockWorkerProofs
  import opened BlockShapes

  datatype Step =
    | StepCreateDraft(file: FileId, layout: Layout, size: nat, partCount: nat)
    | StepCreatePart(key: PartKey, backend: string, uploadedAt: int)
    | StepCompensatePart(key: PartKey, backend: string, uploadedAt: int, now: int)
    | StepFinishCreate(file: FileId)
    | StepDiscard(ids: seq<FileId>, now: int)
    | StepLink(entry: EntryId, file: FileId)
    | StepLockNull(entry: EntryId, file: FileId)
    | StepReplace(entry: EntryId, file: FileId, now: int)
    | StepRemove(entries: seq<EntryId>, now: int)
    | StepCopy(copies: seq<EntryCopy>, entries: seq<EntryId>, now: int)
    | StepPublishObject(current: Option<EntryId>, entry: EntryId, file: FileId, now: int)
    | StepCopyObject(source: EntryId, current: Option<EntryId>, entry: EntryId, now: int)
    | StepCreateUpload(upload: UploadId, expiresAt: int)
    | StepPutPart(part: UploadPartKey, file: FileId, size: nat, tag: string, now: int)
    | StepComplete(upload: UploadId, request: seq<CompletedPart>, file: FileId,
                   current: Option<EntryId>, entry: EntryId, now: int)
    | StepAbort(upload: UploadId, now: int)
    | StepPurge(upload: UploadId, now: int)
    | StepSnapshot(job: JobId, selected: set<EntryId>)
    | StepRelease(job: JobId)
    | StepFinishImportPhysical(file: FileId)
    | StepFinishImportComposite(file: FileId, segments: seq<Segment>)
    | StepPublishImport(items: seq<ImportMapping>, now: int)
    | StepClaim(backend: string, candidates: seq<PartKey>, now: int)
    | StepFinishDelete(key: PartKey, state: DeleteState, nextAttemptAt: int)

  predicate IsUploadStep(step: Step) {
    step.StepCreateUpload? || step.StepPutPart? || step.StepComplete? || step.StepAbort? || step.StepPurge?
  }

  predicate IsMappingStep(step: Step) {
    || step.StepLink? || step.StepLockNull? || step.StepReplace? || step.StepRemove? || step.StepCopy?
    || step.StepPublishObject? || step.StepCopyObject? || step.StepPublishImport?
  }

  /** A step that makes or finishes files. */
  predicate IsFileStep(step: Step) {
    || step.StepCreateDraft? || step.StepCreatePart? || step.StepCompensatePart? || step.StepFinishCreate?
    || step.StepFinishImportPhysical? || step.StepFinishImportComposite?
  }

  function ApplyUpload(t: Tables, step: Step): Result<Tables>
    requires SourcesPhysical(t) && IsUploadStep(step)
  {
    match step
    case StepCreateUpload(u, expiresAt) => CreateUpload(t, u, expiresAt)
    case StepPutPart(k, f, size, tag, now) => PutPart(t, k, f, size, tag, now)
    case StepComplete(u, request, f, current, e, now) =>
      var r := CompleteUpload(t, u, request, f, current, e, now);
      if r.Ok? then Ok(r.value.tables) else Err
    case StepAbort(u, now) => AbortUpload(t, u, now)
    case StepPurge(u, now) => PurgeUpload(t, u, now)
  }

  function ApplyMapping(t: Tables, step: Step): Result<Tables>
    requires SourcesPhysical(t) && IsMappingStep(step)
  {
    match step
    case StepLink(e, f) => Link(t, e, f)
    case StepLockNull(e, f) => LinkLockNull(t, e, f)
    case StepReplace(e, f, now) => ReplaceEntry(t, e, f, now)
    case StepRemove(entries, now) => RemoveEntries(t, entries, now)
    case StepCopy(copies, entries, now) => CopyEntries(t, copies, entries, now)
    case StepPublishObject(current, e, f, now) => PublishObject(t, current, e, f, now)
    case StepCopyObject(source, current, e, now) => CopyObject(t, source, current, e, now)
    case StepPublishImport(items, now) => PublishImport(t, items, now)
  }

  function ApplyFile(t: Tables, step: Step): Result<Tables>
    requires IsFileStep(step)
  {
    match step
    case StepCreateDraft(f, layout, size, n) => CreateDraft(t, f, layout, size, n)
    case StepCreatePart(k, backend, at) => CreatePart(t, k, LiveRow(backend, at))
    case StepCompensatePart(k, backend, at, now) => CreatePart(t, k, CompensationRow(backend, at, now))
    case StepFinishCreate(f) => FinishCreate(t, f)
    case StepFinishImportPhysical(f) => FinishImportPhysical(t, f)
    case StepFinishImportComposite(f, segments) => FinishImportComposite(t, f, segments)
  }

  function ApplyOther(t: Tables, step: Step): Result<Tables>
    requires SourcesPhysical(t) && !IsUploadStep(step) && !IsMappingStep(step) && !IsFileStep(step)
  {
    match step
    case StepDiscard(ids, now) => MarkEach(t, ids, now)
    case StepSnapshot(job, selected) => CreateSnapshot(t, job, selected)
    case StepRelease(job) => Ok(ReleaseSnapshot(t, job))
    case StepClaim(backend, candidates, now) =>
      if forall i :: 0 <= i < |candidates| ==> candidates[i] in t.states
      then Ok(ClaimWork(t, backend, candidates, now).tables) else Err
    case StepFinishDelete(k, state, next) => if state.Live? then Err else Ok(FinishRow(t, k, state, next))
  }

  /** A step of the protocol; a failed transaction is rolled back. */
  function Apply(t: Tables, step: Step): Result<Tables>
    requires SourcesPhysical(t)
  {
    if IsUploadStep(step) then ApplyUpload(t, step)
    else if IsMappingStep(step) then ApplyMapping(t, step)
    else if IsFileStep(step) then ApplyFile(t, step)
    else ApplyOther(t, step)
  }

  /** What every step keeps. */
  ghost predicate Kept(t: Tables, u: Tables, step: Step) {
    Inv(u) && Monotone(t, u) && (!step.StepRelease? ==> NoLeak(t, u))
  }

  lemma UploadStepKeeps(t: Tables, step: Step)
    requires Inv(t) && IsUploadStep(step) && ApplyUpload(t, step).Ok?
    ensures Kept(t, ApplyUpload(t, step).value, step)
  {
    match step
    case StepCreateUpload(u, expiresAt) => CreateUploadKeeps(t, u, expiresAt);
    case StepPutPart(k, f, size, tag, now) => PutPartKeeps(t, k, f, size, tag, now);
    case StepComplete(u, request, f, current, e, now) => CompleteUploadKeeps(t, u, request, f, current, e, now);
    case StepAbort(u, now) => AbortUploadKeeps(t, u, now);
    case StepPurge(u, now) => PurgeUploadKeeps(t, u, now);
  }

  lemma MappingStepKeeps(t: Tables, step: Step)
    requires Inv(t) && IsMappingStep(step) && ApplyMapping(t, step).Ok?
    ensures Kept(t, ApplyMapping(t, step).value, step)
  {
    match step
    case StepLink(e, f) => LinkKeeps(t, e, f);
    case StepLockNull(e, f) => LinkLockNullKeeps(t, e, f);
    case StepReplace(e, f, now) => ReplaceEntryKeeps(t, e, f, now);
    case StepRemove(entries, now) => RemoveEntriesKeeps(t, entries, now);
    case StepCopy(copies, entries, now) => CopyEntriesKeeps(t, copies, entries, now);
    case StepPublishObject(current, e, f, now) => PublishObjectKeeps(t, current, e, f, now);
    case StepCopyObject(source, current, e, now) => PublishObjectKeeps(t, current, e, t.mappings[source], now);
    case StepPublishImport(items, now) => PublishImportKeeps(t, items, now);
  }

  lemma FileStepKeeps(t: Tables, step: Step)
    requires Inv(t) && IsFileStep(step) && ApplyFile(t, step).Ok?
    ensures Kept(t, ApplyFile(t, step).value, step)
  {
    match step
    case StepCreateDraft(f, layout, size, n) => CreateDraftKeeps(t, f, layout, size, n);
    case StepCreatePart(k, backend, at) => CreateLivePartKeeps(t, k, backend, at);
    case StepCompensatePart(k, backend, at, now) => CompensatePartKeeps(t, k, backend, at, now);
    case StepFinishCreate(f) => FinishCreateKeeps(t, f);
    case StepFinishImportPhysical(f) => FinishImportPhysicalKeeps(t, f);
    case StepFinishImportComposite(f, segments) => FinishImportCompositeKeeps(t, f, segments);
  }

  lemma OtherStepKeeps(t: Tables, step: Step)
    requires Inv(t) && !IsUploadStep(step) && !IsMappingStep(step) && !IsFileStep(step) && ApplyOther(t, step).Ok?
    ensures Kept(t, ApplyOther(t, step).value, step)
  {
    match step
    case StepDiscard(ids, now) => MarkOnlyKeeps(t, ids, now);
    case StepSnapshot(job, selected) => CreateSnapshotKeeps(t, job, selected);
    case StepRelease(job) => ReleaseSnapshotKeeps(t, job);
    case StepClaim(backend, candidates, now) => ClaimWorkKeeps(t, backend, candidates, now);
    case StepFinishDelete(k, state, next) => FinishRowKeeps(t, k, state, next);
  }

  lemma ApplyKeepsInv(t: Tables, step: Step)
    requires Inv(t) && Apply(t, step).Ok?
    ensures Inv(Apply(t, step).value) && Monotone(t, Apply(t, step).value)
    ensures !step.StepRelease? ==> NoLeak(t, Apply(t, step).value)
  {
    if IsUploadStep(step) {
      UploadStepKeeps(t, step);
    } else if IsMappingStep(step) {
      MappingStepKeeps(t, step);
    } else if IsFileStep(step) {
      FileStepKeeps(t, step);
    } else {
      OtherStepKeeps(t, step);
    }
  }

  // ---------------------------------------------------------------------------
  // Runs
  // ---------------------------------------------------------------------------

  const Empty := Tables(map[], {}, map[], map[], map[], map[], map[], {})

  lemma EmptyInv()
    ensures Inv(Empty)
  {
  }

  /** `states` are the tables before, between and after `steps`; refused steps are left out. */
  ghost predicate IsRun(states: seq<Tables>, steps: seq<Step>) {
    && |states| == |steps| + 1 && Inv(states[0])
    && forall i {:trigger StepAt(states, steps, i)} :: 0 <= i < |steps| ==> StepAt(states, steps, i)
  }

  ghost predicate StepAt(states: seq<Tables>, steps: seq<Step>, i: int)
    requires 0 <= i < |steps| && |states| == |steps| + 1
  {
    SourcesPhysical(states[i]) && Apply(states[i], steps[i]) == Ok(states[i + 1])
  }

  lemma RunStep(states: seq<Tables>, steps: seq<Step>, i: nat)
    requires IsRun(states, steps) && i < |steps|
    ensures SourcesPhysical(states[i]) && Apply(states[i], steps[i]) == Ok(states[i + 1])
  {
    assert StepAt(states, steps, i);
  }

  lemma RunStepKeeps(states: seq<Tables>, steps: seq<Step>, i: nat)
    requires IsRun(states, steps) && i < |steps| && Inv(states[i])
    ensures Kept(states[i], states[i + 1], steps[i])
  {
    RunStep(states, steps, i);
    ApplyKeepsInv(states[i], steps[i]);
  }

  lemma RunStepGrows(states: seq<Tables>, steps: seq<Step>, i: nat)
    requires IsRun(states, steps) && i < |steps|
    ensures Grows(states[i], states[i + 1])
  {
    RunKeepsInv(states, steps, i);
    RunStep(states, steps, i);
    ApplyGrows(states[i], steps[i]);
  }

  lemma {:induction false} RunKeepsInv(states: seq<Tables>, steps: seq<Step>, i: nat)
    requires IsRun(states, steps) && i < |states|
    ensures Inv(states[i])
  {
    if i > 0 {
      RunKeepsInv(states, steps, i - 1);
      RunStepKeeps(states, steps, i - 1);
    }
  }

  /** No state of any run has a referenced file with a part on its way to deletion. */
  lemma ReferencedIsLive(states: seq<Tables>, steps: seq<Step>, i: nat, k: PartKey)
    requires IsRun(states, steps) && i < |states| && k in states[i].states && HasLiveReference(states[i], k.file)
    ensures states[i].states[k].state.Live?
  {
    RunKeepsInv(states, steps, i);
  }

  lemma MonotoneTrans(t: Tables, u: Tables, v: Tables)
    requires Monotone(t, u) && Monotone(u, v)
    ensures Monotone(t, v)
  {
  }

  lemma RunStepMonotone(states: seq<Tables>, steps: seq<Step>, i: nat)
    requires IsRun(states, steps) && i < |steps|
    ensures Monotone(states[i], states[i + 1])
  {
    RunKeepsInv(states, steps, i);
    RunStepKeeps(states, steps, i);
  }

  lemma {:induction false} RunMonotone(states: seq<Tables>, steps: seq<Step>, i: nat, j: nat)
    requires IsRun(states, steps) && i <= j < |states|
    ensures Monotone(states[i], states[j])
    decreases j
  {
    if i < j {
      RunMonotone(states, steps, i, j - 1);
      RunStepMonotone(states, steps, j - 1);
      MonotoneTrans(states[i], states[j - 1], states[j]);
    }
  }

  /** A part that left live stays out of it, its file is never referenced again, and the three
      final states never change. */
  lemma CondemnedForever(states: seq<Tables>, steps: seq<Step>, i: nat, j: nat, k: PartKey)
    requires IsRun(states, steps) && i <= j < |states| && k in states[i].states && !states[i].states[k].state.Live?
    ensures k in states[j].states && !states[j].states[k].state.Live? && !HasLiveReference(states[j], k.file)
    ensures var was := states[i].states[k].state;
      was.Deleted? || was.Failed? || was.Expired? ==> states[j].states[k].state == was
  {
    RunMonotone(states, steps, i, j);
    RunKeepsInv(states, steps, j);
  }

  lemma ApplyClaim(t: Tables, step: Step)
    requires SourcesPhysical(t) && step.StepClaim? && Apply(t, step).Ok?
    ensures forall n :: 0 <= n < |step.candidates| ==> step.candidates[n] in t.states
    ensures Apply(t, step).value == ClaimWork(t, step.backend, step.candidates, step.now).tables
  {
  }

  /** Whenever a worker gets round to deleting the blocks of a claim, nothing refers to them:
      not at the time of the claim, not at any later time. */
  lemma DeleteCallsAreSafe(states: seq<Tables>, steps: seq<Step>, i: nat, j: nat, k: PartKey)
    requires IsRun(states, steps) && i < |steps| && steps[i].StepClaim? && i < j < |states|
    requires forall n :: 0 <= n < |steps[i].candidates| ==> steps[i].candidates[n] in states[i].states
    requires k in ClaimWork(states[i], steps[i].backend, steps[i].candidates, steps[i].now).works
    ensures !HasLiveReference(states[j], k.file)
    ensures k in states[i].states && steps[i].now < states[i].states[k].uploadedAt + DeleteDeadline
  {
    RunKeepsInv(states, steps, i);
    RunStep(states, steps, i);
    ApplyClaim(states[i], steps[i]);
    ClaimWorkKeeps(states[i], steps[i].backend, steps[i].candidates, steps[i].now);
    CondemnedForever(states, steps, i + 1, j, k);
  }

  // ---------------------------------------------------------------------------
  // No leak over a whole run
  // ---------------------------------------------------------------------------

  /** When the step takes place, if it reads the clock. */
  function Clock(step: Step): int {
    match step
    case StepDiscard(_, now) => now
    case StepReplace(_, _, now) => now
    case StepRemove(_, now) => now
    case StepCopy(_, _, now) => now
    case StepPublishObject(_, _, _, now) => now
    case StepCopyObject(_, _, _, now) => now
    case StepPutPart(_, _, _, _, now) => now
    case StepComplete(_, _, _, _, _, now) => now
    case StepAbort(_, now) => now
    case StepPurge(_, now) => now
    case StepPublishImport(_, now) => now
    case _ => 0
  }

  /** Mapping steps touch mappings and delete states only. */
  lemma MappingStepShape(t: Tables, step: Step)
    requires SourcesPhysical(t) && IsMappingStep(step) && ApplyMapping(t, step).Ok?
    ensures OnlyMappings(t, ApplyMapping(t, step).value, Clock(step))
  {
    match step
    case StepLink(_, _) =>
    case StepLockNull(_, _) =>
    case StepReplace(e, f, now) => ReplaceEntryShape(t, e, f, now);
    case StepRemove(entries, now) => RemoveEntriesShape(t, entries, now);
    case StepCopy(copies, entries, now) => CopyEntriesShape(t, copies, entries, now);
    case StepPublishObject(current, e, f, now) => PublishObjectShape(t, current, e, f, now);
    case StepCopyObject(source, current, e, now) => PublishObjectShape(t, current, e, t.mappings[source], now);
    case StepPublishImport(items, now) => PublishImportShape(t, items, now);
  }

  /** Upload steps touch uploads and delete states only, but for a completion, which adds its file. */
  ghost predicate UploadShape(t: Tables, v: Tables, step: Step) {
    OnlyUploads(t, v, Clock(step)) || (step.StepComplete? && AddsComposite(t, v, step.file, Clock(step)))
  }

  lemma CompleteUploadShape(t: Tables, u: UploadId, request: seq<CompletedPart>, f: FileId,
                            current: Option<EntryId>, e: EntryId, now: int)
    requires SourcesPhysical(t) && CompleteUpload(t, u, request, f, current, e, now).Ok?
    ensures var v := CompleteUpload(t, u, request, f, current, e, now).value.tables;
      (OnlyUploads(t, v, now) || AddsComposite(t, v, f, now)) && CompletedStay(t, v)
  {
    if t.uploads[u].state.Active? {
      if t.uploads[u].expiresAt <= now { AbortUploadShape(t, u, now); }
      else { CompleteActiveShape(t, u, request, f, current, e, now); }
    }
  }

  lemma UploadStepShape(t: Tables, step: Step)
    requires SourcesPhysical(t) && IsUploadStep(step) && ApplyUpload(t, step).Ok?
    ensures UploadShape(t, ApplyUpload(t, step).value, step)
    ensures !step.StepPurge? ==> CompletedStay(t, ApplyUpload(t, step).value)
  {
    match step
    case StepCreateUpload(u, expiresAt) =>
    case StepPutPart(k, f, size, tag, now) => PutPartShape(t, k, f, size, tag, now);
    case StepComplete(u, request, f, current, e, now) => CompleteUploadShape(t, u, request, f, current, e, now);
    case StepAbort(u, now) => AbortUploadShape(t, u, now);
    case StepPurge(u, now) =>
  }

  /** The other steps touch neither files nor uploads. */
  lemma OtherStepShape(t: Tables, step: Step)
    requires Inv(t) && !IsUploadStep(step) && !IsMappingStep(step) && !IsFileStep(step)
    requires ApplyOther(t, step).Ok?
    ensures var v := ApplyOther(t, step).value;
      && SameButStates(t.(pins := v.pins), v) && v.states.Keys == t.states.Keys
      && (!step.StepFinishDelete? && !step.StepClaim? ==> Marked(t.states, v.states, Clock(step)))
  {
    match step
    case StepDiscard(ids, now) => MarkEachShape(t, ids, now);
    case StepSnapshot(job, selected) =>
    case StepRelease(job) =>
    case StepClaim(_, _, _) =>
    case StepFinishDelete(k, state, next) =>
  }

  lemma FileStepShape(t: Tables, step: Step)
    requires Inv(t) && IsFileStep(step) && ApplyFile(t, step).Ok?
    ensures FileShape(t, ApplyFile(t, step).value)
  {
    match step
    case StepCreateDraft(f, layout, size, n) => CreateDraftShape(t, f, layout, size, n);
    case StepCreatePart(k, backend, at) => CreatePartShape(t, k, LiveRow(backend, at));
    case StepCompensatePart(k, backend, at, now) => CreatePartShape(t, k, CompensationRow(backend, at, now));
    case StepFinishCreate(f) => FinishCreateShape(t, f);
    case StepFinishImportPhysical(f) => FinishImportPhysicalShape(t, f);
    case StepFinishImportComposite(f, segments) => FinishImportCompositeShape(t, f, segments);
  }

  lemma ApplyGrows(t: Tables, step: Step)
    requires Inv(t) && Apply(t, step).Ok?
    ensures Grows(t, Apply(t, step).value)
  {
    if IsUploadStep(step) {
      UploadStepShape(t, step);
      UploadShapeGrows(t, Apply(t, step).value, step);
    } else if IsMappingStep(step) {
      MappingStepShape(t, step);
    } else if IsFileStep(step) {
      FileStepShape(t, step);
    } else {
      OtherStepShape(t, step);
    }
  }

  lemma UploadShapeGrows(t: Tables, v: Tables, step: Step)
    requires UploadShape(t, v, step)
    ensures Grows(t, v)
  {
  }

  /** A referenced physical file has all its parts, so it never gets another. */
  lemma ReferencedIsReady(t: Tables, f: FileId)
    requires Inv(t) && HasLiveReference(t, f)
    ensures f in t.files && t.files[f].ready
  {
  }

  lemma {:induction false} RunReady(states: seq<Tables>, steps: seq<Step>, i: nat, j: nat, f: FileId)
    requires IsRun(states, steps) && i <= j < |states| && f in states[i].files && states[i].files[f].ready
    ensures f in states[j].files && states[j].files[f].ready
    decreases j
  {
    if i < j {
      RunReady(states, steps, i, j - 1, f);
      RunStepGrows(states, steps, j - 1);
    }
  }

  /** In a run without a release of export pins, a part of a file that was referenced at some
      time and is not any more has left live: nothing that goes out of use is forgotten. */
  lemma {:induction false} NothingForgotten(states: seq<Tables>, steps: seq<Step>, i: nat, j: nat, k: PartKey)
    requires IsRun(states, steps) && i <= j < |states|
    requires forall n :: i <= n < j ==> !steps[n].StepRelease?
    requires HasLiveReference(states[i], k.file) && !HasLiveReference(states[j], k.file)
    requires k in states[j].states
    ensures !states[j].states[k].state.Live?
    decreases j
  {
    if HasLiveReference(states[j - 1], k.file) {
      StepForgetsNothing(states, steps, j - 1, k);
    } else {
      PartWasThere(states, steps, i, j - 1, k);
      NothingForgotten(states, steps, i, j - 1, k);
      RunMonotone(states, steps, j - 1, j);
    }
  }

  lemma StepForgetsNothing(states: seq<Tables>, steps: seq<Step>, i: nat, k: PartKey)
    requires IsRun(states, steps) && i < |steps| && !steps[i].StepRelease?
    requires HasLiveReference(states[i], k.file)
    requires !HasLiveReference(states[i + 1], k.file) && k in states[i + 1].states
    ensures !states[i + 1].states[k].state.Live?
  {
    RunKeepsInv(states, steps, i);
    RunStepKeeps(states, steps, i);
  }

  /** A file that was referenced gets no part any more. */
  lemma PartWasThere(states: seq<Tables>, steps: seq<Step>, i: nat, j: nat, k: PartKey)
    requires IsRun(states, steps) && i <= j < |steps|
    requires HasLiveReference(states[i], k.file) && k in states[j + 1].states
    ensures k in states[j].states
  {
    RunKeepsInv(states, steps, i);
    ReferencedIsReady(states[i], k.file);
    RunReady(states, steps, i, j, k.file);
    RunKeepsInv(states, steps, j);
    RunKeepsInv(states, steps, j + 1);
    RunStepGrows(states, steps, j);
    assert k == PartKey(k.file, k.index);
  }
}
