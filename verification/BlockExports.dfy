/** What an export has listed can be read until its pins are released, whatever becomes of the paths meanwhile
    (filemgr/backup.go). */
module BlockExports {
  import opened BlockTables
  import opened BlockSteps
  import opened BlockInvariant
  import opened BlockShapes
  import opened BlockRuns
  import opened BlockOutcomes
  import opened BlockAvailable

  /** Only the release of a job takes its pins away. */
  lemma StepKeepsPins(t: Tables, step: Step, p: Pin)
    requires Inv(t) && Apply(t, step).Ok? && p in t.pins && step != StepRelease(p.job)
    ensures p in Apply(t, step).value.pins
  {
    if IsUploadStep(step) {
      UploadStepShape(t, step);
    } else if IsMappingStep(step) {
      MappingStepShape(t, step);
    } else if IsFileStep(step) {
      FileStepShape(t, step);
    } else {
      OtherStepKeepsPins(t, step, p);
    }
  }

  lemma OtherStepKeepsPins(t: Tables, step: Step, p: Pin)
    requires Inv(t) && !IsUploadStep(step) && !IsMappingStep(step) && !IsFileStep(step)
    requires ApplyOther(t, step).Ok? && p in t.pins && step != StepRelease(p.job)
    ensures p in ApplyOther(t, step).value.pins
  {
    match step
    case StepDiscard(ids, now) => MarkEachShape(t, ids, now);
    case StepSnapshot(job, selected) =>
    case StepRelease(job) =>
    case StepClaim(_, _, _) =>
    case StepFinishDelete(k, state, next) =>
  }

  lemma {:induction false} RunKeepsPins(states: seq<Tables>, steps: seq<Step>, i: nat, j: nat, p: Pin)
    requires IsRun(states, steps) && i <= j < |states| && p in states[i].pins
    requires forall n :: i <= n < j ==> steps[n] != StepRelease(p.job)
    ensures p in states[j].pins
    decreases j
  {
    if i < j {
      RunKeepsPins(states, steps, i, j - 1, p);
      RunKeepsInv(states, steps, j - 1);
      RunStep(states, steps, j - 1);
      StepKeepsPins(states[j - 1], steps[j - 1], p);
    }
  }

  lemma {:induction false} ReadyStays(states: seq<Tables>, steps: seq<Step>, i: nat, j: nat, f: FileId)
    requires IsRun(states, steps) && i <= j < |states| && f in states[i].files && states[i].files[f].ready
    ensures f in states[j].files && states[j].files[f] == states[i].files[f]
    ensures f in states[i].segments ==> f in states[j].segments && states[j].segments[f] == states[i].segments[f]
    decreases j
  {
    if i < j {
      ReadyStays(states, steps, i, j - 1, f);
      RunStepGrows(states, steps, j - 1);
    }
  }

  /** A ready physical file has the same parts for good. */
  lemma PartsStay(states: seq<Tables>, steps: seq<Step>, i: nat, j: nat, k: PartKey)
    requires IsRun(states, steps) && i <= j < |states|
    requires IsFile(states[i], k.file) && states[i].files[k.file].ready
    ensures k in states[i].parts <==> k in states[j].parts
  {
    ReadyStays(states, steps, i, j, k.file);
    RunKeepsInv(states, steps, i);
    RunKeepsInv(states, steps, j);
    assert k == PartKey(k.file, k.index);
  }

  /** In `u` the file is as it was, with its segments, and every block that it and its sources had is there
      and live. */
  ghost predicate Readable(t: Tables, u: Tables, f: FileId) {
    && f in t.files && f in u.files && u.files[f] == t.files[f]
    && (f in t.segments ==> f in u.segments && u.segments[f] == t.segments[f])
    && forall k :: k in t.parts && (k.file == f || SourceOf(t, f, k.file)) ==> k in u.states && u.states[k].state.Live?
  }

  /** From a snapshot to the release of its job every block of every selected entry can be read, though the
      entry may be removed, mapped to another file or published over in between. */
  lemma ExportStaysReadable(states: seq<Tables>, steps: seq<Step>, i: nat, j: nat, job: JobId, e: EntryId)
    requires IsRun(states, steps) && RowsComplete(states[0]) && i < j < |states|
    requires steps[i].StepSnapshot? && steps[i].job == job && e in steps[i].selected
    requires forall n :: i < n < j ==> steps[n] != StepRelease(job)
    ensures e in states[i].mappings && Readable(states[i], states[j], states[i].mappings[e])
  {
    RunKeepsInv(states, steps, i);
    RunStep(states, steps, i);
    SnapshotExactly(states[i], job, steps[i].selected);
    var f := states[i].mappings[e];
    ReadyStays(states, steps, i, j, f);
    forall k | k in states[i].parts && (k.file == f || SourceOf(states[i], f, k.file))
      ensures k in states[j].states && states[j].states[k].state.Live?
    {
      assert Exported(states[i], steps[i].selected, k.file);
      PinnedStaysLive(states, steps, i + 1, j, job, k);
    }
  }

  /** The blocks of a pinned file stay. */
  lemma PinnedStaysLive(states: seq<Tables>, steps: seq<Step>, i: nat, j: nat, job: JobId, k: PartKey)
    requires IsRun(states, steps) && RowsComplete(states[0]) && i <= j < |states|
    requires k in states[i].parts && Pin(job, k.file) in states[i].pins
    requires forall n :: i <= n < j ==> steps[n] != StepRelease(job)
    ensures k in states[j].states && states[j].states[k].state.Live?
  {
    RunKeepsPins(states, steps, i, j, Pin(job, k.file));
    RunKeepsInv(states, steps, i);
    RunKeepsInv(states, steps, j);
    PartsStay(states, steps, i, j, k);
    RunRowsComplete(states, steps, j);
    assert Pinned(states[j], k.file);
  }
}
