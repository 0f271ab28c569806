/** Nothing is stuck: after a restart every unfinished job can be brought to its end, an import that was not
    canceled to its publication (backupmgr/manager.go). */
module BackupProgress {
  import opened BackupJobs
  import opened BackupJobProofs
  import opened BackupOverturns

  /** The worker of a kind is in a phase, with the job as given. */
  ghost predicate At(s: State, kind: Kind, id: JobId, j: Job, phase: Phase) {
    s.running && kind in s.worker && s.worker[kind] == phase && id in s.jobs && s.jobs[id] == j
  }

  /** The run goes on to a state. */
  ghost predicate GoesOnTo(steps: seq<Step>, more: seq<State>, taken: seq<Step>) {
    IsRun(more, taken) && steps <= taken
  }

  lemma Onward(states: seq<State>, steps: seq<Step>, step: Step) returns (more: seq<State>, taken: seq<Step>)
    requires IsRun(states, steps) && Enabled(states[|steps|], step)
    ensures GoesOnTo(steps, more, taken) && |taken| == |steps| + 1
    ensures more[|taken|] == Apply(states[|steps|], step)
  {
    ReachNext(states, steps, states[|steps|], step);
    more, taken := states + [Apply(states[|steps|], step)], steps + [step];
  }

  /** A statement of the worker that goes well. */
  lemma Well(states: seq<State>, steps: seq<Step>, kind: Kind, id: JobId, j: Job, phase: Phase)
    returns (more: seq<State>, taken: seq<Step>)
    requires IsRun(states, steps) && At(states[|steps|], kind, id, j, phase) && !phase.Idle? && phase.id == id
    ensures GoesOnTo(steps, more, taken)
    ensures var m := WorkOn(j, phase, Choice.Well); At(more[|taken|], kind, id, m.job, m.phase)
  {
    more, taken := Onward(states, steps, Work(kind, Choice.Well));
  }

  // ---------------------------------------------------------------------------
  // What a worker does with a job
  // ---------------------------------------------------------------------------

  /** The end of a job whose worker meets no error. */
  predicate EndsAs(j: Job, end: Job) {
    && end.kind == j.kind && end.dryRun == j.dryRun && Terminal(end.state) && end.completed
    && (if j.cancel then end.state.Canceled? && end.published == j.published
        else end.state.Succeeded? && end.published == j.published + if j.kind.Import? && !j.dryRun then 1 else 0)
  }

  lemma CanceledEnds(states: seq<State>, steps: seq<Step>, id: JobId, j: Job)
    returns (more: seq<State>, taken: seq<Step>)
    requires IsRun(states, steps) && At(states[|steps|], j.kind, id, j, Picked(id)) && j.cancel
    ensures GoesOnTo(steps, more, taken) && id in more[|taken|].jobs && EndsAs(j, more[|taken|].jobs[id])
  {
    more, taken := Well(states, steps, j.kind, id, j, Picked(id));
    more, taken := Well(more, taken, j.kind, id, j, Loaded(id, j));
    more, taken := Well(more, taken, j.kind, id, j, CancelingJob(id));
  }

  lemma ExportEnds(states: seq<State>, steps: seq<Step>, id: JobId, j: Job)
    returns (more: seq<State>, taken: seq<Step>)
    requires IsRun(states, steps) && At(states[|steps|], j.kind, id, j, Picked(id))
    requires j.kind.Export? && j.state.Queued? && !j.cancel && !j.completed
    ensures GoesOnTo(steps, more, taken) && id in more[|taken|].jobs && EndsAs(j, more[|taken|].jobs[id])
  {
    more, taken := Well(states, steps, j.kind, id, j, Picked(id));
    more, taken := Well(more, taken, j.kind, id, j, Loaded(id, j));
    more, taken := Well(more, taken, j.kind, id, j.(state := Snapshotting), DoingExport(id));
    more, taken := Well(more, taken, j.kind, id, j.(state := Building), BuildingArtifact(id));
  }

  lemma DryRunEnds(states: seq<State>, steps: seq<Step>, id: JobId, j: Job)
    returns (more: seq<State>, taken: seq<Step>)
    requires IsRun(states, steps) && At(states[|steps|], j.kind, id, j, Picked(id))
    requires j.kind.Import? && j.dryRun && j.state.Queued? && !j.cancel && !j.completed
    ensures GoesOnTo(steps, more, taken) && id in more[|taken|].jobs && EndsAs(j, more[|taken|].jobs[id])
  {
    more, taken := Well(states, steps, j.kind, id, j, Picked(id));
    more, taken := Well(more, taken, j.kind, id, j, Loaded(id, j));
    more, taken := Well(more, taken, j.kind, id, j.(state := Validating), DoingValidation(id));
  }

  lemma ImportEnds(states: seq<State>, steps: seq<Step>, id: JobId, j: Job)
    returns (more: seq<State>, taken: seq<Step>)
    requires IsRun(states, steps) && At(states[|steps|], j.kind, id, j, Picked(id))
    requires j.kind.Import? && !j.dryRun && j.state.Queued? && !j.cancel && !j.completed
    ensures GoesOnTo(steps, more, taken) && id in more[|taken|].jobs && EndsAs(j, more[|taken|].jobs[id])
  {
    more, taken := Well(states, steps, j.kind, id, j, Picked(id));
    more, taken := Well(more, taken, j.kind, id, j, Loaded(id, j));
    more, taken := Well(more, taken, j.kind, id, j.(state := Validating), DoingValidation(id));
    more, taken := Well(more, taken, j.kind, id, j.(state := Staging), DoingStaging(id));
    more, taken := Well(more, taken, j.kind, id, j.(state := Publishing), DoingPublish(id));
  }

  lemma PublicationResumes(states: seq<State>, steps: seq<Step>, id: JobId, j: Job)
    returns (more: seq<State>, taken: seq<Step>)
    requires IsRun(states, steps) && At(states[|steps|], j.kind, id, j, Picked(id))
    requires j.kind.Import? && !j.dryRun && j.state.Publishing? && !j.cancel
    ensures GoesOnTo(steps, more, taken) && id in more[|taken|].jobs && EndsAs(j, more[|taken|].jobs[id])
  {
    more, taken := Well(states, steps, j.kind, id, j, Picked(id));
    more, taken := Well(more, taken, j.kind, id, j, Loaded(id, j));
    more, taken := Well(more, taken, j.kind, id, j, Resuming(id));
    more, taken := Well(more, taken, j.kind, id, j, DoingPublish(id));
  }

  /** A picked job is brought to its end. */
  lemma PickedEnds(states: seq<State>, steps: seq<Step>, id: JobId, j: Job)
    returns (more: seq<State>, taken: seq<Step>)
    requires IsRun(states, steps) && At(states[|steps|], j.kind, id, j, Picked(id)) && JobSound(j)
    requires j.state.Queued? || j.state.Publishing?
    ensures GoesOnTo(steps, more, taken) && id in more[|taken|].jobs && EndsAs(j, more[|taken|].jobs[id])
  {
    if j.cancel {
      more, taken := CanceledEnds(states, steps, id, j);
    } else if j.state.Publishing? {
      more, taken := PublicationResumes(states, steps, id, j);
    } else if j.kind.Export? {
      more, taken := ExportEnds(states, steps, id, j);
    } else if j.dryRun {
      more, taken := DryRunEnds(states, steps, id, j);
    } else {
      more, taken := ImportEnds(states, steps, id, j);
    }
  }

  /** The worker is at the work itself, not at a statement that looks at the job. */
  predicate AtWork(phase: Phase) {
    || phase.DoingExport? || phase.BuildingArtifact? || phase.DoingValidation? || phase.DoingStaging?
    || phase.DoingPublish?
  }

  /** Work that fails ends the job failed, whatever it was, unless it has ended otherwise since. */
  lemma FailureEnds(states: seq<State>, steps: seq<Step>, kind: Kind, id: JobId, j: Job, phase: Phase)
    returns (more: seq<State>, taken: seq<Step>)
    requires IsRun(states, steps) && At(states[|steps|], kind, id, j, phase) && AtWork(phase) && phase.id == id
    ensures GoesOnTo(steps, more, taken)
    ensures var end := if Terminal(j.state) then j else Job(j.kind, j.dryRun, Failed, j.cancel, true, j.published);
      At(more[|taken|], kind, id, end, Idle)
  {
    more, taken := Onward(states, steps, Work(kind, Badly));
    more, taken := Well(more, taken, kind, id, j, Failing(id));
    if !Terminal(j.state) { more, taken := Well(more, taken, kind, id, j, FailingForGood(id)); }
  }

  /** A cancel that was accepted under the worker ends the job canceled once the work goes on to its next
      statement. */
  lemma CancelEnds(states: seq<State>, steps: seq<Step>, kind: Kind, id: JobId, j: Job, phase: Phase)
    returns (more: seq<State>, taken: seq<Step>)
    requires IsRun(states, steps) && At(states[|steps|], kind, id, j, phase)
    requires j.cancel && j.state.Canceling? && !j.completed
    requires (phase.DoingValidation? || phase.DoingStaging? || phase.BuildingArtifact?) && phase.id == id
    ensures GoesOnTo(steps, more, taken)
    ensures At(more[|taken|], kind, id, Job(j.kind, j.dryRun, Canceled, true, true, j.published), Idle)
  {
    more, taken := Well(states, steps, kind, id, j, phase);
    if !phase.BuildingArtifact? && !(phase.DoingValidation? && j.dryRun) {
      more, taken := Well(more, taken, kind, id, j, Unclaimed(id));
    }
    more, taken := Well(more, taken, kind, id, j, CancelingJob(id));
  }

  // ---------------------------------------------------------------------------
  // Restarting
  // ---------------------------------------------------------------------------

  /** The program ends at any point and starts again: recovery handles the job, and the workers run. */
  lemma Restart(states: seq<State>, steps: seq<Step>, id: JobId) returns (more: seq<State>, taken: seq<Step>)
    requires IsRun(states, steps) && id in states[|steps|].jobs && !states[|steps|].jobs[id].completed
    ensures GoesOnTo(steps, more, taken)
    ensures var j := states[|steps|].jobs[id]; At(more[|taken|], j.kind, id, Recovered(j, j.kind, j.state), Idle)
  {
    var j := states[|steps|].jobs[id];
    more, taken := Onward(states, steps, Crash);
    more, taken := Onward(more, taken, BeginRecovery([(id, j.state)]));
    more, taken := Onward(more, taken, RecoverNext);
    more, taken := Onward(more, taken, StartWorkers);
    assert j.kind == Export || j.kind == Import;
  }

  /** What recovery makes of an unfinished job: one that was being received is canceled, a publication goes on, and
      any other is queued again. */
  lemma RecoveredExactly(j: Job)
    requires JobSound(j) && !j.completed
    ensures var r := Recovered(j, j.kind, j.state);
      && JobSound(r) && r.kind == j.kind && r.dryRun == j.dryRun && r.published == j.published
      && r.state == (if j.state.Receiving? then Canceled else if j.state.Publishing? then Publishing else Queued)
      && (r.cancel <==> j.cancel || j.state.Receiving?)
  {
  }

  /** From every reachable state, whoever has it in hand, an unfinished job can be brought to its end by a restart and
      a worker that meets no error: canceled if that was asked for or its artifact was not received, and succeeded
      otherwise, an import that is no dry run with its publication. */
  lemma RestartFinishes(states: seq<State>, steps: seq<Step>, id: JobId) returns (more: seq<State>, taken: seq<Step>)
    requires IsRun(states, steps) && id in states[|steps|].jobs && !states[|steps|].jobs[id].completed
    ensures GoesOnTo(steps, more, taken) && id in more[|taken|].jobs
    ensures var j, end := states[|steps|].jobs[id], more[|taken|].jobs[id];
      if j.state.Receiving? then end.state.Canceled? && end.published == 0 else EndsAs(j, end)
  {
    var j := states[|steps|].jobs[id];
    RunSound(states, steps, |steps|);
    assert JobSound(j);
    RecoveredExactly(j);
    more, taken := Restart(states, steps, id);
    if !j.state.Receiving? {
      var r := Recovered(j, j.kind, j.state);
      more, taken := Onward(more, taken, Work(j.kind, Pick(id)));
      more, taken := PickedEnds(more, taken, id, r);
    }
  }
}
