/** What every run of the backup jobs keeps. */
module BackupJobProofs {
  import opened BackupJobs

  // ---------------------------------------------------------------------------
  // The invariant
  // ---------------------------------------------------------------------------

  predicate JobSound(j: Job) {
    && (j.completed <==> Terminal(j.state))
    && j.published <= 1 && (j.published == 1 ==> Terminal(j.state) && j.kind.Import? && !j.dryRun)
    && (j.state.Publishing? || j.state.Succeeded? ==> !j.cancel)
    && (j.state.Canceling? || j.state.Canceled? ==> j.cancel)
    && (j.state.Staging? || j.state.Publishing? ==> j.kind.Import? && !j.dryRun)
    && (j.state.Snapshotting? || j.state.Building? ==> j.kind.Export?)
    && (j.state.Validating? || j.state.Receiving? ==> j.kind.Import?)
  }

  /** The job is in the state its worker put it in, or a cancel has been requested since. */
  predicate Claimed(j: Job, state: JobState) {
    j.state == state || j.state.Canceling?
  }

  /** A request is still receiving the artifact of the job. */
  predicate StillReceiving(j: Job) {
    && j.kind.Import? && j.published == 0
    && (j.state.Receiving? || (j.cancel && (j.state.Canceling? || j.state.Queued? || j.state.Canceled?)))
  }

  /** The request that received the job has canceled it under the worker. */
  predicate Dropped(j: Job, dropping: bool) {
    j.kind.Import? && j.state.Canceled? && !dropping
  }

  /** What a worker relies on, in each phase, of the job it handles. */
  predicate PhaseSound(j: Job, receiving: bool, dropping: bool, phase: Phase) {
    && (phase.Idle? || phase.Failing? || phase.FailingForGood? || j.published == 0)
    && match phase
    case Idle => true
    case Picked(_) => j.state.Queued? || j.state.Canceling? || j.state.Publishing? || j.state.Canceled?
    case Loaded(_, snapshot) =>
      if snapshot.state.Canceling? || snapshot.cancel then j.cancel && !j.state.Failed? && !j.state.Succeeded?
      else snapshot.kind == j.kind && !receiving
           && (if snapshot.state.Publishing? then Dropped(j, dropping) || j.state.Publishing?
               else snapshot.state.Queued? && (Dropped(j, dropping) || Claimed(j, Queued)))
    case Resuming(_) => !receiving && (Dropped(j, dropping) || j.state.Publishing?)
    case DoingExport(_) => !receiving && Claimed(j, Snapshotting) && j.kind.Export?
    case BuildingArtifact(_) => !receiving && Claimed(j, Building) && j.kind.Export?
    case DoingValidation(_) => !receiving && (Dropped(j, dropping) || Claimed(j, Validating)) && j.kind.Import?
    case DoingStaging(_) =>
      !receiving && (Dropped(j, dropping) || Claimed(j, Staging)) && j.kind.Import? && !j.dryRun
    case DoingPublish(_) => !receiving && (Dropped(j, dropping) || j.state.Publishing?)
    case Unclaimed(_) => !receiving && (Dropped(j, dropping) || !j.completed)
    case Failing(_) => !receiving && (Dropped(j, dropping) || !j.completed || j.state.Succeeded?)
    case FailingForGood(_) => !receiving && (Dropped(j, dropping) || !j.completed || j.state.Succeeded?)
    case CancelingJob(_) => !j.state.Failed? && !j.state.Succeeded? && !j.state.Publishing?
  }

  /** The row of a job that a request, a worker or recovery has in hand may have been removed. */
  predicate Removed(jobs: Jobs, gone: set<JobId>, id: JobId) {
    id !in jobs && id in gone
  }

  predicate WorkerSound(s: State, kind: Kind, phase: Phase) {
    || phase.Idle? || (MayFindNothing(phase) && Removed(s.jobs, s.gone, phase.id))
    || (phase.id in s.jobs && s.jobs[phase.id].kind == kind
        && PhaseSound(s.jobs[phase.id], phase.id in s.receiving, phase.id in s.dropping, phase))
  }

  /** What recovery relies on of a job it has read and not handled yet. */
  predicate ItemSound(s: State, item: (JobId, JobState)) {
    || Removed(s.jobs, s.gone, item.0)
    || (item.0 in s.jobs && !s.jobs[item.0].state.Failed? && !s.jobs[item.0].state.Succeeded?
        && (item.1.Staging? ==>
              item.0 !in s.receiving + s.dropping && !s.jobs[item.0].completed && s.jobs[item.0].kind.Import?)
        && (item.1.Receiving? ==> !s.jobs[item.0].state.Publishing?)
        && (item.0 in s.receiving ==> item.1.Receiving? || s.jobs[item.0].cancel))
  }

  ghost predicate WorkersSound(s: State) {
    && s.worker.Keys == {Export, Import}
    && (forall kind :: kind in s.worker ==> WorkerSound(s, kind, s.worker[kind]))
    && (!s.running ==> forall kind :: kind in s.worker ==> s.worker[kind].Idle?)
  }

  ghost predicate RecoverySound(s: State) {
    && (s.running ==> s.recovering == []) && DistinctJobs(s.recovering)
    && (forall i :: 0 <= i < |s.recovering| ==> ItemSound(s, s.recovering[i]))
  }

  /** A job that its request is about to cancel; before workers run nothing has become of it. */
  predicate DroppingSound(s: State, id: JobId) {
    && id !in s.receiving
    && (Removed(s.jobs, s.gone, id)
        || (id in s.jobs && s.jobs[id].kind.Import? && !s.jobs[id].state.Receiving?
            && (!s.running ==> s.jobs[id].state.Queued? || s.jobs[id].state.Canceling? || s.jobs[id].state.Canceled?)))
  }

  ghost predicate JobsSound(s: State) {
    && (forall id :: id in s.dropping ==> DroppingSound(s, id))
    && (forall id :: id in s.jobs ==> JobSound(s.jobs[id]) && id !in s.gone)
    && (forall id :: id in s.receiving ==> Removed(s.jobs, s.gone, id) || (id in s.jobs && StillReceiving(s.jobs[id])))
  }

  ghost predicate Sound(s: State) {
    JobsSound(s) && WorkersSound(s) && RecoverySound(s)
  }

  // ---------------------------------------------------------------------------
  // Changing one job
  // ---------------------------------------------------------------------------

  /** A worker moves on with its job. */
  lemma WorkerMoves(s: State, kind: Kind, id: JobId, j: Job, phase: Phase)
    requires Sound(s) && s.running && kind in s.worker && !s.worker[kind].Idle? && s.worker[kind].id == id
    requires id in s.jobs && j.kind == s.jobs[id].kind && JobSound(j)
    requires (id in s.receiving ==> StillReceiving(j)) && (j.state.Receiving? ==> s.jobs[id].state.Receiving?)
    requires phase.Idle? || (phase.id == id && PhaseSound(j, id in s.receiving, id in s.dropping, phase))
    ensures Sound(To(s.(jobs := s.jobs[id := j]), kind, phase))
  {
    var u := To(s.(jobs := s.jobs[id := j]), kind, phase);
    assert WorkerSound(s, kind, s.worker[kind]);
    forall k | k in u.worker ensures WorkerSound(u, k, u.worker[k]) {
      assert WorkerSound(s, k, s.worker[k]);
    }
    forall o | o in u.dropping ensures DroppingSound(u, o) {
      assert DroppingSound(s, o);
    }
  }

  lemma WorkerWaits(s: State, kind: Kind, phase: Phase)
    requires Sound(s) && s.running && kind in s.worker
    requires WorkerSound(s, kind, phase)
    ensures Sound(To(s, kind, phase))
  {
  }

  /** A request changes a job under the workers. */
  predicate Tolerated(was: Job, j: Job) {
    && j.kind == was.kind && j.dryRun == was.dryRun && j.published == was.published
    && (was.state.Publishing? ==> j == was)
    && (was.completed ==> j.state == was.state && j.completed) && (was.cancel ==> j.cancel)
    && (j != was ==> j.state.Canceling? || (was.state.Receiving? && j.state.Queued?) || j.state.Canceled?)
  }

  lemma PhaseTolerates(was: Job, j: Job, receiving: bool, dropping: bool, still: bool, drops: bool, phase: Phase)
    requires PhaseSound(was, receiving, dropping, phase) && JobSound(was)
    requires JobSound(j) && Tolerated(was, j) && (still ==> receiving) && (drops != dropping ==> receiving)
    requires j.state.Canceled? ==> receiving && StillReceiving(was)
    requires receiving ==> StillReceiving(was)
    ensures PhaseSound(j, still, drops, phase)
  {
  }

  /** What a request hands over: the job is received, or is to be dropped. */
  predicate Released(s: State, id: JobId, receiving: set<JobId>, dropping: set<JobId>) {
    && (receiving == s.receiving || receiving == s.receiving - {id})
    && (dropping == s.dropping || (dropping == s.dropping + {id} && id in s.receiving && id !in receiving))
  }

  lemma RequestSound(s: State, id: JobId, j: Job, receiving: set<JobId>, dropping: set<JobId>)
    requires Sound(s) && id in s.jobs && JobSound(j) && Tolerated(s.jobs[id], j) && Released(s, id, receiving, dropping)
    requires id in receiving ==> StillReceiving(j)
    requires id in dropping ==> !j.state.Receiving?
    requires j.state.Canceled? ==> id in s.receiving
    ensures Sound(s.(jobs := s.jobs[id := j], receiving := receiving, dropping := dropping))
  {
    var u := s.(jobs := s.jobs[id := j], receiving := receiving, dropping := dropping);
    forall k | k in u.worker ensures WorkerSound(u, k, u.worker[k]) {
      assert WorkerSound(s, k, s.worker[k]);
      if !u.worker[k].Idle? && u.worker[k].id == id {
        var was, phase := s.jobs[id], u.worker[k];
        PhaseTolerates(was, j, id in s.receiving, id in s.dropping, id in receiving, id in dropping, phase);
      }
    }
    forall o | o in u.dropping ensures DroppingSound(u, o) {
      if o in s.dropping { assert DroppingSound(s, o); }
    }
    forall i | 0 <= i < |u.recovering| ensures ItemSound(u, u.recovering[i]) {
      assert ItemSound(s, s.recovering[i]);
    }
  }

  // ---------------------------------------------------------------------------
  // Every step keeps the invariant
  // ---------------------------------------------------------------------------

  lemma CancelSound(s: State, id: JobId)
    requires Sound(s)
    ensures Sound(s.(jobs := RequestCancel(s.jobs, id)))
  {
    if id in s.jobs && !Terminal(s.jobs[id].state) && !s.jobs[id].completed && !s.jobs[id].state.Publishing? {
      RequestSound(s, id, s.jobs[id].(cancel := true, state := Canceling), s.receiving, s.dropping);
    }
  }

  lemma ReceiverSound(s: State, id: JobId)
    requires Sound(s) && id in s.receiving
    ensures Sound(s.(jobs := FinishJob(s.jobs, id, Canceled), receiving := s.receiving - {id}))
    ensures id in s.jobs && s.jobs[id].state.Receiving? ==>
      Sound(s.(jobs := s.jobs[id := s.jobs[id].(state := Queued)], receiving := s.receiving - {id}))
  {
    if id in s.jobs {
      var canceled := s.jobs[id].(state := Canceled, completed := true, cancel := true);
      RequestSound(s, id, canceled, s.receiving - {id}, s.dropping);
      if s.jobs[id].state.Receiving? {
        RequestSound(s, id, s.jobs[id].(state := Queued), s.receiving - {id}, s.dropping);
      }
    } else {
      RemovedReceiver(s, id, s.dropping);
    }
  }

  lemma QueueUnsureSound(s: State, id: JobId)
    requires Sound(s) && id in s.receiving
    ensures Sound(Apply(s, QueueUnsure(id)))
  {
    if id in s.jobs {
      var j := if s.jobs[id].state.Receiving? then s.jobs[id].(state := Queued) else s.jobs[id];
      RequestSound(s, id, j, s.receiving - {id}, s.dropping + {id});
      assert s.jobs[id := s.jobs[id]] == s.jobs;
    } else {
      RemovedReceiver(s, id, s.dropping + {id});
    }
  }

  /** Whatever a worker is doing with the job, it tolerates that its request cancels it. */
  lemma PhaseDropped(j: Job, phase: Phase)
    requires JobSound(j) && PhaseSound(j, false, true, phase) && j.kind.Import?
    ensures PhaseSound(Finished(j, Canceled), false, false, phase)
  {
  }

  lemma DropSound(s: State, id: JobId)
    requires Sound(s) && id in s.dropping
    ensures Sound(Apply(s, DropReceived(id)))
  {
    var u := Apply(s, DropReceived(id));
    assert DroppingSound(s, id);
    forall k | k in u.worker ensures WorkerSound(u, k, u.worker[k]) {
      assert WorkerSound(s, k, s.worker[k]);
      if !u.worker[k].Idle? && u.worker[k].id == id && id in s.jobs { PhaseDropped(s.jobs[id], u.worker[k]); }
    }
    forall o | o in u.dropping ensures DroppingSound(u, o) {
      assert DroppingSound(s, o);
    }
    forall i | 0 <= i < |u.recovering| ensures ItemSound(u, u.recovering[i]) {
      assert ItemSound(s, s.recovering[i]);
    }
  }

  lemma PhaseLeft(j: Job, receiving: bool, dropping: bool, phase: Phase)
    requires PhaseSound(j, receiving, dropping, phase)
    ensures PhaseSound(j, false, false, phase)
  {
  }

  /** A request that ends without a word leaves the job to the next recovery. */
  lemma RequestEndsSound(s: State, id: JobId)
    requires Sound(s)
    ensures Sound(s.(receiving := s.receiving - {id}, dropping := s.dropping - {id}))
  {
    var u := s.(receiving := s.receiving - {id}, dropping := s.dropping - {id});
    forall k | k in u.worker ensures WorkerSound(u, k, u.worker[k]) {
      var phase := s.worker[k];
      assert WorkerSound(s, k, phase);
      if !phase.Idle? && phase.id == id && id in s.jobs {
        PhaseLeft(s.jobs[id], id in s.receiving, id in s.dropping, phase);
      }
    }
    forall o | o in u.dropping ensures DroppingSound(u, o) {
      assert DroppingSound(s, o);
    }
    forall i | 0 <= i < |u.recovering| ensures ItemSound(u, u.recovering[i]) {
      assert ItemSound(s, s.recovering[i]);
    }
  }

  lemma RemovedReceiver(s: State, id: JobId, dropping: set<JobId>)
    requires Sound(s) && id in s.receiving && id !in s.jobs && (dropping == s.dropping || dropping == s.dropping + {id})
    ensures Sound(s.(receiving := s.receiving - {id}, dropping := dropping))
  {
    var u := s.(receiving := s.receiving - {id}, dropping := dropping);
    forall o | o in u.dropping ensures DroppingSound(u, o) {
      if o in s.dropping { assert DroppingSound(s, o); }
    }
    forall k | k in u.worker ensures WorkerSound(u, k, u.worker[k]) {
      assert WorkerSound(s, k, s.worker[k]);
    }
    forall i | 0 <= i < |u.recovering| ensures ItemSound(u, u.recovering[i]) {
      assert ItemSound(s, s.recovering[i]);
    }
  }

  /** Retention removes the row of a finished job, whoever has it in hand. */
  lemma RetainSound(s: State, id: JobId)
    requires Sound(s) && id in s.jobs && s.jobs[id].completed
    ensures Sound(s.(jobs := s.jobs - {id}, gone := s.gone + {id}))
  {
    var u := s.(jobs := s.jobs - {id}, gone := s.gone + {id});
    forall o | o in u.dropping ensures DroppingSound(u, o) {
      assert DroppingSound(s, o);
    }
    forall k | k in u.worker ensures WorkerSound(u, k, u.worker[k]) {
      assert WorkerSound(s, k, s.worker[k]);
    }
    forall i | 0 <= i < |u.recovering| ensures ItemSound(u, u.recovering[i]) {
      assert ItemSound(s, s.recovering[i]);
    }
  }

  lemma CreateSound(s: State, id: JobId, j: Job, receiving: set<JobId>)
    requires Sound(s) && id !in s.jobs && id !in s.gone && JobSound(j)
    requires receiving == s.receiving || (receiving == s.receiving + {id} && StillReceiving(j))
    ensures Sound(s.(jobs := s.jobs[id := j], receiving := receiving))
  {
    var u := s.(jobs := s.jobs[id := j], receiving := receiving);
    forall o | o in u.dropping ensures DroppingSound(u, o) {
      assert DroppingSound(s, o);
    }
    forall k | k in u.worker ensures WorkerSound(u, k, u.worker[k]) {
      assert WorkerSound(s, k, s.worker[k]);
    }
    forall i | 0 <= i < |u.recovering| ensures ItemSound(u, u.recovering[i]) {
      assert ItemSound(s, s.recovering[i]);
    }
  }

  /** A statement of a worker keeps the job and the worker's reliance on it sound. */
  /** What a worker leaves is sound for where it goes on. */
  predicate MovedSound(j: Job, receiving: bool, dropping: bool, phase: Phase, m: Moved)
    requires !phase.Idle?
  {
    && JobSound(m.job) && m.job.kind == j.kind && (receiving ==> StillReceiving(m.job))
    && (m.job.state.Receiving? ==> j.state.Receiving?)
    && (m.phase.Idle? || (m.phase.id == phase.id && PhaseSound(m.job, receiving, dropping, m.phase)))
  }

  lemma LoadedSound(j: Job, receiving: bool, dropping: bool, phase: Phase, choice: Choice)
    requires JobSound(j) && PhaseSound(j, receiving, dropping, phase) && phase.Loaded? && !choice.SeesCancel?
    requires receiving ==> StillReceiving(j)
    ensures MovedSound(j, receiving, dropping, phase, WorkOn(j, phase, choice))
  {
  }

  /** The phases that end in a transition of an import. */
  predicate Importing(phase: Phase) {
    phase.DoingValidation? || phase.DoingStaging?
  }

  lemma ImportingSound(j: Job, receiving: bool, dropping: bool, phase: Phase, choice: Choice)
    requires JobSound(j) && PhaseSound(j, receiving, dropping, phase) && Importing(phase)
    requires receiving ==> StillReceiving(j)
    requires choice.SeesCancel? ==> phase.DoingStaging? && j.cancel
    ensures MovedSound(j, receiving, dropping, phase, WorkOn(j, phase, choice))
  {
  }

  lemma WorkOnSound(j: Job, receiving: bool, dropping: bool, phase: Phase, choice: Choice)
    requires JobSound(j) && PhaseSound(j, receiving, dropping, phase) && !phase.Idle?
    requires receiving ==> StillReceiving(j)
    requires choice.SeesCancel? ==> (phase.DoingStaging? || phase.BuildingArtifact?) && j.cancel
    ensures MovedSound(j, receiving, dropping, phase, WorkOn(j, phase, choice))
  {
    if Importing(phase) {
      ImportingSound(j, receiving, dropping, phase, choice);
    } else if phase.Loaded? {
      LoadedSound(j, receiving, dropping, phase, choice);
    }
  }

  lemma WorkSound(s: State, kind: Kind, choice: Choice)
    requires Sound(s) && Enabled(s, Work(kind, choice))
    ensures Sound(WorkStep(s, kind, choice))
  {
    var phase := s.worker[kind];
    assert WorkerSound(s, kind, phase);
    if phase.Idle? {
      assert JobSound(s.jobs[choice.id]);
      WorkerWaits(s, kind, Picked(choice.id));
    } else if phase.id !in s.jobs {
      WorkerWaits(s, kind, WorkOnNothing(phase, choice));
    } else {
      var j, receiving := s.jobs[phase.id], phase.id in s.receiving;
      assert JobSound(j) && (receiving ==> StillReceiving(j));
      WorkOnSound(j, receiving, phase.id in s.dropping, phase, choice);
      WorkerMoves(s, kind, phase.id, WorkOn(j, phase, choice).job, WorkOn(j, phase, choice).phase);
    }
  }

  /** Recovery handles a job while no worker runs. */
  lemma RecoverSound(s: State)
    requires Sound(s) && !s.running && s.recovering != []
    ensures Sound(Apply(s, RecoverNext))
  {
    var item := s.recovering[0];
    var id := item.0;
    assert ItemSound(s, item);
    if id in s.jobs {
      assert JobSound(s.jobs[id]) && (id in s.receiving ==> StillReceiving(s.jobs[id]));
      RecoveredSound(s.jobs[id], id in s.receiving, item.1);
    }
    var u := Apply(s, RecoverNext);
    forall o | o in u.dropping ensures DroppingSound(u, o) {
      assert DroppingSound(s, o);
    }
    forall i | 0 <= i < |u.recovering| ensures ItemSound(u, u.recovering[i]) {
      assert u.recovering[i] == s.recovering[i + 1];
      assert ItemSound(s, s.recovering[i + 1]);
    }
  }

  lemma RecoveredSound(j: Job, receiving: bool, read: JobState)
    requires JobSound(j) && !j.state.Failed? && !j.state.Succeeded? && (receiving ==> StillReceiving(j))
    requires read.Staging? ==> !receiving && !j.completed && j.kind.Import?
    requires read.Receiving? ==> !j.state.Publishing?
    requires receiving ==> read.Receiving? || j.cancel
    ensures var k := Recovered(j, j.kind, read);
      && JobSound(k) && k.kind == j.kind && k.published == j.published && (receiving ==> StillReceiving(k))
      && FinalJob(j, k)
  {
  }

  lemma StepSound(s: State, step: Step)
    requires Sound(s) && Enabled(s, step)
    ensures Sound(Apply(s, step))
  {
    match step
    case CreateExport(id) => CreateSound(s, id, Job(Export, false, Queued, false, false, 0), s.receiving);
    case CreateImport(id, dryRun) =>
      CreateSound(s, id, Job(Import, dryRun, Receiving, false, false, 0), s.receiving + {id});
    case QueueReceived(id) => ReceiverSound(s, id);
    case ReceiveFails(id) => ReceiverSound(s, id);
    case QueueUnsure(id) => QueueUnsureSound(s, id);
    case DropReceived(id) => DropSound(s, id);
    case RequestEnds(id) => RequestEndsSound(s, id);
    case Cancel(id) => CancelSound(s, id);
    case Work(kind, choice) => WorkSound(s, kind, choice);
    case RecoverNext => RecoverSound(s);
    case Retain(id) => RetainSound(s, id);
    case _ =>
  }

  // ---------------------------------------------------------------------------
  // Whole runs
  // ---------------------------------------------------------------------------

  ghost predicate IsRun(states: seq<State>, steps: seq<Step>) {
    && |states| == |steps| + 1 && states[0] == Initial
    && forall i {:trigger StepAt(states, steps, i)} :: 0 <= i < |steps| ==> StepAt(states, steps, i)
  }

  ghost predicate StepAt(states: seq<State>, steps: seq<Step>, i: int)
    requires 0 <= i < |steps| && |states| == |steps| + 1
  {
    Enabled(states[i], steps[i]) && states[i + 1] == Apply(states[i], steps[i])
  }

  lemma {:induction false} RunSound(states: seq<State>, steps: seq<Step>, i: nat)
    requires IsRun(states, steps) && i < |states|
    ensures Sound(states[i])
  {
    if i > 0 {
      RunSound(states, steps, i - 1);
      assert StepAt(states, steps, i - 1);
      StepSound(states[i - 1], steps[i - 1]);
    }
  }

  /** In every reachable state an import was published at most once, and only if it is finished and was
      no dry run; a job that publishes or has succeeded was never asked to cancel. */
  lemma PublishedOnce(states: seq<State>, steps: seq<Step>, i: nat, id: JobId)
    requires IsRun(states, steps) && i < |states| && id in states[i].jobs
    ensures var j := states[i].jobs[id];
      && j.published <= 1
      && (j.published == 1 ==> j.kind.Import? && !j.dryRun && Terminal(j.state))
      && (j.state.Publishing? || j.state.Succeeded? ==> !j.cancel)
      && (Terminal(j.state) <==> j.completed)
  {
    RunSound(states, steps, i);
  }

  // ---------------------------------------------------------------------------
  // What becomes of a finished job
  // ---------------------------------------------------------------------------

  /** The worker marks as failed a job that has come to another end. */
  predicate MarksFailed(s: State, step: Step, id: JobId) {
    && step.Work? && step.kind in s.worker && s.worker[step.kind] == FailingForGood(id) && !step.choice.Badly?
    && id in s.jobs && (s.jobs[id].state.Succeeded? || s.jobs[id].state.Canceled?)
  }

  /** The request that received a job cancels it though it has come to another end. */
  predicate Drops(s: State, step: Step, id: JobId) {
    step == DropReceived(id) && id in s.jobs && (s.jobs[id].state.Succeeded? || s.jobs[id].state.Failed?)
  }

  predicate Overturns(s: State, step: Step, id: JobId) {
    MarksFailed(s, step, id) || Drops(s, step, id)
  }

  /** A job keeps what it is, and its end if it has come to one. */
  predicate FinalJob(j: Job, k: Job) {
    && k.kind == j.kind && k.dryRun == j.dryRun && j.published <= k.published && (j.cancel ==> k.cancel)
    && (Terminal(j.state) ==> k.state == j.state && k.published == j.published)
  }

  /** What a step makes of a job: its row goes once it is finished, it is overturned, or it is final. */
  ghost predicate StepKeepsJob(s: State, u: State, step: Step, id: JobId) {
    id in s.jobs ==>
      if id !in u.jobs then id in u.gone && s.jobs[id].completed
      else if MarksFailed(s, step, id) then u.jobs[id] == s.jobs[id].(state := Failed)
      else if Drops(s, step, id) then u.jobs[id] == s.jobs[id].(state := Canceled, cancel := true)
      else FinalJob(s.jobs[id], u.jobs[id])
  }

  /** A statement of a worker ends a job at most once, but for the one that marks it failed. */
  lemma WorkOnFinal(j: Job, receiving: bool, dropping: bool, phase: Phase, choice: Choice)
    requires JobSound(j) && PhaseSound(j, receiving, dropping, phase)
    ensures var k := WorkOn(j, phase, choice).job;
      if phase.FailingForGood? && !choice.Badly? && (j.state.Succeeded? || j.state.Canceled?)
      then k == j.(state := Failed) else FinalJob(j, k)
  {
  }

  lemma WorkFinal(s: State, kind: Kind, choice: Choice, id: JobId)
    requires Sound(s) && kind in s.worker && id in s.jobs
    ensures StepKeepsJob(s, WorkStep(s, kind, choice), Work(kind, choice), id)
  {
    var phase := s.worker[kind];
    assert WorkerSound(s, kind, phase);
    if !phase.Idle? && phase.id == id {
      assert JobSound(s.jobs[id]);
      WorkOnFinal(s.jobs[id], id in s.receiving, id in s.dropping, phase, choice);
    }
  }

  lemma ReceiveFinal(s: State, step: Step, id: JobId)
    requires Sound(s) && Enabled(s, step) && id in s.jobs
    requires step.QueueReceived? || step.ReceiveFails? || step.QueueUnsure?
    ensures StepKeepsJob(s, Apply(s, step), step, id)
  {
    if step.id == id { assert StillReceiving(s.jobs[id]) && JobSound(s.jobs[id]); }
  }

  lemma DropFinal(s: State, id: JobId, o: JobId)
    requires Sound(s) && o in s.dropping && id in s.jobs
    ensures StepKeepsJob(s, Apply(s, DropReceived(o)), DropReceived(o), id)
  {
    assert JobSound(s.jobs[id]);
  }

  lemma RecoverFinal(s: State, id: JobId)
    requires Sound(s) && Enabled(s, RecoverNext) && id in s.jobs
    ensures StepKeepsJob(s, Apply(s, RecoverNext), RecoverNext, id)
  {
    var item := s.recovering[0];
    assert ItemSound(s, item);
    if id == item.0 {
      assert JobSound(s.jobs[id]) && (id in s.receiving ==> StillReceiving(s.jobs[id]));
      RecoveredSound(s.jobs[id], id in s.receiving, item.1);
    }
  }

  lemma StepFinal(s: State, step: Step, id: JobId)
    requires Sound(s) && Enabled(s, step) && id in s.jobs
    ensures StepKeepsJob(s, Apply(s, step), step, id)
  {
    match step
    case QueueReceived(_) => ReceiveFinal(s, step, id);
    case ReceiveFails(_) => ReceiveFinal(s, step, id);
    case QueueUnsure(_) => ReceiveFinal(s, step, id);
    case DropReceived(o) => DropFinal(s, id, o);
    case Work(kind, choice) => WorkFinal(s, kind, choice, id);
    case RecoverNext => RecoverFinal(s, id);
    case _ => assert JobSound(s.jobs[id]);
  }

  lemma GoneStays(s: State, step: Step)
    requires Enabled(s, step)
    ensures s.gone <= Apply(s, step).gone
  {
  }

  lemma RunStepFinal(states: seq<State>, steps: seq<Step>, i: nat, id: JobId)
    requires IsRun(states, steps) && i < |steps|
    ensures StepKeepsJob(states[i], states[i + 1], steps[i], id)
    ensures id in states[i].gone ==> id in states[i + 1].gone && id !in states[i + 1].jobs
  {
    RunSound(states, steps, i);
    RunSound(states, steps, i + 1);
    assert StepAt(states, steps, i);
    if id in states[i].jobs { StepFinal(states[i], steps[i], id); }
    GoneStays(states[i], steps[i]);
  }

  /** What may become of a job over any number of steps. */
  predicate Later(j: Job, k: Job) {
    && k.kind == j.kind && k.dryRun == j.dryRun && j.published <= k.published && (j.cancel ==> k.cancel)
    && (Terminal(j.state) ==>
         k.published == j.published && Terminal(k.state) && (k.state.Succeeded? ==> j.state.Succeeded?))
  }

  lemma {:induction false} RunLater(states: seq<State>, steps: seq<Step>, i: nat, j: nat, id: JobId)
    requires IsRun(states, steps) && i <= j < |states| && id in states[i].jobs
    ensures id in states[j].jobs ==> Later(states[i].jobs[id], states[j].jobs[id])
    ensures id !in states[j].jobs ==> id in states[j].gone
    decreases j
  {
    if i < j {
      RunLater(states, steps, i, j - 1, id);
      RunStepFinal(states, steps, j - 1, id);
    }
  }

  /** A job whose row is there now was there at every time since it was created. */
  lemma {:induction false} ThereBetween(states: seq<State>, steps: seq<Step>, i: nat, n: nat, j: nat, id: JobId)
    requires IsRun(states, steps) && i <= n <= j < |states| && id in states[i].jobs && id in states[j].jobs
    ensures id in states[n].jobs
    decreases j - n
  {
    if n < j {
      RunLater(states, steps, i, n, id);
      if id !in states[n].jobs { GoneForever(states, steps, n, j, id); }
    }
  }

  lemma {:induction false} GoneForever(states: seq<State>, steps: seq<Step>, i: nat, j: nat, id: JobId)
    requires IsRun(states, steps) && i <= j < |states| && id in states[i].gone && id !in states[i].jobs
    ensures id in states[j].gone && id !in states[j].jobs
    decreases j
  {
    if i < j {
      GoneForever(states, steps, i, j - 1, id);
      RunStepFinal(states, steps, j - 1, id);
    }
  }

  ghost predicate Overturned(states: seq<State>, steps: seq<Step>, i: nat, j: nat, id: JobId)
    requires i <= j <= |steps| <= |states|
  {
    exists n :: i <= n < j && Overturns(states[n], steps[n], id)
  }

  // ---------------------------------------------------------------------------
  // A job that was overturned does not come back to the end it had
  // ---------------------------------------------------------------------------

  /** No worker has the job in hand. */
  ghost predicate NoWorker(s: State, id: JobId) {
    forall kind :: kind in s.worker ==> s.worker[kind].Idle? || s.worker[kind].id != id
  }

  /** No request has the job in hand. */
  predicate NoRequest(s: State, id: JobId) {
    id !in s.receiving && id !in s.dropping
  }

  /** Of the two that can overturn a job which once had the end `a`, only one is left. */
  ghost predicate OneLeft(a: JobState, s: State, id: JobId) {
    && (a.Failed? ==> NoWorker(s, id))
    && (a.Canceled? && id in s.jobs && s.jobs[id].state.Failed? ==> NoRequest(s, id))
  }

  lemma FailedHasNoWorker(s: State, id: JobId)
    requires Sound(s) && id in s.jobs && s.jobs[id].state.Failed?
    ensures NoWorker(s, id)
  {
    forall kind | kind in s.worker ensures s.worker[kind].Idle? || s.worker[kind].id != id {
      assert WorkerSound(s, kind, s.worker[kind]) && JobSound(s.jobs[id]);
    }
  }

  lemma NoWorkerStays(s: State, step: Step, id: JobId)
    requires Enabled(s, step) && NoWorker(s, id) && id in s.jobs && Terminal(s.jobs[id].state)
    ensures NoWorker(Apply(s, step), id)
  {
    if step.Work? && !s.worker[step.kind].Idle? && s.worker[step.kind].id in s.jobs {
      WorkOnStays(s.jobs[s.worker[step.kind].id], s.worker[step.kind], step.choice);
    }
  }

  lemma WorkOnStays(j: Job, phase: Phase, choice: Choice)
    requires !phase.Idle?
    ensures WorkOn(j, phase, choice).phase.Idle? || WorkOn(j, phase, choice).phase.id == phase.id
  {
  }

  lemma NoRequestStays(s: State, step: Step, id: JobId)
    requires Enabled(s, step) && NoRequest(s, id) && id in s.jobs
    ensures NoRequest(Apply(s, step), id)
  {
  }

  lemma MarkedHasNoRequest(s: State, step: Step, id: JobId)
    requires Sound(s) && MarksFailed(s, step, id) && s.jobs[id].state.Canceled?
    ensures NoRequest(s, id)
  {
    assert WorkerSound(s, step.kind, s.worker[step.kind]) && JobSound(s.jobs[id]);
  }

  lemma OneLeftNext(a: JobState, s: State, step: Step, id: JobId)
    requires Sound(s) && Enabled(s, step) && id in s.jobs && id in Apply(s, step).jobs && Terminal(a)
    requires Terminal(s.jobs[id].state) && (s.jobs[id].state.Succeeded? ==> a.Succeeded?) && OneLeft(a, s, id)
    ensures OneLeft(a, Apply(s, step), id)
    ensures Overturns(s, step, id) ==> Apply(s, step).jobs[id].state != a
  {
    StepFinal(s, step, id);
    if a.Failed? { NoWorkerStays(s, step, id); }
    if a.Canceled? {
      if s.jobs[id].state.Failed? {
        NoRequestStays(s, step, id);
      } else if MarksFailed(s, step, id) {
        MarkedHasNoRequest(s, step, id);
        NoRequestStays(s, step, id);
      }
    }
  }

  lemma {:induction false} RunOneLeft(states: seq<State>, steps: seq<Step>, i: nat, j: nat, id: JobId)
    requires IsRun(states, steps) && i <= j < |states| && id in states[i].jobs && Terminal(states[i].jobs[id].state)
    requires id in states[j].jobs
    ensures OneLeft(states[i].jobs[id].state, states[j], id)
    decreases j
  {
    if i == j {
      RunSound(states, steps, i);
      if states[i].jobs[id].state.Failed? { FailedHasNoWorker(states[i], id); }
    } else {
      ThereBetween(states, steps, i, j - 1, j, id);
      RunOneLeft(states, steps, i, j - 1, id);
      StepNotBack(states, steps, i, j - 1, id);
    }
  }

  lemma StepNotBack(states: seq<State>, steps: seq<Step>, i: nat, n: nat, id: JobId)
    requires IsRun(states, steps) && i <= n < |steps| && id in states[i].jobs && Terminal(states[i].jobs[id].state)
    requires id in states[n].jobs && id in states[n + 1].jobs && OneLeft(states[i].jobs[id].state, states[n], id)
    ensures OneLeft(states[i].jobs[id].state, states[n + 1], id)
    ensures Overturns(states[n], steps[n], id) ==> states[n + 1].jobs[id].state != states[i].jobs[id].state
  {
    RunSound(states, steps, n);
    RunLater(states, steps, i, n, id);
    assert StepAt(states, steps, n);
    OneLeftNext(states[i].jobs[id].state, states[n], steps[n], id);
  }

  /** Over every run, with cancels, crashes, retention and errors at any statement, a finished job is not
      published again, and it has the end it had exactly if it was not overturned. */
  lemma {:induction false} TerminalForever(states: seq<State>, steps: seq<Step>, i: nat, j: nat, id: JobId)
    requires IsRun(states, steps) && i <= j < |states| && id in states[i].jobs && Terminal(states[i].jobs[id].state)
    requires id in states[j].jobs
    ensures states[j].jobs[id].published == states[i].jobs[id].published && Terminal(states[j].jobs[id].state)
    ensures states[j].jobs[id].state == states[i].jobs[id].state <==> !Overturned(states, steps, i, j, id)
    decreases j
  {
    RunLater(states, steps, i, j, id);
    if i < j {
      ThereBetween(states, steps, i, j - 1, j, id);
      TerminalForever(states, steps, i, j - 1, id);
      OverturnedNext(states, steps, i, j - 1, id);
      StepOverturns(states, steps, j - 1, id);
      RunOneLeft(states, steps, i, j - 1, id);
      StepNotBack(states, steps, i, j - 1, id);
    }
  }

  /** A finished job changes its end in a step exactly if the step overturns it. */
  lemma StepOverturns(states: seq<State>, steps: seq<Step>, n: nat, id: JobId)
    requires IsRun(states, steps) && n < |steps| && id in states[n].jobs && id in states[n + 1].jobs
    requires Terminal(states[n].jobs[id].state)
    ensures states[n + 1].jobs[id].state ==
      if MarksFailed(states[n], steps[n], id) then Failed
      else if Drops(states[n], steps[n], id) then Canceled
      else states[n].jobs[id].state
  {
    RunStepFinal(states, steps, n, id);
  }

  lemma OverturnedNext(states: seq<State>, steps: seq<Step>, i: nat, j: nat, id: JobId)
    requires i <= j < |steps| <= |states|
    ensures Overturned(states, steps, i, j + 1, id) <==>
      Overturned(states, steps, i, j, id) || Overturns(states[j], steps[j], id)
  {
  }

  /** A cancel is never forgotten: the job does not publish or succeed afterwards, and if it was not
      finished it is never published. */
  lemma CancelPrevails(states: seq<State>, steps: seq<Step>, i: nat, j: nat, id: JobId)
    requires IsRun(states, steps) && i <= j < |states| && id in states[i].jobs && states[i].jobs[id].cancel
    requires id in states[j].jobs
    ensures states[j].jobs[id].cancel && !states[j].jobs[id].state.Publishing? && !states[j].jobs[id].state.Succeeded?
    ensures states[j].jobs[id].published == states[i].jobs[id].published
    ensures !Terminal(states[i].jobs[id].state) ==> states[j].jobs[id].published == 0
    decreases j
  {
    RunSound(states, steps, i);
    RunSound(states, steps, j);
    RunLater(states, steps, i, j, id);
    if i < j {
      ThereBetween(states, steps, i, j - 1, j, id);
      CancelPrevails(states, steps, i, j - 1, id);
      CanceledNotPublished(states, steps, j - 1, id);
    }
  }

  lemma CanceledNotPublished(states: seq<State>, steps: seq<Step>, n: nat, id: JobId)
    requires IsRun(states, steps) && n < |steps| && id in states[n].jobs && id in states[n + 1].jobs
    requires states[n].jobs[id].cancel
    ensures states[n + 1].jobs[id].published == states[n].jobs[id].published
  {
    RunSound(states, steps, n);
    assert StepAt(states, steps, n) && JobSound(states[n].jobs[id]);
    OnlyWorkPublishes(states[n], steps[n], id);
  }

  /** A job that is asked to cancel is not published. */
  lemma OnlyWorkPublishes(s: State, step: Step, id: JobId)
    requires Sound(s) && Enabled(s, step) && id in s.jobs && id in Apply(s, step).jobs && s.jobs[id].cancel
    ensures Apply(s, step).jobs[id].published == s.jobs[id].published
  {
    assert JobSound(s.jobs[id]);
    match step
    case Work(kind, choice) => WorkKeepsCanceled(s, kind, choice, id);
    case _ =>
  }

  lemma WorkKeepsCanceled(s: State, kind: Kind, choice: Choice, id: JobId)
    requires Sound(s) && Enabled(s, Work(kind, choice)) && id in s.jobs && s.jobs[id].cancel
    ensures WorkStep(s, kind, choice).jobs[id].published == s.jobs[id].published
  {
    assert WorkerSound(s, kind, s.worker[kind]) && JobSound(s.jobs[id]);
  }
}
