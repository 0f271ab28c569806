/** Backup jobs (backupmgr/manager.go and the publish transaction of filemgr/backup.go): requests,
    one worker per kind, crashes at any step, recovery and retention.  Every statement on the job table
    is one step, so a cancel or a crash can come between any two of them, and a statement of a worker or
    the one that queues an import may report an error whether it was applied or not. */
module BackupJobs {

  type JobId = nat

  datatype Kind = Export | Import

  datatype JobState =
    | Receiving | Queued | Snapshotting | Building | Validating | Staging | Publishing | Canceling
    | Succeeded | Failed | Canceled

  /** A row of the job table; `published` counts how often its mappings were published. */
  datatype Job = Job(kind: Kind, dryRun: bool, state: JobState, cancel: bool, completed: bool, published: nat)

  type Jobs = map<JobId, Job>

  predicate Terminal(s: JobState) {
    s.Succeeded? || s.Failed? || s.Canceled?
  }

  /** What a worker is doing between two statements. */
  datatype Phase =
    | Idle
    | Picked(id: JobId)
    | Loaded(id: JobId, snapshot: Job)
    | Resuming(id: JobId)
    | DoingExport(id: JobId)
    | BuildingArtifact(id: JobId)
    | DoingValidation(id: JobId)
    | DoingStaging(id: JobId)
    | DoingPublish(id: JobId)
    | Unclaimed(id: JobId)
    | Failing(id: JobId)
    | FailingForGood(id: JobId)
    | CancelingJob(id: JobId)

  /** `receiving` are the imports whose artifact a request is still receiving, and `dropping` those whose
      request was told that they could not be queued and is about to cancel them; `recovering` lists
      the jobs that recovery has read and not handled yet, and `gone` the finished jobs whose rows have
      been removed. */
  datatype State = State(jobs: Jobs, worker: map<Kind, Phase>, receiving: set<JobId>, dropping: set<JobId>,
                         running: bool, recovering: seq<(JobId, JobState)>, gone: set<JobId>)

  const NoWorkers: map<Kind, Phase> := map[Export := Idle, Import := Idle]
  const Initial := State(map[], NoWorkers, {}, {}, false, [], {})

  // ---------------------------------------------------------------------------
  // The statements
  // ---------------------------------------------------------------------------

  /** Cancel: not once the job is completed or publishing. */
  function RequestCancel(jobs: Jobs, id: JobId): Jobs {
    if id in jobs && !Terminal(jobs[id].state) && !jobs[id].completed && !jobs[id].state.Publishing?
    then jobs[id := jobs[id].(cancel := true, state := Canceling)] else jobs
  }

  /** The guard of transitionState. */
  predicate Claimable(j: Job, from: JobState) {
    j.state == from && !j.completed && !j.cancel
  }

  /** finishJob, which asks for no state. */
  function Finished(j: Job, state: JobState): Job {
    j.(state := state, completed := true, cancel := if state.Canceled? then true else j.cancel)
  }

  function FinishJob(jobs: Jobs, id: JobId, state: JobState): Jobs {
    if id !in jobs then jobs else jobs[id := Finished(jobs[id], state)]
  }

  /** The guard of finishSuccessfulJob, and of completeExport with its state. */
  predicate MaySucceed(j: Job, building: bool) {
    !j.cancel && (if building then j.state.Building? else !j.completed)
  }

  /** The publish transaction: mappings and the final state together, or nothing. */
  predicate MayPublish(j: Job) {
    j.kind.Import? && j.state.Publishing?
  }

  function Published(j: Job): Job {
    Finished(j, Succeeded).(published := j.published + 1)
  }

  /** resetState. */
  function Reset(j: Job): Job {
    if j.completed then j else j.(state := Queued)
  }

  /** recoverJob on what recovery read of the job; resetStagedImport asks for no state. */
  function Recovered(j: Job, kind: Kind, read: JobState): Job {
    if read.Receiving? then Finished(j, Canceled)
    else if kind.Export? then Reset(j)
    else if read.Publishing? then j
    else if read.Staging? then j.(state := Queued)
    else Reset(j)
  }

  function RecoverJob(jobs: Jobs, id: JobId, kind: Kind, read: JobState): Jobs {
    if id in jobs then jobs[id := Recovered(jobs[id], kind, read)] else jobs
  }

  // ---------------------------------------------------------------------------
  // The steps
  // ---------------------------------------------------------------------------

  datatype Step =
    | CreateExport(id: JobId)
    | CreateImport(id: JobId, dryRun: bool)
    | QueueReceived(id: JobId)
    | ReceiveFails(id: JobId)
    | QueueUnsure(id: JobId)
    | DropReceived(id: JobId)
    | RequestEnds(id: JobId)
    | Cancel(id: JobId)
    | Work(kind: Kind, choice: Choice)
    | Crash
    | BeginRecovery(items: seq<(JobId, JobState)>)
    | RecoverNext
    | StartWorkers
    | Retain(id: JobId)

  /** What the environment decides for a worker: which job it picks; whether its work or statement goes
      well, fails, or is applied and reports an error nevertheless; whether it sees a cancel; whether a
      failure is one that leaves the job as it is. */
  datatype Choice = Pick(id: JobId) | Well | Badly | Unsure | SeesCancel | Abandons

  predicate Pickable(j: Job, kind: Kind) {
    j.kind == kind && (j.state.Queued? || j.state.Canceling? || j.state.Publishing?)
  }

  predicate Enabled(s: State, step: Step) {
    match step
    case CreateExport(id) => id !in s.jobs && id !in s.gone
    case CreateImport(id, _) => id !in s.jobs && id !in s.gone
    case QueueReceived(id) => id in s.receiving
    case ReceiveFails(id) => id in s.receiving
    case QueueUnsure(id) => id in s.receiving
    case DropReceived(id) => id in s.dropping
    case RequestEnds(id) => id in s.receiving + s.dropping
    case Cancel(_) => true
    case Work(kind, choice) => s.running && kind in s.worker && CanWork(s, kind, choice)
    case Crash => true
    case BeginRecovery(items) => !s.running && s.recovering == [] && Recoverable(s.jobs, items)
    case RecoverNext => !s.running && s.recovering != []
    case StartWorkers => !s.running && s.recovering == []
    case Retain(id) => id in s.jobs && s.jobs[id].completed
  }

  predicate CanWork(s: State, kind: Kind, choice: Choice)
    requires kind in s.worker
  {
    match choice
    case Pick(id) => s.worker[kind].Idle? && id in s.jobs && Pickable(s.jobs[id], kind)
    case SeesCancel => SeesCancelNow(s, kind)
    case _ => !s.worker[kind].Idle?
  }

  /** A cancel check between two statements finds the request. */
  predicate SeesCancelNow(s: State, kind: Kind) {
    kind in s.worker
    && (s.worker[kind].DoingStaging? || s.worker[kind].BuildingArtifact?)
    && s.worker[kind].id in s.jobs && s.jobs[s.worker[kind].id].cancel
  }

  /** What recovery reads: unfinished jobs in the states they are in, each once. */
  predicate Recoverable(jobs: Jobs, items: seq<(JobId, JobState)>) {
    && (forall i :: 0 <= i < |items| ==>
         items[i].0 in jobs && !jobs[items[i].0].completed && jobs[items[i].0].state == items[i].1)
    && DistinctJobs(items)
  }

  predicate DistinctJobs(items: seq<(JobId, JobState)>) {
    forall i, j :: 0 <= i < j < |items| ==> items[i].0 != items[j].0
  }

  function To(s: State, kind: Kind, phase: Phase): State {
    s.(worker := s.worker[kind := phase])
  }

  /** What a statement of a worker makes of its job, and what the worker does next. */
  datatype Moved = Moved(job: Job, phase: Phase)

  /** A statement that was applied, whether or not it says so. */
  function Applied(j: Job, choice: Choice, id: JobId, next: Phase): Moved {
    Moved(j, if choice.Unsure? then Failing(id) else next)
  }

  /** A guarded transition: the next phase, or the reason it was refused is looked up. */
  function TryTransition(j: Job, choice: Choice, id: JobId, from: JobState, to: JobState, next: Phase): Moved {
    if choice.Badly? then Moved(j, Failing(id))
    else if !Claimable(j, from) then Moved(j, Unclaimed(id))
    else Applied(j.(state := to), choice, id, next)
  }

  /** A statement that ends the job well, or finds that it was canceled. */
  function TrySucceed(j: Job, choice: Choice, id: JobId, building: bool): Moved {
    if MaySucceed(j, building) then Applied(Finished(j, Succeeded), choice, id, Idle) else Moved(j, CancelingJob(id))
  }

  /** The work goes well as far as the statement that follows it. */
  predicate GoesOn(choice: Choice) {
    choice.Well? || choice.Unsure?
  }

  /** One statement of a worker that has a job in hand: processJob, processExport, processImport,
      handleJobFailure and cancelJob, statement by statement. */
  function WorkOn(j: Job, phase: Phase, choice: Choice): Moved {
    match phase
    case Idle => Moved(j, Idle)
    case Picked(id) => Moved(j, Loaded(id, j))
    case Loaded(id, snapshot) =>
      if snapshot.state.Canceling? || snapshot.cancel then Moved(j, CancelingJob(id))
      else if snapshot.kind.Export? then TryTransition(j, choice, id, Queued, Snapshotting, DoingExport(id))
      else if snapshot.state.Publishing? then Moved(j, Resuming(id))
      else TryTransition(j, choice, id, Queued, Validating, DoingValidation(id))
    case Resuming(id) => Moved(j, if choice.Well? then DoingPublish(id) else Failing(id))
    // the statement that starts the build asks for no state
    case DoingExport(id) =>
      if GoesOn(choice) then Applied(j.(state := Building), choice, id, BuildingArtifact(id)) else Moved(j, Failing(id))
    case BuildingArtifact(id) =>
      if choice.SeesCancel? then Moved(j, CancelingJob(id))
      else if GoesOn(choice) then TrySucceed(j, choice, id, true) else Moved(j, Failing(id))
    case DoingValidation(id) =>
      if !GoesOn(choice) then Moved(j, Failing(id))
      else if j.dryRun then TrySucceed(j, choice, id, false)
      else TryTransition(j, choice, id, Validating, Staging, DoingStaging(id))
    case DoingStaging(id) =>
      if choice.SeesCancel? then Moved(j, CancelingJob(id))
      else if GoesOn(choice) then TryTransition(j, choice, id, Staging, Publishing, DoingPublish(id))
      else Moved(j, Failing(id))
    case DoingPublish(id) =>
      if GoesOn(choice) && MayPublish(j) then Applied(Published(j), choice, id, Idle) else Moved(j, Failing(id))
    case Unclaimed(id) => Moved(j, if j.cancel && choice.Well? then CancelingJob(id) else Idle)
    // a status that cannot be read is taken for that of an unfinished job
    case Failing(id) =>
      Moved(j, if choice.Abandons? || (!choice.Badly? && Terminal(j.state)) then Idle else FailingForGood(id))
    case FailingForGood(_) => Moved(if choice.Badly? then j else Finished(j, Failed), Idle)
    case CancelingJob(_) => Moved(if choice.Badly? then j else Finished(j, Canceled), Idle)
  }

  /** The phases in which the job may have come to an end already, so that its row may be removed. */
  predicate MayFindNothing(phase: Phase) {
    && !phase.DoingExport? && !phase.BuildingArtifact?
    && (phase.Loaded? ==> phase.snapshot.state.Canceling? || phase.snapshot.cancel || phase.snapshot.kind.Import?)
  }

  /** What the worker does next if the row of its job is removed: its statements change nothing, a
      transition or a publication is refused, and a status that cannot be read is taken for that of an
      unfinished job. */
  function WorkOnNothing(phase: Phase, choice: Choice): Phase {
    match phase
    case Loaded(id, snapshot) =>
      if snapshot.state.Canceling? || snapshot.cancel then CancelingJob(id)
      else if snapshot.state.Publishing? then Resuming(id) else Unclaimed(id)
    case Resuming(id) => if choice.Well? then DoingPublish(id) else Failing(id)
    // a dry run finds that it was canceled
    case DoingValidation(id) =>
      if choice.Well? then Unclaimed(id) else if choice.Unsure? then CancelingJob(id) else Failing(id)
    case DoingStaging(id) => if GoesOn(choice) then Unclaimed(id) else Failing(id)
    case DoingPublish(id) => Failing(id)
    case Failing(id) => if choice.Abandons? then Idle else FailingForGood(id)
    case _ => Idle
  }

  /** A step of the worker of a kind. */
  function WorkStep(s: State, kind: Kind, choice: Choice): State
    requires kind in s.worker
  {
    var phase := s.worker[kind];
    if phase.Idle? then (if choice.Pick? then To(s, kind, Picked(choice.id)) else s)
    else if phase.id !in s.jobs then To(s, kind, WorkOnNothing(phase, choice))
    else
      var moved := WorkOn(s.jobs[phase.id], phase, choice);
      To(s.(jobs := s.jobs[phase.id := moved.job]), kind, moved.phase)
  }

  function Apply(s: State, step: Step): State
    requires Enabled(s, step)
  {
    match step
    case CreateExport(id) => s.(jobs := s.jobs[id := Job(Export, false, Queued, false, false, 0)])
    case CreateImport(id, dryRun) =>
      s.(jobs := s.jobs[id := Job(Import, dryRun, Receiving, false, false, 0)], receiving := s.receiving + {id})
    case QueueReceived(id) =>
      // the statement asks for the state only
      if id in s.jobs && s.jobs[id].state.Receiving?
      then s.(jobs := s.jobs[id := s.jobs[id].(state := Queued)], receiving := s.receiving - {id})
      else s.(jobs := FinishJob(s.jobs, id, Canceled), receiving := s.receiving - {id})
    case ReceiveFails(id) => s.(jobs := FinishJob(s.jobs, id, Canceled), receiving := s.receiving - {id})
    // the statement was applied and reports an error, which is taken for a failure
    case QueueUnsure(id) =>
      s.(jobs := if id in s.jobs && s.jobs[id].state.Receiving?
                 then s.jobs[id := s.jobs[id].(state := Queued)] else s.jobs,
         receiving := s.receiving - {id}, dropping := s.dropping + {id})
    // whatever has become of the job since
    case DropReceived(id) => s.(jobs := FinishJob(s.jobs, id, Canceled), dropping := s.dropping - {id})
    // the cancelation itself fails, which the request does not look at
    case RequestEnds(id) => s.(receiving := s.receiving - {id}, dropping := s.dropping - {id})
    case Cancel(id) => s.(jobs := RequestCancel(s.jobs, id))
    case Work(kind, choice) => WorkStep(s, kind, choice)
    case Crash => s.(worker := NoWorkers, receiving := {}, dropping := {}, running := false, recovering := [])
    case BeginRecovery(items) => s.(recovering := items)
    case RecoverNext =>
      var item := s.recovering[0];
      var jobs := if item.0 in s.jobs then RecoverJob(s.jobs, item.0, s.jobs[item.0].kind, item.1) else s.jobs;
      s.(jobs := jobs, recovering := s.recovering[1..])
    case StartWorkers => s.(running := true)
    case Retain(id) => s.(jobs := s.jobs - {id}, gone := s.gone + {id})
  }
}
