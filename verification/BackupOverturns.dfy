/** How a backup job that has ended well comes to be marked failed (handleJobFailure in
    backupmgr/manager.go) or canceled (receiveAndQueueImport): a statement was applied and reported an
    error, which was taken for a failure. */
module BackupOverturns {
  import opened BackupJobs
  import opened BackupJobProofs

  /** The job has ended well, or was published whatever became of it then. */
  predicate EndedWell(j: Job) {
    j.state.Succeeded? || j.published == 1
  }

  ghost predicate HasEnded(s: State, id: JobId) {
    id in s.jobs && EndedWell(s.jobs[id])
  }

  /** The worker of some kind is in a phase. */
  ghost predicate WorkerIn(s: State, kind: Kind, phase: Phase) {
    kind in s.worker && s.worker[kind] == phase
  }

  /** The worker works on the job. */
  predicate ItsWork(s: State, step: Step, kind: Kind, id: JobId) {
    && step.Work? && step.kind == kind && kind in s.worker && !s.worker[kind].Idle? && s.worker[kind].id == id
    && id in s.jobs
  }

  /** The last statement of the job is applied and reports an error. */
  predicate EndsUnsure(s: State, step: Step, kind: Kind, id: JobId) {
    && ItsWork(s, step, kind, id) && step.choice.Unsure? && !EndedWell(s.jobs[id])
    && EndedWell(WorkOn(s.jobs[id], s.worker[kind], step.choice).job)
  }

  /** The status of a job that has ended well cannot be read. */
  predicate Misreads(s: State, step: Step, kind: Kind, id: JobId) {
    ItsWork(s, step, kind, id) && step.choice.Badly? && s.worker[kind] == Failing(id) && EndedWell(s.jobs[id])
  }

  /** Neither the worker of the kind nor a crash. */
  predicate Quiet(step: Step, kind: Kind) {
    !step.Crash? && !(step.Work? && step.kind == kind)
  }

  ghost predicate QuietBetween(steps: seq<Step>, kind: Kind, a: int, b: int)
    requires 0 <= a < b <= |steps|
  {
    forall p :: a < p < b ==> Quiet(steps[p], kind)
  }

  // ---------------------------------------------------------------------------
  // Who fails with a job that has ended well
  // ---------------------------------------------------------------------------

  /** What a statement of a worker says of a job that has ended well afterwards. */
  lemma WorkOnEnds(j: Job, receiving: bool, dropping: bool, phase: Phase, choice: Choice)
    requires JobSound(j) && PhaseSound(j, receiving, dropping, phase) && !phase.Idle?
    ensures var m := WorkOn(j, phase, choice);
      && (m.phase.Failing? && EndedWell(m.job) ==> !EndedWell(j) && choice.Unsure?)
      && (m.phase.FailingForGood? && EndedWell(m.job) ==> EndedWell(j) && phase.Failing? && choice.Badly?)
      && (m.job.published == 1 ==> j.published == 1 || (phase.DoingPublish? && GoesOn(choice) && MayPublish(j)))
      && (m.job.published == 1 && m.job.state.Failed? && !j.state.Failed? ==>
            phase.FailingForGood? && !choice.Badly? && (j.state.Succeeded? || j.state.Canceled?))
  {
  }

  /** Nobody but its worker ends a job well or publishes it, and nobody puts a worker to work but itself. */
  lemma OutsideWork(s: State, step: Step, id: JobId)
    requires Sound(s) && Enabled(s, step) && !step.Work?
    ensures HasEnded(Apply(s, step), id) ==> HasEnded(s, id)
    ensures id in Apply(s, step).jobs && Apply(s, step).jobs[id].published == 1 ==>
      id in s.jobs && s.jobs[id].published == 1
  {
    if id in s.jobs { assert JobSound(s.jobs[id]); }
    match step
    case QueueReceived(o) => if o in s.jobs { assert StillReceiving(s.jobs[o]); }
    case ReceiveFails(o) => if o in s.jobs { assert StillReceiving(s.jobs[o]); }
    case RecoverNext => assert ItemSound(s, s.recovering[0]);
    case _ =>
  }

  /** Nor on the worker of the other kind. */
  lemma OtherWorker(s: State, kind: Kind, other: Kind, choice: Choice, id: JobId)
    requires Sound(s) && other in s.worker && other != kind && HasEnded(WorkStep(s, other, choice), id)
    requires WorkerIn(s, kind, Failing(id)) || WorkerIn(s, kind, FailingForGood(id))
    ensures HasEnded(s, id)
  {
    assert WorkerSound(s, kind, s.worker[kind]);
    assert WorkerSound(s, other, s.worker[other]);
  }

  lemma QuietWorker(s: State, step: Step, kind: Kind)
    requires Enabled(s, step) && Quiet(step, kind) && kind in s.worker
    ensures kind in Apply(s, step).worker && Apply(s, step).worker[kind] == s.worker[kind]
  {
  }

  lemma OwnWork(s: State, kind: Kind, choice: Choice, id: JobId)
    requires Sound(s) && kind in s.worker && id in WorkStep(s, kind, choice).jobs
    requires
      WorkerIn(WorkStep(s, kind, choice), kind, Failing(id))
      || WorkerIn(WorkStep(s, kind, choice), kind, FailingForGood(id))
    ensures ItsWork(s, Work(kind, choice), kind, id)
  {
    assert WorkerSound(s, kind, s.worker[kind]);
    if !s.worker[kind].Idle? && s.worker[kind].id in s.jobs {
      WorkOnStays(s.jobs[s.worker[kind].id], s.worker[kind], choice);
    }
  }

  /** Who fails with a job that has ended well did so before, or comes from its own step. */
  lemma ComesToFail(s: State, step: Step, kind: Kind, id: JobId, phase: Phase)
    requires Sound(s) && Enabled(s, step) && HasEnded(Apply(s, step), id) && WorkerIn(Apply(s, step), kind, phase)
    requires phase == Failing(id) || phase == FailingForGood(id)
    ensures (WorkerIn(s, kind, phase) && HasEnded(s, id) && Quiet(step, kind)) || ItsWork(s, step, kind, id)
  {
    if !step.Work? {
      OutsideWork(s, step, id);
      if kind in s.worker && Quiet(step, kind) { QuietWorker(s, step, kind); }
    } else if step.kind != kind {
      QuietWorker(s, step, kind);
      OtherWorker(s, kind, step.kind, step.choice, id);
    } else {
      OwnWork(s, kind, step.choice, id);
    }
  }

  lemma ItsWorkEnds(s: State, step: Step, kind: Kind, id: JobId)
    requires Sound(s) && Enabled(s, step) && ItsWork(s, step, kind, id) && HasEnded(Apply(s, step), id)
    ensures WorkerIn(Apply(s, step), kind, Failing(id)) ==> EndsUnsure(s, step, kind, id)
    ensures WorkerIn(Apply(s, step), kind, FailingForGood(id)) ==> Misreads(s, step, kind, id)
  {
    assert WorkerSound(s, kind, s.worker[kind]) && JobSound(s.jobs[id]);
    WorkOnEnds(s.jobs[id], id in s.receiving, id in s.dropping, s.worker[kind], step.choice);
  }

  lemma {:induction false} FailingWasUnsure(states: seq<State>, steps: seq<Step>, i: nat, kind: Kind, id: JobId)
    returns (n: nat)
    requires IsRun(states, steps) && i < |states| && WorkerIn(states[i], kind, Failing(id)) && HasEnded(states[i], id)
    ensures n < i && EndsUnsure(states[n], steps[n], kind, id) && QuietBetween(steps, kind, n, i)
  {
    n := i - 1;
    assert StepAt(states, steps, n);
    RunSound(states, steps, n);
    ComesToFail(states[n], steps[n], kind, id, Failing(id));
    if ItsWork(states[n], steps[n], kind, id) {
      ItsWorkEnds(states[n], steps[n], kind, id);
    } else {
      n := FailingWasUnsure(states, steps, n, kind, id);
    }
  }

  lemma {:induction false} FailingForGoodMisread(states: seq<State>, steps: seq<Step>, i: nat, kind: Kind, id: JobId)
    returns (n: nat)
    requires IsRun(states, steps) && i < |states|
    requires WorkerIn(states[i], kind, FailingForGood(id)) && HasEnded(states[i], id)
    ensures n < i && Misreads(states[n], steps[n], kind, id) && QuietBetween(steps, kind, n, i)
  {
    n := i - 1;
    assert StepAt(states, steps, n);
    RunSound(states, steps, n);
    ComesToFail(states[n], steps[n], kind, id, FailingForGood(id));
    if ItsWork(states[n], steps[n], kind, id) {
      ItsWorkEnds(states[n], steps[n], kind, id);
    } else {
      n := FailingForGoodMisread(states, steps, n, kind, id);
    }
  }

  /** A job that has ended well is marked failed only after its last statement was applied with an error
      and its status could then not be read, one after the other and with no crash between. */
  lemma OverturnedAfterTwoErrors(states: seq<State>, steps: seq<Step>, i: nat, id: JobId)
    returns (unsure: nat, misread: nat)
    requires IsRun(states, steps) && i < |steps| && MarksFailed(states[i], steps[i], id) && HasEnded(states[i], id)
    ensures unsure < misread < i && EndsUnsure(states[unsure], steps[unsure], steps[i].kind, id)
    ensures Misreads(states[misread], steps[misread], steps[i].kind, id)
    ensures QuietBetween(steps, steps[i].kind, unsure, misread) && QuietBetween(steps, steps[i].kind, misread, i)
  {
    misread := FailingForGoodMisread(states, steps, i, steps[i].kind, id);
    unsure := FailingWasUnsure(states, steps, misread, steps[i].kind, id);
  }

  // ---------------------------------------------------------------------------
  // A published import that is failed
  // ---------------------------------------------------------------------------

  /** The publication of the import is committed, which it says or reports an error. */
  predicate Publishes(s: State, step: Step, id: JobId) {
    && step.Work? && step.kind.Import? && GoesOn(step.choice) && Import in s.worker
    && s.worker[Import] == DoingPublish(id) && id in s.jobs && MayPublish(s.jobs[id])
  }

  /** Three statements in a row of the import worker, with no crash between: the publication is committed
      and reports an error, the status is not read, and the job is marked failed. */
  ghost predicate TwoErrors(states: seq<State>, steps: seq<Step>, a: int, b: int, c: int, id: JobId) {
    && 0 <= a < b < c < |steps| < |states| && Publishes(states[a], steps[a], id) && steps[a].choice.Unsure?
    && steps[b] == Work(Import, Badly) && QuietBetween(steps, Import, a, b)
    && steps[c].Work? && steps[c].kind.Import? && !steps[c].choice.Badly? && QuietBetween(steps, Import, b, c)
  }

  /** The job is not dropped from there on. */
  ghost predicate NotDropped(steps: seq<Step>, c: int, i: int, id: JobId)
    requires 0 <= c < i <= |steps|
  {
    forall p :: c < p < i ==> steps[p] != DropReceived(id)
  }

  lemma PublishedIsImport(states: seq<State>, steps: seq<Step>, i: nat, id: JobId)
    requires IsRun(states, steps) && i < |states| && id in states[i].jobs && states[i].jobs[id].published == 1
    ensures states[i].jobs[id].kind.Import? && Terminal(states[i].jobs[id].state)
  {
    RunSound(states, steps, i);
    assert JobSound(states[i].jobs[id]);
  }

  /** A job is published by its publication only. */
  lemma StepPublishes(states: seq<State>, steps: seq<Step>, i: nat, id: JobId)
    requires IsRun(states, steps) && i < |steps| && id in states[i + 1].jobs && states[i + 1].jobs[id].published == 1
    ensures id in states[i].jobs && (states[i].jobs[id].published == 1 || Publishes(states[i], steps[i], id))
    ensures states[i + 1].jobs[id].state.Failed? && !states[i].jobs[id].state.Failed? ==>
      MarksFailed(states[i], steps[i], id) && states[i].jobs[id].published == 1
  {
    assert StepAt(states, steps, i);
    RunSound(states, steps, i);
    var s, step := states[i], steps[i];
    if step.Work? {
      WorkPublishes(s, step.kind, step.choice, id);
    } else {
      OutsideWork(s, step, id);
      RunStepFinal(states, steps, i, id);
      PublishedIsImport(states, steps, i, id);
    }
  }

  lemma WorkPublishes(s: State, kind: Kind, choice: Choice, id: JobId)
    requires Sound(s) && Enabled(s, Work(kind, choice)) && id in WorkStep(s, kind, choice).jobs
    requires WorkStep(s, kind, choice).jobs[id].published == 1
    ensures id in s.jobs && (s.jobs[id].published == 1 || Publishes(s, Work(kind, choice), id))
    ensures WorkStep(s, kind, choice).jobs[id].state.Failed? && !s.jobs[id].state.Failed? ==>
      MarksFailed(s, Work(kind, choice), id) && s.jobs[id].published == 1
  {
    var phase := s.worker[kind];
    assert WorkerSound(s, kind, phase);
    if !phase.Idle? && phase.id == id && id in s.jobs {
      assert JobSound(s.jobs[id]);
      WorkOnEnds(s.jobs[id], id in s.receiving, id in s.dropping, phase, choice);
    }
  }

  /** A published import is failed exactly if it was marked so and not dropped since. */
  lemma {:induction false} FailedWasMarked(states: seq<State>, steps: seq<Step>, i: nat, id: JobId) returns (c: nat)
    requires IsRun(states, steps) && i < |states| && id in states[i].jobs
    requires states[i].jobs[id].state.Failed? && states[i].jobs[id].published == 1
    ensures c < i && MarksFailed(states[c], steps[c], id) && states[c].jobs[id].published == 1
    ensures NotDropped(steps, c, i, id)
  {
    c := i - 1;
    StepPublishes(states, steps, c, id);
    if states[c].jobs[id].state.Failed? {
      StepNotDropped(states, steps, c, id);
      c := FailedWasMarked(states, steps, c, id);
    }
  }

  lemma StepNotDropped(states: seq<State>, steps: seq<Step>, n: nat, id: JobId)
    requires IsRun(states, steps) && n < |steps| && id in states[n].jobs && id in states[n + 1].jobs
    requires states[n].jobs[id].state.Failed? && states[n + 1].jobs[id].state.Failed?
    ensures states[n + 1].jobs[id].published == states[n].jobs[id].published && steps[n] != DropReceived(id)
  {
    RunStepFinal(states, steps, n, id);
  }

  lemma MarkedAfterPublication(states: seq<State>, steps: seq<Step>, c: nat, id: JobId) returns (a: nat, b: nat)
    requires IsRun(states, steps) && c < |steps| && MarksFailed(states[c], steps[c], id)
    requires states[c].jobs[id].published == 1
    ensures TwoErrors(states, steps, a, b, c, id)
  {
    MarkedIsImport(states, steps, c, id);
    a, b := OverturnedAfterTwoErrors(states, steps, c, id);
    UnsureEnd(states, steps, a, c, id);
  }

  lemma MarkedIsImport(states: seq<State>, steps: seq<Step>, c: nat, id: JobId)
    requires IsRun(states, steps) && c < |steps| && MarksFailed(states[c], steps[c], id)
    requires states[c].jobs[id].published == 1
    ensures steps[c].kind.Import?
  {
    RunSound(states, steps, c);
    PublishedIsImport(states, steps, c, id);
    assert WorkerSound(states[c], steps[c].kind, states[c].worker[steps[c].kind]);
  }

  /** The last statement of an import that is published later on is its publication. */
  lemma UnsureEnd(states: seq<State>, steps: seq<Step>, a: nat, c: nat, id: JobId)
    requires IsRun(states, steps) && a < c < |states| && EndsUnsure(states[a], steps[a], Import, id)
    requires id in states[c].jobs && states[c].jobs[id].published == 1
    ensures Publishes(states[a], steps[a], id)
  {
    assert StepAt(states, steps, a);
    RunSound(states, steps, a + 1);
    ThereBetween(states, steps, a, a + 1, c, id);
    RunLater(states, steps, a + 1, c, id);
    StepPublishes(states, steps, a, id);
  }

  /** The worker stays in its phase while it is quiet. */
  lemma {:induction false} StaysQuiet(states: seq<State>, steps: seq<Step>, a: nat, p: nat, kind: Kind)
    requires IsRun(states, steps) && a < p <= |steps| && QuietBetween(steps, kind, a, p)
    requires kind in states[a + 1].worker
    ensures kind in states[p].worker && states[p].worker[kind] == states[a + 1].worker[kind]
    decreases p
  {
    if p > a + 1 {
      StaysQuiet(states, steps, a, p - 1, kind);
      assert StepAt(states, steps, p - 1);
      QuietWorker(states[p - 1], steps[p - 1], kind);
    }
  }

  lemma {:induction false} PublishedStays(states: seq<State>, steps: seq<Step>, a: nat, p: nat, id: JobId)
    requires IsRun(states, steps) && a <= p < |states| && id in states[a].jobs && id in states[p].jobs
    requires states[a].jobs[id].published == 1
    ensures states[p].jobs[id].published == 1 && Terminal(states[p].jobs[id].state)
  {
    RunLater(states, steps, a, p, id);
    PublishedIsImport(states, steps, a, id);
  }

  lemma PublishedAt(states: seq<State>, steps: seq<Step>, a: nat, id: JobId)
    requires IsRun(states, steps) && a < |steps| && Publishes(states[a], steps[a], id)
    ensures id in states[a + 1].jobs && states[a + 1].jobs[id].published == 1
    ensures Import in states[a + 1].worker
    ensures states[a + 1].worker[Import] == if steps[a].choice.Unsure? then Failing(id) else Idle
  {
    RunSound(states, steps, a);
    assert StepAt(states, steps, a) && JobSound(states[a].jobs[id]);
    RunSound(states, steps, a + 1);
  }

  lemma TwoErrorsMark(states: seq<State>, steps: seq<Step>, a: nat, b: nat, c: nat, i: nat, id: JobId)
    requires IsRun(states, steps) && TwoErrors(states, steps, a, b, c, id) && c < i < |states| && id in states[i].jobs
    ensures MarksFailed(states[c], steps[c], id) && states[c].jobs[id].published == 1
  {
    PublishedAt(states, steps, a, id);
    StaysQuiet(states, steps, a, b, Import);
    ThereBetween(states, steps, a + 1, b, i, id);
    PublishedStays(states, steps, a + 1, b, id);
    MisreadMarks(states, steps, b, id);
    StaysQuiet(states, steps, b, c, Import);
    ThereBetween(states, steps, a + 1, c, i, id);
    PublishedStays(states, steps, a + 1, c, id);
    RunSound(states, steps, c);
    assert WorkerSound(states[c], Import, FailingForGood(id)) && JobSound(states[c].jobs[id]);
  }

  lemma MisreadMarks(states: seq<State>, steps: seq<Step>, b: nat, id: JobId)
    requires IsRun(states, steps) && b < |steps| && steps[b] == Work(Import, Badly) && id in states[b].jobs
    requires WorkerIn(states[b], Import, Failing(id))
    ensures WorkerIn(states[b + 1], Import, FailingForGood(id))
  {
    assert StepAt(states, steps, b);
  }

  lemma {:induction false} FailedStays(states: seq<State>, steps: seq<Step>, c: nat, i: nat, id: JobId)
    requires IsRun(states, steps) && c < i < |states| && id in states[i].jobs && NotDropped(steps, c, i, id)
    requires MarksFailed(states[c], steps[c], id) && states[c].jobs[id].published == 1
    ensures states[i].jobs[id].state.Failed? && states[i].jobs[id].published == 1
    decreases i
  {
    ThereBetween(states, steps, c, i - 1, i, id);
    RunStepFinal(states, steps, i - 1, id);
    if c < i - 1 { FailedStays(states, steps, c, i - 1, id); }
  }

  /** An import is failed though it was published exactly if its publication was committed and reported
      an error, its status could then not be read, the worker went on to mark it failed, and its request
      has not canceled it since. */
  lemma PublishedFailsExactly(states: seq<State>, steps: seq<Step>, i: nat, id: JobId)
    requires IsRun(states, steps) && i < |states| && id in states[i].jobs
    ensures states[i].jobs[id].state.Failed? && states[i].jobs[id].published == 1
       <==> exists a, b, c :: TwoErrors(states, steps, a, b, c, id) && c < i && NotDropped(steps, c, i, id)
  {
    if exists a, b, c :: TwoErrors(states, steps, a, b, c, id) && c < i && NotDropped(steps, c, i, id) {
      var a, b, c :| TwoErrors(states, steps, a, b, c, id) && c < i && NotDropped(steps, c, i, id);
      TwoErrorsMark(states, steps, a, b, c, i, id);
      FailedStays(states, steps, c, i, id);
    }
    if states[i].jobs[id].state.Failed? && states[i].jobs[id].published == 1 {
      var c := FailedWasMarked(states, steps, i, id);
      var a, b := MarkedAfterPublication(states, steps, c, id);
    }
  }

  // ---------------------------------------------------------------------------
  // A published import that is canceled
  // ---------------------------------------------------------------------------

  /** The statement that queues the import is applied and reports an error, the import is published, and
      then its request cancels it, with no crash between. */
  ghost predicate DropsPublished(states: seq<State>, steps: seq<Step>, q: int, p: int, d: int, id: JobId) {
    && 0 <= q < p < d < |steps| < |states| && steps[q] == QueueUnsure(id)
    && Publishes(states[p], steps[p], id) && steps[d] == DropReceived(id)
    && forall n :: q < n < d ==> !steps[n].Crash?
  }

  ghost predicate NotMarked(states: seq<State>, steps: seq<Step>, d: int, i: int, id: JobId)
    requires 0 <= d < i <= |steps| <= |states|
  {
    forall n :: d < n < i ==> !MarksFailed(states[n], steps[n], id)
  }

  lemma {:induction false} DroppingSince(states: seq<State>, steps: seq<Step>, d: nat, id: JobId) returns (q: nat)
    requires IsRun(states, steps) && d < |states| && id in states[d].dropping
    ensures q < d && steps[q] == QueueUnsure(id) && forall n :: q < n < d ==> !steps[n].Crash?
  {
    q := d - 1;
    assert StepAt(states, steps, q);
    if id in states[q].dropping { q := DroppingSince(states, steps, q, id); }
  }

  lemma {:induction false} PublishedBy(states: seq<State>, steps: seq<Step>, d: nat, id: JobId) returns (p: nat)
    requires IsRun(states, steps) && d < |states| && id in states[d].jobs && states[d].jobs[id].published == 1
    ensures p < d && Publishes(states[p], steps[p], id)
  {
    p := d - 1;
    StepPublishes(states, steps, p, id);
    if !Publishes(states[p], steps[p], id) { p := PublishedBy(states, steps, p, id); }
  }

  lemma DropCameLater(states: seq<State>, steps: seq<Step>, d: nat, id: JobId) returns (q: nat, p: nat)
    requires IsRun(states, steps) && d < |steps| && Drops(states[d], steps[d], id) && states[d].jobs[id].published == 1
    ensures DropsPublished(states, steps, q, p, d, id)
  {
    assert StepAt(states, steps, d);
    q := DroppingSince(states, steps, d, id);
    p := PublishedBy(states, steps, d, id);
    PublishedAfter(states, steps, p, q, d, id);
    NotPublishedYet(states, steps, q, id);
  }

  lemma PublishedAfter(states: seq<State>, steps: seq<Step>, p: nat, q: nat, d: nat, id: JobId)
    requires IsRun(states, steps) && p < |steps| && q < d < |states| && Publishes(states[p], steps[p], id)
    requires id in states[d].jobs
    ensures p < q ==> id in states[q].jobs && states[q].jobs[id].published == 1
  {
    if p < q {
      PublishedAt(states, steps, p, id);
      ThereBetween(states, steps, p + 1, q, d, id);
      PublishedStays(states, steps, p + 1, q, id);
    }
  }

  /** What a request is about to queue is not published. */
  lemma NotPublishedYet(states: seq<State>, steps: seq<Step>, q: nat, id: JobId)
    requires IsRun(states, steps) && q < |steps| && steps[q] == QueueUnsure(id)
    ensures id in states[q].jobs ==> states[q].jobs[id].published == 0
  {
    assert StepAt(states, steps, q);
    RunSound(states, steps, q);
  }

  lemma {:induction false} CanceledWasDropped(states: seq<State>, steps: seq<Step>, i: nat, id: JobId) returns (d: nat)
    requires IsRun(states, steps) && i < |states| && id in states[i].jobs
    requires states[i].jobs[id].state.Canceled? && states[i].jobs[id].published == 1
    ensures d < i && Drops(states[d], steps[d], id) && states[d].jobs[id].published == 1
    ensures NotMarked(states, steps, d, i, id)
  {
    d := i - 1;
    StepPublishes(states, steps, d, id);
    StepCanceled(states, steps, d, id);
    if states[d].jobs[id].state.Canceled? {
      d := CanceledWasDropped(states, steps, d, id);
    }
  }

  lemma StepCanceled(states: seq<State>, steps: seq<Step>, n: nat, id: JobId)
    requires IsRun(states, steps) && n < |steps| && id in states[n].jobs && id in states[n + 1].jobs
    requires states[n + 1].jobs[id].state.Canceled? && states[n + 1].jobs[id].published == 1
    ensures states[n].jobs[id].published == 1 && !MarksFailed(states[n], steps[n], id)
    ensures states[n].jobs[id].state.Canceled? || Drops(states[n], steps[n], id)
  {
    RunStepFinal(states, steps, n, id);
    StepPublishes(states, steps, n, id);
    if Publishes(states[n], steps[n], id) { PublicationSucceeds(states, steps, n, id); }
    if states[n].jobs[id].published == 1 { PublishedIsImport(states, steps, n, id); }
  }

  lemma PublicationSucceeds(states: seq<State>, steps: seq<Step>, n: nat, id: JobId)
    requires IsRun(states, steps) && n < |steps| && Publishes(states[n], steps[n], id)
    ensures id in states[n + 1].jobs && states[n + 1].jobs[id].state.Succeeded?
  {
    assert StepAt(states, steps, n);
  }

  lemma {:induction false} CanceledStays(states: seq<State>, steps: seq<Step>, d: nat, i: nat, id: JobId)
    requires IsRun(states, steps) && d < i < |states| && id in states[i].jobs && NotMarked(states, steps, d, i, id)
    requires id in states[d].jobs && states[d].jobs[id].published == 1 && steps[d] == DropReceived(id)
    ensures states[i].jobs[id].state.Canceled? && states[i].jobs[id].published == 1
    decreases i
  {
    ThereBetween(states, steps, d, i - 1, i, id);
    RunStepFinal(states, steps, i - 1, id);
    if d < i - 1 {
      CanceledStays(states, steps, d, i - 1, id);
    } else {
      assert StepAt(states, steps, d);
    }
  }

  /** An import is canceled though it was published exactly if the statement that queued it was applied
      and reported an error, its request canceled it for that once it was published, and its worker has
      not marked it failed since. */
  lemma PublishedCanceledExactly(states: seq<State>, steps: seq<Step>, i: nat, id: JobId)
    requires IsRun(states, steps) && i < |states| && id in states[i].jobs
    ensures states[i].jobs[id].state.Canceled? && states[i].jobs[id].published == 1
       <==> exists q, p, d :: DropsPublished(states, steps, q, p, d, id) && d < i && NotMarked(states, steps, d, i, id)
  {
    if exists q, p, d :: DropsPublished(states, steps, q, p, d, id) && d < i && NotMarked(states, steps, d, i, id) {
      var q, p, d :| DropsPublished(states, steps, q, p, d, id) && d < i && NotMarked(states, steps, d, i, id);
      PublishedAt(states, steps, p, id);
      ThereBetween(states, steps, p + 1, d, i, id);
      PublishedStays(states, steps, p + 1, d, id);
      CanceledStays(states, steps, d, i, id);
    }
    if states[i].jobs[id].state.Canceled? && states[i].jobs[id].published == 1 {
      var d := CanceledWasDropped(states, steps, i, id);
      var q, p := DropCameLater(states, steps, d, id);
    }
  }

  // ---------------------------------------------------------------------------
  // It happens
  // ---------------------------------------------------------------------------

  /** Import 1 in the hands of its worker, with no other job. */
  function Working(j: Job, phase: Phase, dropping: set<JobId>): State {
    State(map[1 := j], map[Export := Idle, Import := phase], {}, dropping, true, [], {})
  }

  const Upload := Job(Import, false, Queued, false, false, 0)

  ghost predicate Reached(states: seq<State>, steps: seq<Step>, s: State) {
    IsRun(states, steps) && states[|steps|] == s
  }

  lemma ReachNext(states: seq<State>, steps: seq<Step>, s: State, step: Step)
    requires Reached(states, steps, s) && Enabled(s, step)
    ensures Reached(states + [Apply(s, step)], steps + [step], Apply(s, step))
  {
    var more, taken := states + [Apply(s, step)], steps + [step];
    forall i | 0 <= i < |taken| ensures StepAt(more, taken, i) {
      if i < |steps| { assert StepAt(states, steps, i); }
    }
  }

  lemma Works(states: seq<State>, steps: seq<Step>, j: Job, phase: Phase, choice: Choice, dropping: set<JobId>)
    returns (more: seq<State>, taken: seq<Step>)
    requires Reached(states, steps, Working(j, phase, dropping)) && !phase.Idle?
    requires phase.id == 1 && (choice.Well? || choice.Badly? || choice.Unsure?)
    ensures var m := WorkOn(j, phase, choice); Reached(more, taken, Working(m.job, m.phase, dropping))
  {
    var s := Working(j, phase, dropping);
    ReachNext(states, steps, s, Work(Import, choice));
    more, taken := states + [Apply(s, Work(Import, choice))], steps + [Work(Import, choice)];
    var m := WorkOn(j, phase, choice);
    assert s.jobs[1 := m.job] == map[1 := m.job];
    assert s.worker[Import := m.phase] == map[Export := Idle, Import := m.phase];
  }

  /** An import is received and queued, by a statement that says so or reports an error. */
  lemma ImportQueued(unsure: bool) returns (states: seq<State>, steps: seq<Step>)
    ensures var dropping := if unsure then {1} else {};
      Reached(states, steps, Initial.(jobs := map[1 := Upload], dropping := dropping))
  {
    states, steps := [Initial], [];
    assert Reached(states, steps, Initial);
    var a, b := CreateImport(1, false), if unsure then QueueUnsure(1) else QueueReceived(1);
    ReachNext(states, steps, Initial, a);
    var s := Apply(Initial, a);
    states, steps := states + [s], steps + [a];
    ReachNext(states, steps, s, b);
    var t := Apply(s, b);
    states, steps := states + [t], steps + [b];
    assert t.jobs == map[1 := Upload];
  }

  lemma ImportPicked(unsure: bool) returns (states: seq<State>, steps: seq<Step>, dropping: set<JobId>)
    ensures dropping == (if unsure then {1} else {}) && Reached(states, steps, Working(Upload, Picked(1), dropping))
  {
    dropping := if unsure then {1} else {};
    states, steps := ImportQueued(unsure);
    var t := Initial.(jobs := map[1 := Upload], dropping := dropping);
    ReachNext(states, steps, t, StartWorkers);
    var u := Apply(t, StartWorkers);
    states, steps := states + [u], steps + [StartWorkers];
    ReachNext(states, steps, u, Work(Import, Pick(1)));
    var v := Apply(u, Work(Import, Pick(1)));
    states, steps := states + [v], steps + [Work(Import, Pick(1))];
    assert v.worker == map[Export := Idle, Import := Picked(1)];
    assert v == Working(Upload, Picked(1), dropping);
  }

  lemma ImportPublishing(unsure: bool) returns (states: seq<State>, steps: seq<Step>, dropping: set<JobId>)
    ensures dropping == if unsure then {1} else {}
    ensures Reached(states, steps, Working(Upload.(state := Publishing), DoingPublish(1), dropping))
  {
    states, steps, dropping := ImportPicked(unsure);
    states, steps := Works(states, steps, Upload, Picked(1), Well, dropping);
    states, steps := Works(states, steps, Upload, Loaded(1, Upload), Well, dropping);
    states, steps := Works(states, steps, Upload.(state := Validating), DoingValidation(1), Well, dropping);
    states, steps := Works(states, steps, Upload.(state := Staging), DoingStaging(1), Well, dropping);
  }

  /** A publication that is committed and reports an error, and a status that cannot be read, leave a
      published import failed. */
  lemma PublishedCanFail() returns (states: seq<State>, steps: seq<Step>)
    ensures IsRun(states, steps) && 1 in states[|steps|].jobs
    ensures states[|steps|].jobs[1].state.Failed? && states[|steps|].jobs[1].published == 1
  {
    var dropping;
    states, steps, dropping := ImportPublishing(false);
    states, steps := Works(states, steps, Upload.(state := Publishing), DoingPublish(1), Unsure, dropping);
    var published := Published(Upload.(state := Publishing));
    states, steps := Works(states, steps, published, Failing(1), Badly, dropping);
    states, steps := Works(states, steps, published, FailingForGood(1), Well, dropping);
  }

  /** An import that its request queued with an error, and cancels once it is published, is canceled though
      everything its worker did went well. */
  lemma PublishedCanBeCanceled() returns (states: seq<State>, steps: seq<Step>)
    ensures IsRun(states, steps) && 1 in states[|steps|].jobs
    ensures states[|steps|].jobs[1].state.Canceled? && states[|steps|].jobs[1].published == 1
  {
    var dropping;
    states, steps, dropping := ImportPublishing(true);
    states, steps := Works(states, steps, Upload.(state := Publishing), DoingPublish(1), Well, dropping);
    var s := Working(Published(Upload.(state := Publishing)), Idle, dropping);
    ReachNext(states, steps, s, DropReceived(1));
    states, steps := states + [Apply(s, DropReceived(1))], steps + [DropReceived(1)];
  }
}
