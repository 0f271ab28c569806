/** The guarded statements of the backup manager on its job table (backupmgr/manager.go), with the
    answers their callers act on. */
module BackupJobStore {
  import opened BackupJobs

  datatype Refusal = Accepted | NotFound | NotCancelable | WasCanceled | WasClaimed

  /** Recovery handles the jobs it has read one after the other. */
  function RecoverEach(jobs: Jobs, items: seq<(JobId, JobState)>): Jobs {
    if items == [] then jobs
    else
      var n := |items| - 1;
      var before := RecoverEach(jobs, items[..n]);
      if items[n].0 in before then RecoverJob(before, items[n].0, before[items[n].0].kind, items[n].1) else before
  }

  class JobTable {
    var jobs: Jobs

    /** Cancel: the job is looked up first, and the statement then asks again. */
    method Cancel(id: JobId) returns (r: Refusal)
      modifies this
      ensures jobs == RequestCancel(old(jobs), id)
      ensures r.NotFound? <==> id !in old(jobs)
      ensures r.Accepted? <==>
        id in old(jobs) && !Terminal(old(jobs)[id].state)
        && !old(jobs)[id].completed && !old(jobs)[id].state.Publishing?
      ensures r.Accepted? ==> jobs[id].cancel && jobs[id].state.Canceling?
    {
      if id !in jobs {
        return NotFound;
      }
      var job := jobs[id];
      if Terminal(job.state) || job.state.Publishing? {
        return NotCancelable;
      }
      if jobs[id].completed || jobs[id].state.Publishing? {
        return NotCancelable;
      }
      jobs := jobs[id := jobs[id].(cancel := true, state := Canceling)];
      r := Accepted;
    }

    /** transitionState, which tells a cancel from another worker's claim. */
    method TransitionState(id: JobId, from: JobState, to: JobState, ghost next: Phase) returns (r: Refusal)
      requires !next.Unclaimed?
      modifies this
      ensures id !in old(jobs) ==> jobs == old(jobs) && r.WasClaimed?
      ensures id in old(jobs) ==>
        var moved := TryTransition(old(jobs)[id], Well, id, from, to, next);
        jobs == old(jobs)[id := moved.job] && moved.phase == if r.Accepted? then next else Unclaimed(id)
      ensures r.WasCanceled? <==> id in old(jobs) && old(jobs)[id].cancel
      ensures r.Accepted? || r.WasCanceled? || r.WasClaimed?
    {
      if id in jobs && Claimable(jobs[id], from) {
        jobs := jobs[id := jobs[id].(state := to)];
        return Accepted;
      }
      r := if id in jobs && jobs[id].cancel then WasCanceled else WasClaimed;
    }

    /** finishSuccessfulJob and the statement of completeExport. */
    method FinishSuccessful(id: JobId, building: bool) returns (r: Refusal)
      modifies this
      ensures id !in old(jobs) ==> jobs == old(jobs) && r.WasCanceled?
      ensures id in old(jobs) ==>
        var moved := TrySucceed(old(jobs)[id], Well, id, building);
        jobs == old(jobs)[id := moved.job] && moved.phase == if r.Accepted? then Idle else CancelingJob(id)
      ensures r.Accepted? || r.WasCanceled?
    {
      if id in jobs && !jobs[id].cancel && (if building then jobs[id].state.Building? else !jobs[id].completed) {
        jobs := jobs[id := jobs[id].(state := Succeeded, completed := true)];
        return Accepted;
      }
      r := WasCanceled;
    }

    /** recover: every unfinished job that was read. */
    method Recover(items: seq<(JobId, JobState)>)
      modifies this
      ensures jobs == RecoverEach(old(jobs), items)
    {
      for i := 0 to |items|
        invariant jobs == RecoverEach(old(jobs), items[..i])
      {
        assert items[..i + 1][..i] == items[..i];
        var id, read := items[i].0, items[i].1;
        if id in jobs {
          RecoverOne(id, jobs[id].kind, read);
        }
      }
      assert items[..|items|] == items;
    }

    /** recoverJob. */
    method RecoverOne(id: JobId, kind: Kind, read: JobState)
      requires id in jobs
      modifies this
      ensures jobs == RecoverJob(old(jobs), id, kind, read)
    {
      if read.Receiving? {
        jobs := jobs[id := jobs[id].(state := Canceled, completed := true, cancel := true)];
      } else if kind.Import? && read.Publishing? {
        return;
      } else if kind.Import? && read.Staging? {
        jobs := jobs[id := jobs[id].(state := Queued)];
      } else if !jobs[id].completed {
        jobs := jobs[id := jobs[id].(state := Queued)];
      }
    }
  }

  /** After recovery nothing it read is left in the middle: a job is queued, publishing, or canceled. */
  lemma {:induction false} RecoveredJobs(jobs: Jobs, items: seq<(JobId, JobState)>, i: nat)
    requires Recoverable(jobs, items) && i < |items|
    ensures var after := RecoverEach(jobs, items);
      items[i].0 in after &&
      var state := after[items[i].0].state; state.Queued? || state.Canceled? || state.Publishing?
    decreases |items|
  {
    var n := |items| - 1;
    if i < n {
      RecoveredJobs(jobs, items[..n], i);
      assert items[..n][i] == items[i];
    } else {
      NotReadNotTouched(jobs, items[..n], items[n].0);
    }
  }

  lemma {:induction false} NotReadNotTouched(jobs: Jobs, items: seq<(JobId, JobState)>, id: JobId)
    requires forall j :: 0 <= j < |items| ==> items[j].0 != id
    ensures id in RecoverEach(jobs, items) <==> id in jobs
    ensures id in jobs ==> RecoverEach(jobs, items)[id] == jobs[id]
  {
    if items != [] {
      NotReadNotTouched(jobs, items[..|items| - 1], id);
    }
  }
}
