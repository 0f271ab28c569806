/** The database steps of the block delete worker (filemgr/block_delete_worker.go). */
module BlockWorker {
  import opened BlockTables

  const DeleteLease: int := 60 * 1000
  const DeleteDeadline: int := 47 * 60 * 60 * 1000

  /** Rows whose lease has run out are due again. */
  function RestoreExpiredLeases(states: map<PartKey, DeleteRow>, backend: string, now: int)
    : (r: map<PartKey, DeleteRow>)
    ensures r.Keys == states.Keys
  {
    map k | k in states ::
      if states[k].backend == backend && states[k].state.Deleting? && states[k].leaseUntil <= now
      then states[k].(state := Pending, nextAttemptAt := now, leaseUntil := 0)
      else states[k]
  }

  function RestoreFile(states: map<PartKey, DeleteRow>, f: FileId): (r: map<PartKey, DeleteRow>)
    ensures r.Keys == states.Keys
  {
    map k | k in states ::
      if k.file == f && (states[k].state.Pending? || states[k].state.Deleting?)
      then states[k].(state := Live, nextAttemptAt := 0, leaseUntil := 0)
      else states[k]
  }

  datatype ClaimResult = ClaimResult(tables: Tables, claimed: bool)

  function ClaimCandidate(t: Tables, k: PartKey, now: int): (r: ClaimResult)
    requires k in t.states
    ensures SameButStates(t, r.tables) && r.tables.states.Keys == t.states.Keys
  {
    var row := t.states[k];
    if HasLiveReference(t, k.file) then
      ClaimResult(t.(states := RestoreFile(t.states, k.file)), false)
    else if now >= row.uploadedAt + DeleteDeadline then
      if row.state.Pending? || row.state.Deleting?
      then ClaimResult(t.(states := t.states[k := row.(state := Expired, leaseUntil := 0)]), false)
      else ClaimResult(t, false)
    else if row.state.Pending? then
      ClaimResult(t.(states := t.states[k := row.(state := Deleting, attempts := row.attempts + 1,
                                                  leaseUntil := now + DeleteLease)]), true)
    else ClaimResult(t, false)
  }

  datatype Claims = Claims(tables: Tables, works: seq<PartKey>)

  function ClaimEach(t: Tables, candidates: seq<PartKey>, now: int): (r: Claims)
    requires forall i :: 0 <= i < |candidates| ==> candidates[i] in t.states
    ensures SameButStates(t, r.tables) && r.tables.states.Keys == t.states.Keys
  {
    if candidates == [] then Claims(t, []) else
      var n := |candidates| - 1;
      var before := ClaimEach(t, candidates[..n], now);
      var last := ClaimCandidate(before.tables, candidates[n], now);
      Claims(last.tables, if last.claimed then before.works + [candidates[n]] else before.works)
  }

  /** claimBlockDeleteWork: expired leases are restored, then the candidates are taken in turn. */
  function ClaimWork(t: Tables, backend: string, candidates: seq<PartKey>, now: int): (r: Claims)
    requires forall i :: 0 <= i < |candidates| ==> candidates[i] in t.states
    ensures SameButStates(t, r.tables) && r.tables.states.Keys == t.states.Keys
  {
    ClaimEach(t.(states := RestoreExpiredLeases(t.states, backend, now)), candidates, now)
  }

  /** finishBlockDeleteWork for one row. */
  function FinishRow(t: Tables, k: PartKey, state: DeleteState, nextAttemptAt: int): (r: Tables)
    ensures SameButStates(t, r) && r.states.Keys == t.states.Keys
  {
    if k in t.states && t.states[k].state.Deleting?
    then t.(states := t.states[k := t.states[k].(state := state, nextAttemptAt := nextAttemptAt, leaseUntil := 0)])
    else t
  }
}
