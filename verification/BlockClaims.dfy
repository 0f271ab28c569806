/** What a claim of the delete worker does to each row (filemgr/block_delete_worker.go), whatever the
    order of its candidates, and that nothing that is due is passed over. */
module BlockClaims {
  import opened BlockTables
  import opened BlockWorker
  import opened BlockInvariant

  /** The lease of the worker that has the row has run out. */
  predicate LeaseOut(row: DeleteRow, backend: string, now: int) {
    row.state.Deleting? && row.backend == backend && row.leaseUntil <= now
  }

  /** A worker may still delete the block. */
  predicate InTime(row: DeleteRow, now: int) {
    now < row.uploadedAt + DeleteDeadline
  }

  /** A claim takes the row: it is a candidate that nobody has, or whose lease has run out, in time. */
  predicate Takes(row: DeleteRow, candidate: bool, backend: string, now: int) {
    candidate && (row.state.Pending? || LeaseOut(row, backend, now)) && InTime(row, now)
  }

  predicate Expires(row: DeleteRow, candidate: bool, now: int) {
    candidate && (row.state.Pending? || row.state.Deleting?) && !InTime(row, now)
  }

  /** The row that a claim leaves. */
  function AfterClaim(row: DeleteRow, candidate: bool, backend: string, now: int): DeleteRow {
    var due := if LeaseOut(row, backend, now) then now else row.nextAttemptAt;
    if Takes(row, candidate, backend, now) then
      DeleteRow(row.backend, row.uploadedAt, Deleting, row.attempts + 1, due, now + DeleteLease)
    else if Expires(row, candidate, now) then
      DeleteRow(row.backend, row.uploadedAt, Expired, row.attempts, due, 0)
    else if LeaseOut(row, backend, now) then
      DeleteRow(row.backend, row.uploadedAt, Pending, row.attempts, now, 0)
    else row
  }

  /** What the candidates in turn make of a row. */
  ghost predicate Handled(row: DeleteRow, candidate: bool, now: int, after: DeleteRow) {
    after ==
      if candidate && row.state.Pending? && InTime(row, now)
      then row.(state := Deleting, attempts := row.attempts + 1, leaseUntil := now + DeleteLease)
      else if Expires(row, candidate, now) then row.(state := Expired, leaseUntil := 0)
      else row
  }

  ghost predicate AllHandled(t: Tables, candidates: seq<PartKey>, now: int, r: Claims) {
    && SameButStates(t, r.tables) && r.tables.states.Keys == t.states.Keys
    && (forall k :: k in t.states ==> Handled(t.states[k], k in candidates, now, r.tables.states[k]))
    && (forall k :: k in r.works <==> k in candidates && k in t.states && t.states[k].state.Pending?
                                      && InTime(t.states[k], now))
    && forall i, j :: 0 <= i < j < |r.works| ==> r.works[i] != r.works[j]
  }

  lemma {:induction false} EachHandled(t: Tables, candidates: seq<PartKey>, now: int)
    requires Safe(t) && forall i :: 0 <= i < |candidates| ==> candidates[i] in t.states
    ensures AllHandled(t, candidates, now, ClaimEach(t, candidates, now))
  {
    if candidates == [] {
      NoneHandled(t, now);
    } else {
      var b, k := candidates[..|candidates| - 1], candidates[|candidates| - 1];
      EachHandled(t, b, now);
      HandledSafe(t, b, now, ClaimEach(t, b, now));
      NextHandled(t, b, k, now, ClaimEach(t, b, now));
      ClaimEachNext(t, b, k, now);
      assert candidates == b + [k];
    }
  }

  lemma NoneHandled(t: Tables, now: int)
    ensures AllHandled(t, [], now, ClaimEach(t, [], now))
  {
  }

  lemma ClaimEachNext(t: Tables, candidates: seq<PartKey>, k: PartKey, now: int)
    requires k in t.states && forall i :: 0 <= i < |candidates| ==> candidates[i] in t.states
    ensures ClaimEach(t, candidates + [k], now) == NextClaims(ClaimEach(t, candidates, now), k, now)
  {
    assert (candidates + [k])[..|candidates|] == candidates;
  }

  /** The claim of one more candidate. */
  ghost function NextClaims(before: Claims, k: PartKey, now: int): Claims
    requires k in before.tables.states
  {
    var last := ClaimCandidate(before.tables, k, now);
    Claims(last.tables, if last.claimed then before.works + [k] else before.works)
  }

  /** Handling rows makes none live and leaves live ones alone. */
  lemma HandledSafe(t: Tables, candidates: seq<PartKey>, now: int, r: Claims)
    requires Safe(t) && AllHandled(t, candidates, now, r)
    ensures Safe(r.tables)
  {
    SameReferences(t, r.tables);
    forall k | k in r.tables.states && HasLiveReference(r.tables, k.file) ensures r.tables.states[k].state.Live? {
      assert Handled(t.states[k], k in candidates, now, r.tables.states[k]);
    }
  }

  lemma NextHandled(t: Tables, candidates: seq<PartKey>, k: PartKey, now: int, before: Claims)
    requires Safe(t) && k in t.states && AllHandled(t, candidates, now, before) && Safe(before.tables)
    ensures AllHandled(t, candidates + [k], now, NextClaims(before, k, now))
  {
    var last := ClaimCandidate(before.tables, k, now);
    var works := if last.claimed then before.works + [k] else before.works;
    SameReferences(t, before.tables);
    assert Handled(t.states[k], k in candidates, now, before.tables.states[k]);
    CandidateHandled(before.tables, k, now);
    forall o | o in t.states ensures Handled(t.states[o], o in candidates + [k], now, last.tables.states[o]) {
      assert Handled(t.states[o], o in candidates, now, before.tables.states[o]);
    }
  }

  lemma CandidateHandled(t: Tables, k: PartKey, now: int)
    requires Safe(t) && k in t.states
    ensures var r := ClaimCandidate(t, k, now);
      && (r.claimed <==> t.states[k].state.Pending? && InTime(t.states[k], now))
      && Handled(t.states[k], true, now, r.tables.states[k])
      && forall o :: o in t.states && o != k ==> r.tables.states[o] == t.states[o]
  {
  }

  lemma LeasesRestored(t: Tables, backend: string, now: int, k: PartKey)
    requires k in t.states
    ensures RestoreExpiredLeases(t.states, backend, now)[k] ==
      if LeaseOut(t.states[k], backend, now)
      then DeleteRow(t.states[k].backend, t.states[k].uploadedAt, Pending, t.states[k].attempts, now, 0)
      else t.states[k]
  {
  }

  lemma RestoredSafe(t: Tables, backend: string, now: int)
    requires Safe(t)
    ensures Safe(t.(states := RestoreExpiredLeases(t.states, backend, now)))
  {
    SameReferences(t, t.(states := RestoreExpiredLeases(t.states, backend, now)));
  }

  /** A claim takes exactly the candidates that nobody has, or whose lease has run out, before their
      deadline, each once, and this is the row it leaves of each. */
  lemma ClaimedExactly(t: Tables, backend: string, candidates: seq<PartKey>, now: int)
    requires Safe(t) && forall i :: 0 <= i < |candidates| ==> candidates[i] in t.states
    ensures var r := ClaimWork(t, backend, candidates, now);
      && (forall k :: k in r.works <==> k in t.states && Takes(t.states[k], k in candidates, backend, now))
      && (forall k :: k in t.states ==>
            r.tables.states[k] == AfterClaim(t.states[k], k in candidates, backend, now))
      && forall i, j :: 0 <= i < j < |r.works| ==> r.works[i] != r.works[j]
  {
    var s := t.(states := RestoreExpiredLeases(t.states, backend, now));
    RestoredSafe(t, backend, now);
    EachHandled(s, candidates, now);
    var r := ClaimEach(s, candidates, now);
    forall k | k in t.states
      ensures r.tables.states[k] == AfterClaim(t.states[k], k in candidates, backend, now)
      ensures k in r.works <==> Takes(t.states[k], k in candidates, backend, now)
    {
      LeasesRestored(t, backend, now, k);
      assert Handled(s.states[k], k in candidates, now, r.tables.states[k]);
    }
  }

  // ---------------------------------------------------------------------------
  // The query
  // ---------------------------------------------------------------------------

  const DeleteBatchSize := 100

  predicate Due(row: DeleteRow, backend: string, now: int) {
    row.backend == backend && row.state.Pending? && row.nextAttemptAt <= now
  }

  /** The order of the query: by upload time, file and part. */
  predicate Before(states: map<PartKey, DeleteRow>, a: PartKey, b: PartKey)
    requires a in states && b in states
  {
    || states[a].uploadedAt < states[b].uploadedAt
    || (states[a].uploadedAt == states[b].uploadedAt && (a.file < b.file || (a.file == b.file && a.index < b.index)))
  }

  /** The rows are due, in order, and others are left out only where the batch is full and only later ones. */
  ghost predicate IsQuery(states: map<PartKey, DeleteRow>, backend: string, now: int, candidates: seq<PartKey>) {
    && |candidates| <= DeleteBatchSize
    && (forall i :: 0 <= i < |candidates| ==> candidates[i] in states && Due(states[candidates[i]], backend, now))
    && (forall i, j :: 0 <= i < j < |candidates| ==> Before(states, candidates[i], candidates[j]))
    && forall k :: k in states && Due(states[k], backend, now) && k !in candidates ==>
         |candidates| == DeleteBatchSize && forall i :: 0 <= i < |candidates| ==> Before(states, candidates[i], k)
  }

  /** Every block that is due, or whose lease has run out, is taken, or expired if it is late, unless a
      full batch of others goes before it. */
  lemma DueIsTaken(t: Tables, backend: string, candidates: seq<PartKey>, now: int, k: PartKey)
    requires Safe(t) && IsQuery(RestoreExpiredLeases(t.states, backend, now), backend, now, candidates)
    requires k in t.states && (Due(t.states[k], backend, now) || LeaseOut(t.states[k], backend, now))
    ensures forall i :: 0 <= i < |candidates| ==> candidates[i] in t.states
    ensures var r := ClaimWork(t, backend, candidates, now);
      || (InTime(t.states[k], now) && k in r.works && r.tables.states[k].state.Deleting?
          && r.tables.states[k].leaseUntil == now + DeleteLease)
      || (!InTime(t.states[k], now) && r.tables.states[k].state.Expired?)
      || (|candidates| == DeleteBatchSize && forall i :: 0 <= i < |candidates| ==>
            candidates[i] in t.states && Before(t.states, candidates[i], k))
  {
    var s := RestoreExpiredLeases(t.states, backend, now);
    LeasesRestored(t, backend, now, k);
    ClaimedExactly(t, backend, candidates, now);
    if k !in candidates {
      forall i | 0 <= i < |candidates| ensures Before(t.states, candidates[i], k) {
        assert Before(s, candidates[i], k);
      }
    }
  }
}
