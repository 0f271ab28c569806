/** Backup pins, import files and the delete worker keep the invariant. */
module BlockWorkerProofs {
  import opened BlockTables
  import opened BlockSteps
  import opened BlockWorker
  import opened BlockInvariant
  import opened BlockMappingProofs

  // ---------------------------------------------------------------------------
  // Export pins
  // ---------------------------------------------------------------------------

  lemma PinsOnlyReferences(t: Tables, r: Tables, f: FileId)
    requires r == t.(pins := r.pins)
    ensures HasLiveReference(r, f) == (Pinned(r, f) || Mapped(t, f) || InMappedComposite(t, f) || InActiveUpload(t, f))
    ensures forall c, g :: SourceOf(r, c, g) == SourceOf(t, c, g)
  {
    assert forall c, g :: SourceOf(r, c, g) == SourceOf(t, c, g);
    assert forall g :: Mapped(r, g) == Mapped(t, g);
    assert InMappedComposite(r, f) == InMappedComposite(t, f);
    assert forall k :: IsActivePart(r, k) == IsActivePart(t, k);
    assert InActiveUpload(r, f) == InActiveUpload(t, f);
  }

  lemma SnapshotFileIsLive(t: Tables, entries: set<EntryId>, f: FileId)
    requires Sound(t) && (forall e :: e in entries ==> e in t.mappings && TreeExportable(t, t.mappings[e]))
    requires f in SnapshotFiles(t, entries)
    ensures AllLive(t, f) && t.files[f].ready
    ensures forall g :: SourceOf(t, f, g) ==> g in SnapshotFiles(t, entries)
  {
    var e :| e in entries && (t.mappings[e] == f || SourceOf(t, t.mappings[e], f));
    assert TreeExportable(t, t.mappings[e]);
  }

  lemma CreateSnapshotKeeps(t: Tables, job: JobId, entries: set<EntryId>)
    requires Inv(t) && CreateSnapshot(t, job, entries).Ok?
    ensures GoodStep(t, CreateSnapshot(t, job, entries).value)
  {
    var r := CreateSnapshot(t, job, entries).value;
    var fs := SnapshotFiles(t, entries);
    forall f | f in fs ensures AllLive(t, f) && t.files[f].ready && forall g :: SourceOf(t, f, g) ==> g in fs {
      SnapshotFileIsLive(t, entries, f);
    }
    forall f
      ensures HasLiveReference(r, f)
           == (Pinned(r, f) || Mapped(t, f) || InMappedComposite(t, f) || InActiveUpload(t, f))
    {
      PinsOnlyReferences(t, r, f);
    }
    PinsOnlyReferences(t, r, 0);
    assert PinsSound(r);
    forall f ensures HasLiveReference(t, f) ==> HasLiveReference(r, f) {
      if Pinned(t, f) {
        var p :| p in t.pins && p.file == f;
        assert p in r.pins;
      }
    }
    forall f | HasLiveReference(r, f) && !HasLiveReference(t, f) ensures AllLive(t, f) {
      var p :| p in r.pins && p.file == f;
      assert f in fs;
    }
    GainKeepsSafe(t, r);
  }

  lemma ReleaseSnapshotKeeps(t: Tables, job: JobId)
    requires Inv(t)
    ensures Inv(ReleaseSnapshot(t, job)) && Monotone(t, ReleaseSnapshot(t, job))
  {
    var r := ReleaseSnapshot(t, job);
    forall f ensures HasLiveReference(r, f) ==> HasLiveReference(t, f) {
      PinsOnlyReferences(t, r, f);
    }
    PinsOnlyReferences(t, r, 0);
  }

  /** Nothing but the pins of `job` refers to `f`. */
  predicate OnlyPinnedBy(t: Tables, job: JobId, f: FileId) {
    && Pin(job, f) in t.pins && (forall p :: p in t.pins && p.file == f ==> p.job == job)
    && !Mapped(t, f) && !InMappedComposite(t, f) && !InActiveUpload(t, f)
  }

  /** Releasing export pins marks nothing, so a part stays live without a reference exactly
      when the released pins were all its file had. */
  lemma ReleaseLeaksExactly(t: Tables, job: JobId, k: PartKey)
    requires Inv(t) && k in t.states
    ensures var u := ReleaseSnapshot(t, job);
      (HasLiveReference(t, k.file) && !HasLiveReference(u, k.file) && u.states[k].state.Live?)
        <==> OnlyPinnedBy(t, job, k.file)
  {
    var u := ReleaseSnapshot(t, job);
    PinsOnlyReferences(t, u, k.file);
    if OnlyPinnedBy(t, job, k.file) {
      assert Pinned(t, k.file);
    }
    if HasLiveReference(t, k.file) && !HasLiveReference(u, k.file) {
      var p :| p in t.pins && p.file == k.file;
      assert p.job == job && p == Pin(job, k.file);
    }
  }

  // ---------------------------------------------------------------------------
  // Import files
  // ---------------------------------------------------------------------------

  ghost function KeysBelow(f: FileId, n: nat): (s: set<PartKey>)
    ensures |s| == n
    ensures forall k :: k in s <==> k.file == f && k.index < n
  {
    if n == 0 then {} else KeysBelow(f, n - 1) + {PartKey(f, n - 1)}
  }

  lemma EqualSizeSubset<T>(a: set<T>, b: set<T>)
    requires a <= b && |a| == |b|
    ensures a == b
  {
    assert b == a + (b - a);
    assert |b| == |a| + |b - a|;
  }

  /** As many part rows as declared means every declared part. */
  lemma CountedPartsAreAll(t: Tables, f: FileId)
    requires PartsSound(t) && f in t.files
    requires |(set k | k in t.parts && k.file == f)| == t.files[f].partCount
    ensures HasAllParts(t, f)
  {
    EqualSizeSubset((set k | k in t.parts && k.file == f), KeysBelow(f, t.files[f].partCount));
  }

  lemma FinishImportPhysicalKeeps(t: Tables, f: FileId)
    requires Inv(t) && FinishImportPhysical(t, f).Ok?
    ensures GoodStep(t, FinishImportPhysical(t, f).value)
  {
    CountedPartsAreAll(t, f);
    FinishCreateKeeps(t, f);
  }

  lemma FinishImportCompositeKeeps(t: Tables, f: FileId, segments: seq<Segment>)
    requires Inv(t) && FinishImportComposite(t, f, segments).Ok?
    ensures GoodStep(t, FinishImportComposite(t, f, segments).value)
  {
    if !t.files[f].ready {
      FinishedCompositeSound(t, f, segments);
      FinishedCompositeReferences(t, f, segments);
    }
  }

  ghost function FinishedComposite(t: Tables, f: FileId, segments: seq<Segment>): Tables
    requires f in t.files
  {
    t.(files := t.files[f := t.files[f].(ready := true)], segments := t.segments[f := segments])
  }

  lemma FinishedCompositeSound(t: Tables, f: FileId, segments: seq<Segment>)
    requires Inv(t) && FinishImportComposite(t, f, segments).Ok? && !t.files[f].ready
    ensures Sound(FinishedComposite(t, f, segments))
  {
    var r := FinishedComposite(t, f, segments);
    assert !Mapped(t, f) && !Pinned(t, f);
    assert forall c, g :: c != f ==> SourceOf(r, c, g) == SourceOf(t, c, g);
    assert SegmentsSound(r) && PinsSound(r);
    assert PartsSound(r) && ReadyComplete(r) && MappedReady(r) && UploadsSound(r);
  }

  /** The composite is not mapped yet, so its segments are no references. */
  lemma FinishedCompositeReferences(t: Tables, f: FileId, segments: seq<Segment>)
    requires Inv(t) && FinishImportComposite(t, f, segments).Ok? && !t.files[f].ready
    ensures forall g :: HasLiveReference(FinishedComposite(t, f, segments), g) == HasLiveReference(t, g)
  {
    var r := FinishedComposite(t, f, segments);
    assert !Mapped(t, f);
    assert forall g :: Mapped(r, g) == Mapped(t, g);
    assert forall c, g :: c != f ==> SourceOf(r, c, g) == SourceOf(t, c, g);
    forall g ensures HasLiveReference(r, g) == HasLiveReference(t, g) {
      assert InMappedComposite(r, g) == InMappedComposite(t, g);
      assert forall k :: IsActivePart(r, k) == IsActivePart(t, k);
    }
  }

  // ---------------------------------------------------------------------------
  // The delete worker
  // ---------------------------------------------------------------------------

  /** A change of delete states alone that touches no live row and revives none. */
  lemma StateChangeKeeps(t: Tables, u: Tables)
    requires Inv(t) && SameButStates(t, u) && u.states.Keys == t.states.Keys
    requires forall k :: k in t.states ==> if t.states[k].state.Live? then u.states[k] == t.states[k]
                                           else Evolves(t.states[k].state, u.states[k].state)
    ensures GoodStep(t, u)
  {
    SoundIgnoresStates(t, u);
    SameReferences(t, u);
  }

  /** The branch that returns rows to live never finds any to return. */
  lemma NothingToRestore(t: Tables, f: FileId)
    requires Safe(t) && HasLiveReference(t, f)
    ensures RestoreFile(t.states, f) == t.states
  {
  }

  lemma ClaimCandidateKeeps(t: Tables, k: PartKey, now: int)
    requires Inv(t) && k in t.states
    ensures GoodStep(t, ClaimCandidate(t, k, now).tables)
    ensures ClaimCandidate(t, k, now).claimed ==>
      && t.states[k].state.Pending? && ClaimCandidate(t, k, now).tables.states[k].state.Deleting?
      && !HasLiveReference(t, k.file) && now < t.states[k].uploadedAt + DeleteDeadline
  {
    if HasLiveReference(t, k.file) {
      NothingToRestore(t, k.file);
      StateChangeKeeps(t, t);
    } else {
      RowChangeKeeps(t, k, ClaimCandidate(t, k, now).tables);
    }
  }

  lemma RowChangeKeeps(t: Tables, k: PartKey, u: Tables)
    requires Inv(t) && k in t.states && SameButStates(t, u) && u.states.Keys == t.states.Keys
    requires forall o :: o in t.states && o != k ==> u.states[o] == t.states[o]
    requires u.states[k] == t.states[k] || (!t.states[k].state.Live? && Evolves(t.states[k].state, u.states[k].state))
    ensures GoodStep(t, u)
  {
    StateChangeKeeps(t, u);
  }

  lemma GoodStepsCompose(t: Tables, u: Tables, v: Tables)
    requires GoodStep(t, u) && GoodStep(u, v) && SameButStates(u, v) && v.states.Keys == u.states.Keys
    ensures GoodStep(t, v)
  {
    SameReferences(u, v);
  }

  lemma {:induction false} ClaimEachKeeps(t: Tables, candidates: seq<PartKey>, now: int)
    requires Inv(t) && forall i :: 0 <= i < |candidates| ==> candidates[i] in t.states
    ensures GoodStep(t, ClaimEach(t, candidates, now).tables)
    ensures forall k :: k in ClaimEach(t, candidates, now).works ==>
      && k in t.states && !ClaimEach(t, candidates, now).tables.states[k].state.Live?
      && now < t.states[k].uploadedAt + DeleteDeadline
  {
    if candidates != [] {
      var n := |candidates| - 1;
      var before := ClaimEach(t, candidates[..n], now);
      ClaimEachKeeps(t, candidates[..n], now);
      ClaimCandidateKeeps(before.tables, candidates[n], now);
      ClaimEachKeepsUploadTimes(t, candidates[..n], now);
      GoodStepsCompose(t, before.tables, ClaimEach(t, candidates, now).tables);
    }
  }

  lemma ClaimKeepsUploadTimes(t: Tables, k: PartKey, now: int)
    requires k in t.states
    ensures var u := ClaimCandidate(t, k, now).tables;
      forall o :: o in t.states ==> u.states[o].uploadedAt == t.states[o].uploadedAt
  {
  }

  lemma {:induction false} ClaimEachKeepsUploadTimes(t: Tables, candidates: seq<PartKey>, now: int)
    requires forall i :: 0 <= i < |candidates| ==> candidates[i] in t.states
    ensures var u := ClaimEach(t, candidates, now).tables;
      forall k :: k in t.states ==> u.states[k].uploadedAt == t.states[k].uploadedAt
  {
    if candidates != [] {
      var n := |candidates| - 1;
      ClaimEachKeepsUploadTimes(t, candidates[..n], now);
      ClaimKeepsUploadTimes(ClaimEach(t, candidates[..n], now).tables, candidates[n], now);
    }
  }

  /** Whatever is claimed is out of use, before its deadline, and no longer live. */
  lemma ClaimWorkKeeps(t: Tables, backend: string, candidates: seq<PartKey>, now: int)
    requires Inv(t) && forall i :: 0 <= i < |candidates| ==> candidates[i] in t.states
    ensures GoodStep(t, ClaimWork(t, backend, candidates, now).tables)
    ensures forall k :: k in ClaimWork(t, backend, candidates, now).works ==>
      && k in t.states && !ClaimWork(t, backend, candidates, now).tables.states[k].state.Live?
      && now < t.states[k].uploadedAt + DeleteDeadline
  {
    var u := t.(states := RestoreExpiredLeases(t.states, backend, now));
    StateChangeKeeps(t, u);
    ClaimEachKeeps(u, candidates, now);
    GoodStepsCompose(t, u, ClaimEach(u, candidates, now).tables);
  }

  lemma FinishRowKeeps(t: Tables, k: PartKey, state: DeleteState, nextAttemptAt: int)
    requires Inv(t) && !state.Live?
    ensures GoodStep(t, FinishRow(t, k, state, nextAttemptAt))
  {
    StateChangeKeeps(t, FinishRow(t, k, state, nextAttemptAt));
  }
}
