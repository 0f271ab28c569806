/** What completing a multipart upload produces, and that completing it again changes nothing
    (filemgr/s3_multipart.go). */
module BlockCompletion {
  import opened BlockTables
  import opened BlockSteps
  import opened BlockInvariant
  import opened BlockUploadProofs
  import opened BlockShapes
  import opened BlockRuns

  /** Upload `u` of `t` was assembled into file `f` of `r` from exactly the requested parts. */
  ghost predicate Assembled(t: Tables, r: Tables, u: UploadId, request: seq<CompletedPart>, f: FileId) {
    && f !in t.files && f in r.files && f in r.segments
    && r.files[f].layout.Composite? && r.files[f].ready
    && |r.segments[f]| == |request|
    && r.files[f].size == TotalSize(r.segments[f])
    && (forall i :: 0 <= i < |request| ==>
         var k := UploadPartKey(u, request[i].number);
         k in t.uploadParts && t.uploadParts[k].tag == request[i].tag
         && r.segments[f][i] == Segment(t.uploadParts[k].file, t.uploadParts[k].size))
    && (forall i, j :: 0 <= i < j < |request| ==> request[i].number < request[j].number)
  }

  ghost predicate Requested(request: seq<CompletedPart>, number: nat) {
    exists i :: 0 <= i < |request| && request[i].number == number
  }

  /** Each part that was active is selected if it was requested and discarded if not; every
      other row is as it was. */
  ghost predicate PartsSettled(t: Tables, r: Tables, u: UploadId, request: seq<CompletedPart>) {
    && r.uploadParts.Keys == t.uploadParts.Keys
    && forall k :: k in t.uploadParts ==> r.uploadParts[k] == SettledPart(t, u, request, k)
  }

  ghost function SettledPart(t: Tables, u: UploadId, request: seq<CompletedPart>, k: UploadPartKey): UploadPart
    requires k in t.uploadParts
  {
    if k.upload != u || !t.uploadParts[k].state.PartActive? then t.uploadParts[k]
    else t.uploadParts[k].(state := if Requested(request, k.number) then Selected else Discarded)
  }

  lemma CompletionAssembles(t: Tables, u: UploadId, request: seq<CompletedPart>, f: FileId,
                            current: Option<EntryId>, e: EntryId, now: int)
    requires Inv(t) && u in t.uploads && t.uploads[u].state.Active? && t.uploads[u].expiresAt > now
    requires CompleteUpload(t, u, request, f, current, e, now).Ok?
    ensures var c := CompleteUpload(t, u, request, f, current, e, now).value;
      && Assembled(t, c.tables, u, request, f)
      && c.outcome == Done(f, c.tables.files[f].size, Tags(request))
      && e in c.tables.mappings && c.tables.mappings[e] == f
      && u in c.tables.uploads && c.tables.uploads[u] == CompletedRow(t.uploads[u], request, f, now)
  {
    var p, d := CompleteActiveUnfolds(t, u, request, f, current, e, now);
    CompletionRounds(t, u, request, f, current, e, now, p, d);
    FinalizedTables(t, u, request, f, current, e, now, p, d);
    forall i | 0 <= i < |request| ensures CompletionPartOk(t, u, request[i], i == |request| - 1) {
    }
  }

  lemma SelectDiscards(t: Tables, u: UploadId, request: seq<CompletedPart>, k: UploadPartKey)
    requires k in t.uploadParts && CompletionPartsOk(t, u, request)
    ensures SelectParts(DiscardParts(t, u), u, request)[k] == SettledPart(t, u, request, k)
  {
    if k.upload == u && Requested(request, k.number) {
      var i :| 0 <= i < |request| && request[i].number == k.number;
      assert CompletionPartOk(t, u, request[i], i == |request| - 1);
      assert UploadPartKey(u, k.number) == k;
    }
  }

  lemma CompletionSettlesParts(t: Tables, u: UploadId, request: seq<CompletedPart>, f: FileId,
                               current: Option<EntryId>, e: EntryId, now: int)
    requires Inv(t) && u in t.uploads && t.uploads[u].state.Active? && t.uploads[u].expiresAt > now
    requires CompleteUpload(t, u, request, f, current, e, now).Ok?
    ensures PartsSettled(t, CompleteUpload(t, u, request, f, current, e, now).value.tables, u, request)
  {
    var p, d := CompleteActiveUnfolds(t, u, request, f, current, e, now);
    CompletionRounds(t, u, request, f, current, e, now, p, d);
    FinalizedTables(t, u, request, f, current, e, now, p, d);
    forall k | k in t.uploadParts { SelectDiscards(t, u, request, k); }
  }

  // ---------------------------------------------------------------------------
  // Completing again
  // ---------------------------------------------------------------------------

  /** The stored row answers a repeated completion with the stored file and tag, whatever the other
      arguments, and refuses one with other parts; the tables stay as they are. */
  lemma RepeatReadsBack(t: Tables, u: UploadId, request: seq<CompletedPart>, f: FileId, now: int,
                        again: seq<CompletedPart>, g: FileId, current: Option<EntryId>, e: EntryId, later: int,
                        row: Upload)
    requires SourcesPhysical(t) && ValidRequest(request) && u in t.uploads
    requires t.uploads[u] == CompletedRow(row, request, f, now) && f in t.files
    ensures CompleteUpload(t, u, again, g, current, e, later)
         == if again == request then Ok(Completion(t, Done(f, t.files[f].size, Tags(request)))) else Err
  {
  }

  lemma PurgeRow(t: Tables, o: UploadId, now: int, u: UploadId)
    requires PurgeUpload(t, o, now).Ok? && u in t.uploads && u != o
    ensures RowStays(t, PurgeUpload(t, o, now).value, u)
  {
  }

  /** A completed upload's row stays as it is until it is purged. */
  lemma CompletedRowStays(t: Tables, step: Step, u: UploadId)
    requires Inv(t) && Apply(t, step).Ok? && u in t.uploads && t.uploads[u].state.Completed?
    requires step.StepPurge? ==> step.upload != u
    ensures RowStays(t, Apply(t, step).value, u)
  {
    if IsUploadStep(step) {
      UploadStepShape(t, step);
      if step.StepPurge? { PurgeRow(t, step.upload, step.now, u); }
    } else if IsMappingStep(step) {
      MappingStepShape(t, step);
    } else if IsFileStep(step) {
      FileStepShape(t, step);
    } else {
      OtherStepShape(t, step);
    }
  }

  lemma StepKeepsCompletion(states: seq<Tables>, steps: seq<Step>, i: nat, u: UploadId)
    requires IsRun(states, steps) && i < |steps| && u in states[i].uploads && states[i].uploads[u].state.Completed?
    requires steps[i].StepPurge? ==> steps[i].upload != u
    ensures RowStays(states[i], states[i + 1], u)
  {
    RunKeepsInv(states, steps, i);
    RunStep(states, steps, i);
    CompletedRowStays(states[i], steps[i], u);
  }

  lemma {:induction false} RunKeepsCompletion(states: seq<Tables>, steps: seq<Step>, i: nat, j: nat, u: UploadId,
                                              f: FileId)
    requires IsRun(states, steps) && i <= j < |states|
    requires u in states[i].uploads && states[i].uploads[u].state.Completed? && f in states[i].files
    requires forall n :: i <= n < j && steps[n].StepPurge? ==> steps[n].upload != u
    ensures u in states[j].uploads && states[j].uploads[u] == states[i].uploads[u]
    ensures f in states[j].files && states[j].files[f].size == states[i].files[f].size
    decreases j
  {
    if i < j {
      RunKeepsCompletion(states, steps, i, j - 1, u, f);
      StepKeepsCompletion(states, steps, j - 1, u);
      RunStepGrows(states, steps, j - 1);
    }
  }

  /** After a completion, at any later point of any run before the upload's control row is
      purged, completing with the same parts creates nothing and gives the same answer, and completing
      with other parts is refused. */
  lemma CompletionIsIdempotent(states: seq<Tables>, steps: seq<Step>, i: nat, j: nat, again: seq<CompletedPart>,
                               g: FileId, current: Option<EntryId>, e: EntryId, later: int)
    requires IsRun(states, steps) && i < |steps| && i < j < |states| && steps[i].StepComplete?
    requires var s := steps[i];
      && s.upload in states[i].uploads
      && states[i].uploads[s.upload].state.Active? && states[i].uploads[s.upload].expiresAt > s.now
    requires forall n :: i < n < j && steps[n].StepPurge? ==> steps[n].upload != steps[i].upload
    ensures SourcesPhysical(states[j])
    ensures var s := steps[i];
      && s.file in states[i + 1].files
      && CompleteUpload(states[j], s.upload, again, g, current, e, later)
           == if again == s.request
              then Ok(Completion(states[j], Done(s.file, states[i + 1].files[s.file].size, Tags(s.request))))
              else Err
  {
    var s := steps[i];
    RunKeepsInv(states, steps, i);
    RunStep(states, steps, i);
    RunKeepsInv(states, steps, j);
    CompletionAssembles(states[i], s.upload, s.request, s.file, s.current, s.entry, s.now);
    RunKeepsCompletion(states, steps, i + 1, j, s.upload, s.file);
    RepeatReadsBack(states[j], s.upload, s.request, s.file, s.now, again, g, current, e, later,
                    states[i].uploads[s.upload]);
  }
}
