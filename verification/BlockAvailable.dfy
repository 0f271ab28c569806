/** Over every run, whatever is mapped may be linked and exported again, and a completion is refused for its
    request only. */
module BlockAvailable {
  import opened BlockTables
  import opened BlockSteps
  import opened BlockInvariant
  import opened BlockMappingProofs
  import opened BlockUploadProofs
  import opened BlockWorkerProofs
  import opened BlockShapes
  import opened BlockOutcomes
  import opened BlockCompletion
  import opened BlockRuns

  // ---------------------------------------------------------------------------
  // Delete rows
  // ---------------------------------------------------------------------------

  lemma StepRowsComplete(t: Tables, step: Step)
    requires Inv(t) && Apply(t, step).Ok? && RowsComplete(t)
    ensures RowsComplete(Apply(t, step).value)
  {
    ApplyKeepsInv(t, step);
    ApplyGrows(t, step);
  }

  lemma {:induction false} RunRowsComplete(states: seq<Tables>, steps: seq<Step>, i: nat)
    requires IsRun(states, steps) && i < |states| && RowsComplete(states[0])
    ensures RowsComplete(states[i])
  {
    if i > 0 {
      RunRowsComplete(states, steps, i - 1);
      RunKeepsInv(states, steps, i - 1);
      RunStep(states, steps, i - 1);
      StepRowsComplete(states[i - 1], steps[i - 1]);
    }
  }

  // ---------------------------------------------------------------------------
  // Manifests
  // ---------------------------------------------------------------------------

  ghost predicate TrueIfComposite(t: Tables, f: FileId) {
    IsComposite(t, f) ==> ManifestTrue(t, f)
  }

  /** Mapped composites have manifests that add up. */
  ghost predicate MappedTrue(t: Tables) {
    forall e :: e in t.mappings ==> TrueIfComposite(t, t.mappings[e])
  }

  lemma TrueStays(t: Tables, u: Tables, f: FileId)
    requires Grows(t, u) && f in t.files && TrueIfComposite(t, f)
    ensures TrueIfComposite(u, f)
  {
  }

  lemma LinkableIsTrue(t: Tables, f: FileId)
    requires Sound(t) && CanBeLinked(t, f)
    ensures f in t.files && TrueIfComposite(t, f)
  {
    if IsComposite(t, f) {
      forall i | 0 <= i < |t.segments[f]|
        ensures t.segments[f][i].source in t.files && t.files[t.segments[f][i].source].size == t.segments[f][i].size
      {
        assert SegmentLinkable(t, t.segments[f][i]);
      }
    }
  }

  /** A mapping step maps entries to what was mapped or may be linked. */
  lemma MappingStepMaps(t: Tables, step: Step, e: EntryId)
    requires Inv(t) && IsMappingStep(step) && ApplyMapping(t, step).Ok? && e in ApplyMapping(t, step).value.mappings
    ensures var f := ApplyMapping(t, step).value.mappings[e]; Mapped(t, f) || CanBeLinked(t, f)
  {
    match step
    case StepLink(_, _) =>
    case StepLockNull(_, f) => assert CanBeLinked(t, f);
    case StepReplace(x, f, now) => ReplaceExactly(t, x, f, now);
    case StepRemove(entries, now) => RemoveExactly(t, entries, now);
    case StepCopy(copies, entries, now) => CopyMaps(t, copies, entries, now, e);
    case StepPublishObject(current, x, f, now) => PublishObjectExactly(t, current, x, f, now);
    case StepCopyObject(source, current, x, now) => PublishObjectExactly(t, current, x, t.mappings[source], now);
    case StepPublishImport(items, now) => ImportMaps(t, items, now, e);
  }

  lemma CopyMaps(t: Tables, copies: seq<EntryCopy>, entries: seq<EntryId>, now: int, e: EntryId)
    requires Inv(t) && CopyEntries(t, copies, entries, now).Ok?
    requires e in CopyEntries(t, copies, entries, now).value.mappings
    ensures Mapped(t, CopyEntries(t, copies, entries, now).value.mappings[e])
  {
    CopyExactly(t, copies, entries, now);
    var m := CopyEntries(t, copies, entries, now).value.mappings;
    if IsCopyTarget(copies, e) {
      var i :| 0 <= i < |copies| && copies[i].target == e;
      assert IsCopied(t, copies[i], m);
    }
  }

  lemma ImportMaps(t: Tables, items: seq<ImportMapping>, now: int, e: EntryId)
    requires Inv(t) && PublishImport(t, items, now).Ok? && e in PublishImport(t, items, now).value.mappings
    ensures var f := PublishImport(t, items, now).value.mappings[e]; Mapped(t, f) || CanBeLinked(t, f)
  {
    ImportExactly(t, items, now);
    if IsImported(items, e) {
      var i := LastItem(items, e);
      assert LastFor(items, i);
    }
  }

  lemma {:induction false} LastItem(items: seq<ImportMapping>, e: EntryId) returns (i: nat)
    requires IsImported(items, e)
    ensures i < |items| && items[i].entry == e && LastFor(items, i)
  {
    var n := |items| - 1;
    if items[n].entry == e {
      i := n;
    } else {
      var j :| 0 <= j < |items| && items[j].entry == e;
      assert items[..n][j].entry == e;
      i := LastItem(items[..n], e);
      assert forall m :: i < m < n ==> items[..n][m] == items[m];
    }
  }

  /** A completion maps its entry to the file it made, whose manifest is true. */
  lemma CompletionMaps(t: Tables, step: Step, e: EntryId)
    requires Inv(t) && step.StepComplete? && ApplyUpload(t, step).Ok? && e in ApplyUpload(t, step).value.mappings
    ensures var u := ApplyUpload(t, step).value; Mapped(t, u.mappings[e]) || TrueIfComposite(u, u.mappings[e])
  {
    if t.uploads[step.upload].state.Active? && t.uploads[step.upload].expiresAt > step.now {
      CompletedMaps(t, step.upload, step.request, step.file, step.current, step.entry, step.now, e);
    } else if t.uploads[step.upload].state.Active? {
      AbortUploadShape(t, step.upload, step.now);
    }
  }

  lemma CompletedMaps(t: Tables, u: UploadId, request: seq<CompletedPart>, f: FileId, current: Option<EntryId>,
                      x: EntryId, now: int, e: EntryId)
    requires Inv(t) && u in t.uploads && t.uploads[u].state.Active? && ValidRequest(request)
    requires CompleteActive(t, u, request, f, current, x, now).Ok?
    requires e in CompleteActive(t, u, request, f, current, x, now).value.tables.mappings
    ensures var v := CompleteActive(t, u, request, f, current, x, now).value.tables;
      Mapped(t, v.mappings[e]) || TrueIfComposite(v, v.mappings[e])
  {
    var p, d := CompleteActiveUnfolds(t, u, request, f, current, x, now);
    var w := WithComposite(t, u, request, f);
    PublishObjectShape(w, current, x, f, now);
    FinalizePartsShape(p, u, request, CompletionSegments(t, u, request), now);
    PublishMaps(w, current, x, f, now, e);
    if p.mappings[e] == f { MadeIsTrue(w, p, f); } else { assert Mapped(t, p.mappings[e]); }
  }

  lemma PublishMaps(t: Tables, current: Option<EntryId>, x: EntryId, f: FileId, now: int, e: EntryId)
    requires SourcesPhysical(t) && PublishObject(t, current, x, f, now).Ok?
    requires e in PublishObject(t, current, x, f, now).value.mappings
    ensures CanBeLinked(t, f)
    ensures var g := PublishObject(t, current, x, f, now).value.mappings[e];
      g == f || (e in t.mappings && t.mappings[e] == g)
  {
    if current.Some? && t.mappings[current.value] != f {
      MarkTreeShape(t.(mappings := WithoutEntries(t.mappings, [current.value])[x := f]), t.mappings[current.value],
                    now);
    }
  }

  lemma MadeIsTrue(w: Tables, p: Tables, f: FileId)
    requires CanBeLinked(w, f) && p.files == w.files && p.segments == w.segments
    ensures TrueIfComposite(p, f)
  {
    if IsComposite(w, f) {
      forall i | 0 <= i < |w.segments[f]|
        ensures w.segments[f][i].source in w.files && w.files[w.segments[f][i].source].size == w.segments[f][i].size
      {
        assert SegmentLinkable(w, w.segments[f][i]);
      }
    }
  }

  /** Every entry is mapped to what was mapped before, may be linked, or is a new composite whose manifest is true. */
  lemma StepMaps(t: Tables, step: Step, e: EntryId)
    requires Inv(t) && Apply(t, step).Ok? && e in Apply(t, step).value.mappings
    ensures var u := Apply(t, step).value;
      Mapped(t, u.mappings[e]) || CanBeLinked(t, u.mappings[e]) || TrueIfComposite(u, u.mappings[e])
  {
    if IsMappingStep(step) {
      MappingStepMaps(t, step, e);
    } else if step.StepComplete? {
      CompletionMaps(t, step, e);
    } else {
      MapsStay(t, step);
      assert Mapped(t, t.mappings[e]);
    }
  }

  lemma MapsStay(t: Tables, step: Step)
    requires Inv(t) && Apply(t, step).Ok? && !IsMappingStep(step) && !step.StepComplete?
    ensures Apply(t, step).value.mappings == t.mappings
  {
    if IsUploadStep(step) {
      UploadStepShape(t, step);
    } else if IsFileStep(step) {
      FileStepShape(t, step);
    } else {
      OtherStepShape(t, step);
    }
  }

  lemma StepMappedTrue(t: Tables, step: Step)
    requires Inv(t) && Apply(t, step).Ok? && MappedTrue(t)
    ensures MappedTrue(Apply(t, step).value)
  {
    var u := Apply(t, step).value;
    ApplyGrows(t, step);
    forall e | e in u.mappings ensures TrueIfComposite(u, u.mappings[e]) {
      var f := u.mappings[e];
      StepMaps(t, step, e);
      if Mapped(t, f) {
        var x :| x in t.mappings && t.mappings[x] == f;
        TrueStays(t, u, f);
      } else if CanBeLinked(t, f) {
        LinkableIsTrue(t, f);
        TrueStays(t, u, f);
      }
    }
  }

  lemma {:induction false} RunMappedTrue(states: seq<Tables>, steps: seq<Step>, i: nat)
    requires IsRun(states, steps) && i < |states| && MappedTrue(states[0])
    ensures MappedTrue(states[i])
  {
    if i > 0 {
      RunMappedTrue(states, steps, i - 1);
      RunKeepsInv(states, steps, i - 1);
      RunStep(states, steps, i - 1);
      StepMappedTrue(states[i - 1], steps[i - 1]);
    }
  }

  /** Over every run, such as one from the empty tables, whatever is mapped may be linked and exported again. */
  lemma MappedStaysAvailable(states: seq<Tables>, steps: seq<Step>, i: nat, e: EntryId)
    requires IsRun(states, steps) && RowsComplete(states[0]) && MappedTrue(states[0])
    requires i < |states| && e in states[i].mappings
    ensures CanBeLinked(states[i], states[i].mappings[e]) && TreeExportable(states[i], states[i].mappings[e])
  {
    RunKeepsInv(states, steps, i);
    RunRowsComplete(states, steps, i);
    RunMappedTrue(states, steps, i);
    assert TrueIfComposite(states[i], states[i].mappings[e]);
    MappedIsLinkable(states[i], e);
    MappedIsExportable(states[i], e);
  }

  // ---------------------------------------------------------------------------
  // Completions
  // ---------------------------------------------------------------------------

  /** Each uploaded part is as large as its file. */
  ghost predicate PartSizesTrue(t: Tables) {
    forall k :: k in t.uploadParts ==> PartSizeTrue(t, t.uploadParts[k])
  }

  predicate PartSizeTrue(t: Tables, part: UploadPart) {
    part.file in t.files && t.files[part.file].size == part.size
  }

  /** The composite of parts that pass their checks may be linked. */
  lemma CompositeMayBeLinked(t: Tables, u: UploadId, request: seq<CompletedPart>, f: FileId)
    requires Inv(t) && PartSizesTrue(t) && u in t.uploads && CompletionPartsOk(t, u, request) && request != []
    requires f !in t.files
    ensures CanBeLinked(WithComposite(t, u, request, f), f)
  {
    var w, segments := WithComposite(t, u, request, f), CompletionSegments(t, u, request);
    forall i | 0 <= i < |segments| ensures SegmentLinkable(w, segments[i]) {
      assert CompletionPartOk(t, u, request[i], i == |request| - 1);
      var k := UploadPartKey(u, request[i].number);
      assert PartSizeTrue(t, t.uploadParts[k]);
      StagedIsLinkable(t, w, t.uploadParts[k].file);
    }
  }

  lemma StagedIsLinkable(t: Tables, w: Tables, g: FileId)
    requires Sound(t) && g in t.files && StagingLive(t, g) && w.states == t.states && w.parts == t.parts
    requires g in w.files && w.files[g] == t.files[g]
    ensures AllLive(w, g) && DeletionRefsComplete(w, g)
  {
    StagingLiveIsLive(t, g);
    var all := set k | k in t.parts && k.file == g;
    var rows := set k | k in t.parts && k.file == g && k in t.states;
    EqualSizeSubset(rows, all);
    assert (set k | k in w.parts && k.file == g) == all;
    assert (set k | k in w.parts && k.file == g && k in w.states && w.states[k].state.Live?) == rows;
  }

  lemma FinalizeSucceeds(t: Tables, p: Tables, u: UploadId, request: seq<CompletedPart>, segments: seq<Segment>,
                         now: int)
    requires UploadsSound(t) && SourcesPhysical(p) && u in p.uploads && p.uploadParts == t.uploadParts
    requires forall g :: g in t.files ==> g in p.files
    ensures FinalizeParts(p, u, request, segments, now).Ok?
  {
    var ids := Unselected(ActivePartFiles(p, u, MaxUploadParts), segments);
    ActivePartFilesSame(t, p, u, MaxUploadParts);
    ActiveFilesExist(t, u);
    assert forall i :: 0 <= i < |ids| ==> ids[i] in ids;
    MarkEachSucceeds(p.(uploadParts := SelectParts(DiscardParts(p, u), u, request)), ids, now);
  }

  /** The requested part is there with its tag, of at least 5 MiB unless it is the last, and its file is not
      mapped. */
  predicate PartFound(t: Tables, u: UploadId, requested: CompletedPart, last: bool) {
    var k := UploadPartKey(u, requested.number);
    && k in t.uploadParts && t.uploadParts[k].state.PartActive? && t.uploadParts[k].tag == requested.tag
    && (last || t.uploadParts[k].size >= 5 * 1024 * 1024) && !Mapped(t, t.uploadParts[k].file)
  }

  /** The blocks of the parts of an active upload are live, so looking at them refuses nothing. */
  lemma PartOkExactly(t: Tables, u: UploadId, requested: CompletedPart, last: bool)
    requires Inv(t) && RowsComplete(t) && u in t.uploads && t.uploads[u].state.Active?
    ensures CompletionPartOk(t, u, requested, last) <==> PartFound(t, u, requested, last)
  {
    var k := UploadPartKey(u, requested.number);
    if k in t.uploadParts && t.uploadParts[k].state.PartActive? && !Mapped(t, t.uploadParts[k].file) {
      var f := t.uploadParts[k].file;
      assert IsActivePart(t, k);
      StageableExactly(t, f, t.files[f].size);
    }
  }

  /** What a request may be refused for. */
  ghost predicate Completable(t: Tables, u: UploadId, request: seq<CompletedPart>, f: FileId,
                              current: Option<EntryId>, e: EntryId)
  {
    && 0 < |request| <= 10_000 && (forall i :: 0 <= i < |request| ==> 1 <= request[i].number <= 10_000)
    && (forall i, j :: 0 <= i < j < |request| ==> request[i].number < request[j].number)
    && (forall i :: 0 <= i < |request| ==> PartFound(t, u, request[i], i == |request| - 1))
    && (forall i :: 0 <= i < |request| ==> !InComposite(t, PartFile(t, u, request[i])))
    && (forall i, j :: 0 <= i < j < |request| ==> PartFile(t, u, request[i]) != PartFile(t, u, request[j]))
    && f !in t.files && f !in t.segments && e !in t.mappings && (current.Some? ==> current.value in t.mappings)
  }

  /** The file is a source already. */
  predicate InComposite(t: Tables, f: FileId) {
    exists c :: c in t.segments && SourceOf(t, c, f)
  }

  function PartFile(t: Tables, u: UploadId, requested: CompletedPart): FileId {
    var k := UploadPartKey(u, requested.number);
    if k in t.uploadParts then t.uploadParts[k].file else 0
  }

  ghost predicate PassesChecks(t: Tables, u: UploadId, request: seq<CompletedPart>, f: FileId,
                               current: Option<EntryId>, e: EntryId)
  {
    && ValidRequest(request) && CompletionPartsOk(t, u, request)
    && SourcesUnused(t, CompletionSegments(t, u, request))
    && f !in t.files && f !in t.segments && e !in t.mappings && (current.Some? ==> current.value in t.mappings)
  }

  lemma ChecksExactly(t: Tables, u: UploadId, request: seq<CompletedPart>, f: FileId, current: Option<EntryId>,
                      e: EntryId)
    requires Inv(t) && RowsComplete(t) && u in t.uploads && t.uploads[u].state.Active?
    ensures PassesChecks(t, u, request, f, current, e) <==> Completable(t, u, request, f, current, e)
  {
    forall i | 0 <= i < |request|
      ensures var last := i == |request| - 1;
        CompletionPartOk(t, u, request[i], last) <==> PartFound(t, u, request[i], last)
    {
      PartOkExactly(t, u, request[i], i == |request| - 1);
    }
    if CompletionPartsOk(t, u, request) { UnusedExactly(t, u, request); }
  }

  lemma UnusedExactly(t: Tables, u: UploadId, request: seq<CompletedPart>)
    requires CompletionPartsOk(t, u, request)
    ensures SourcesUnused(t, CompletionSegments(t, u, request)) <==>
      && (forall i :: 0 <= i < |request| ==> !InComposite(t, PartFile(t, u, request[i])))
      && (forall i, j :: 0 <= i < j < |request| ==> PartFile(t, u, request[i]) != PartFile(t, u, request[j]))
  {
    var segments := CompletionSegments(t, u, request);
    forall i | 0 <= i < |request| ensures segments[i].source == PartFile(t, u, request[i]) {
      assert CompletionPartOk(t, u, request[i], i == |request| - 1);
    }
    forall i | 0 <= i < |request|
      ensures InComposite(t, PartFile(t, u, request[i])) <==>
        exists c, j :: c in t.segments && 0 <= j < |t.segments[c]| && t.segments[c][j].source == segments[i].source
    {
      SourceExists(t, segments[i].source);
    }
  }

  lemma SourceExists(t: Tables, f: FileId)
    ensures InComposite(t, f) <==>
      exists c, j :: c in t.segments && 0 <= j < |t.segments[c]| && t.segments[c][j].source == f
  {
    if exists c, j :: c in t.segments && 0 <= j < |t.segments[c]| && t.segments[c][j].source == f {
      var c, j :| c in t.segments && 0 <= j < |t.segments[c]| && t.segments[c][j].source == f;
      assert SourceOf(t, c, f);
    }
  }

  /** An active upload that has not expired is completed exactly if the request is well formed, its parts are there
      with their tags, large enough and not mapped, no other composite has them, and entry and file are new: what is
      looked at besides, the blocks of the parts, the new file and the marking of old ones, refuses nothing. */
  lemma CompletionExactly(t: Tables, u: UploadId, request: seq<CompletedPart>, f: FileId, current: Option<EntryId>,
                          e: EntryId, now: int)
    requires Inv(t) && RowsComplete(t) && PartSizesTrue(t)
    requires u in t.uploads && t.uploads[u].state.Active? && t.uploads[u].expiresAt > now
    ensures CompleteUpload(t, u, request, f, current, e, now).Ok? <==> Completable(t, u, request, f, current, e)
  {
    ChecksExactly(t, u, request, f, current, e);
    CompletesExactly(t, u, request, f, current, e, now);
  }

  lemma CompletesExactly(t: Tables, u: UploadId, request: seq<CompletedPart>, f: FileId, current: Option<EntryId>,
                         e: EntryId, now: int)
    requires Inv(t) && PartSizesTrue(t)
    requires u in t.uploads && t.uploads[u].state.Active? && t.uploads[u].expiresAt > now
    ensures CompleteUpload(t, u, request, f, current, e, now).Ok? <==> PassesChecks(t, u, request, f, current, e)
  {
    if PassesChecks(t, u, request, f, current, e) {
      CompletionSucceeds(t, u, request, f, current, e, now);
    } else if CompleteUpload(t, u, request, f, current, e, now).Ok? {
      var p, d := CompleteActiveUnfolds(t, u, request, f, current, e, now);
    }
  }

  lemma CompletionSucceeds(t: Tables, u: UploadId, request: seq<CompletedPart>, f: FileId, current: Option<EntryId>,
                           e: EntryId, now: int)
    requires Inv(t) && PartSizesTrue(t) && u in t.uploads && PassesChecks(t, u, request, f, current, e)
    ensures CompleteActive(t, u, request, f, current, e, now).Ok?
  {
    var w := WithComposite(t, u, request, f);
    CompositeMayBeLinked(t, u, request, f);
    WithCompositeSourcesPhysical(t, u, request, f);
    if current.Some? {
      MarkSucceeds(w, w.(mappings := WithoutEntries(w.mappings, [current.value])[e := f]), w.mappings[current.value],
                   now);
    }
    PublishObjectShape(w, current, e, f, now);
    FinalizeSucceeds(t, PublishObject(w, current, e, f, now).value, u, request, CompletionSegments(t, u, request), now);
  }

  /** Parts keep their file and size; one that comes has the size of its file. */
  ghost predicate PartsKept(t: Tables, v: Tables) {
    forall k :: k in v.uploadParts ==>
      || PartSizeTrue(t, v.uploadParts[k])
      || (k in t.uploadParts && v.uploadParts[k].file == t.uploadParts[k].file
          && v.uploadParts[k].size == t.uploadParts[k].size)
  }

  lemma PutKeepsParts(t: Tables, k: UploadPartKey, f: FileId, size: nat, tag: string, now: int)
    requires Inv(t) && PutPart(t, k, f, size, tag, now).Ok?
    ensures PartsKept(t, PutPart(t, k, f, size, tag, now).value)
  {
    if t.uploads[k.upload].expiresAt <= now {
      AbortExactly(t, k.upload, now);
    } else if k in t.uploadParts && t.uploadParts[k].file != f {
      MarkTreeShape(t.(uploadParts := t.uploadParts[k := UploadPart(PartActive, f, size, tag)]),
                    t.uploadParts[k].file, now);
    }
  }

  lemma CompleteKeepsParts(t: Tables, u: UploadId, request: seq<CompletedPart>, f: FileId, current: Option<EntryId>,
                           e: EntryId, now: int)
    requires Inv(t) && CompleteUpload(t, u, request, f, current, e, now).Ok?
    ensures PartsKept(t, CompleteUpload(t, u, request, f, current, e, now).value.tables)
  {
    if t.uploads[u].state.Active? {
      if t.uploads[u].expiresAt <= now {
        AbortExactly(t, u, now);
      } else {
        CompletionSettlesParts(t, u, request, f, current, e, now);
      }
    }
  }

  lemma UploadStepKeepsParts(t: Tables, step: Step)
    requires Inv(t) && IsUploadStep(step) && ApplyUpload(t, step).Ok?
    ensures PartsKept(t, ApplyUpload(t, step).value)
  {
    match step
    case StepCreateUpload(_, _) =>
    case StepPutPart(k, f, size, tag, now) => PutKeepsParts(t, k, f, size, tag, now);
    case StepComplete(u, request, f, current, e, now) => CompleteKeepsParts(t, u, request, f, current, e, now);
    case StepAbort(u, now) => AbortExactly(t, u, now);
    case StepPurge(_, _) =>
  }

  lemma StepKeepsParts(t: Tables, step: Step)
    requires Inv(t) && Apply(t, step).Ok?
    ensures PartsKept(t, Apply(t, step).value)
  {
    if IsUploadStep(step) {
      UploadStepKeepsParts(t, step);
    } else if IsMappingStep(step) {
      MappingStepShape(t, step);
    } else if IsFileStep(step) {
      FileStepShape(t, step);
    } else {
      OtherStepShape(t, step);
    }
  }

  lemma SizesStayTrue(t: Tables, u: Tables)
    requires PartSizesTrue(t) && Grows(t, u) && PartsKept(t, u)
    ensures PartSizesTrue(u)
  {
    forall k | k in u.uploadParts ensures PartSizeTrue(u, u.uploadParts[k]) {
      if k in t.uploadParts { assert PartSizeTrue(t, t.uploadParts[k]); }
    }
  }

  lemma StepSizesTrue(t: Tables, step: Step)
    requires Inv(t) && Apply(t, step).Ok? && PartSizesTrue(t)
    ensures PartSizesTrue(Apply(t, step).value)
  {
    ApplyGrows(t, step);
    StepKeepsParts(t, step);
    SizesStayTrue(t, Apply(t, step).value);
  }

  lemma {:induction false} RunPartSizesTrue(states: seq<Tables>, steps: seq<Step>, i: nat)
    requires IsRun(states, steps) && i < |states| && PartSizesTrue(states[0])
    ensures PartSizesTrue(states[i])
  {
    if i > 0 {
      RunPartSizesTrue(states, steps, i - 1);
      RunKeepsInv(states, steps, i - 1);
      RunStep(states, steps, i - 1);
      StepSizesTrue(states[i - 1], steps[i - 1]);
    }
  }
}
