/** Which parts are forgotten: live though nothing refers to their file any more.  Only a release of
    export pins leaves such parts, and only few steps find them again. */
module BlockForgotten {
  import opened BlockTables
  import opened BlockSteps
  import opened BlockWorker
  import opened BlockInvariant
  import opened BlockUploadProofs
  import opened BlockRuns

  // ---------------------------------------------------------------------------
  // What one step does to a part that nothing refers to
  // ---------------------------------------------------------------------------

  predicate IsLive(t: Tables, k: PartKey) {
    k in t.states && t.states[k].state.Live?
  }

  ghost predicate IsTarget(items: seq<ImportMapping>, c: FileId) {
    exists i :: 0 <= i < |items| && items[i].target == c
  }

  /** The file is `c` or a source of it. */
  ghost predicate InTree(t: Tables, c: FileId, f: FileId) {
    c == f || SourceOf(t, c, f)
  }

  /** The step discards the file or a composite of it, or links it and replaces it again. */
  ghost predicate Discards(t: Tables, step: Step, f: FileId) {
    || (step.StepDiscard? && InTrees(t, step.ids, f))
    || (step.StepPublishImport? && exists c :: IsTarget(step.items, c) && InTree(t, c, f))
  }

  lemma CondemnedListed(t: Tables, ids: seq<FileId>, g: FileId)
    ensures g in CondemnedByAny(t, ids) ==> InTrees(t, ids, g)
  {
    if g in CondemnedByAny(t, ids) {
      var i :| 0 <= i < |ids| && Condemned(t, ids[i], g);
    }
  }

  /** Marking makes due exactly the live rows of the files in the listed trees that nothing refers to. */
  lemma MarkedExactly(t: Tables, ids: seq<FileId>, now: int, k: PartKey)
    requires Sound(t) && MarkEach(t, ids, now).Ok? && k in t.states
    ensures MarkEach(t, ids, now).value.states[k] ==
      if IsLive(t, k) && !HasLiveReference(t, k.file) && InTrees(t, ids, k.file)
      then DeleteRow(t.states[k].backend, t.states[k].uploadedAt, Pending, t.states[k].attempts, now, 0)
      else t.states[k]
  {
    MarkEachExact(t, ids, now);
    if !HasLiveReference(t, k.file) && InTrees(t, ids, k.file) { ListedAreCondemned(t, ids, k.file); }
    CondemnedListed(t, ids, k.file);
  }

  /** Marking does nothing to a file outside the listed trees. */
  lemma NotMarked(t: Tables, ids: seq<FileId>, now: int, k: PartKey)
    requires SourcesPhysical(t) && MarkEach(t, ids, now).Ok? && IsLive(t, k) && !InTrees(t, ids, k.file)
    ensures IsLive(MarkEach(t, ids, now).value, k)
  {
    MarkEachPends(t, ids, now);
    CondemnedListed(t, ids, k.file);
  }

  /** What lies in the tree of a mapped file is referenced. */
  lemma MappedTree(t: Tables, c: FileId, f: FileId)
    requires Mapped(t, c) && InTree(t, c, f)
    ensures HasLiveReference(t, f)
  {
    if c != f { assert InMappedComposite(t, f); }
  }

  lemma NotMapped(t: Tables, c: FileId, f: FileId)
    ensures InTree(t, c, f) && !HasLiveReference(t, f) ==> !Mapped(t, c)
  {
    if Mapped(t, c) && InTree(t, c, f) { MappedTree(t, c, f); }
  }

  lemma MappedTreesNotMarked(t: Tables, r: Tables, ids: seq<FileId>, now: int, k: PartKey)
    requires SourcesPhysical(r) && MarkEach(r, ids, now).Ok? && IsLive(r, k) && r.segments == t.segments
    requires !HasLiveReference(t, k.file) && forall i :: 0 <= i < |ids| ==> Mapped(t, ids[i])
    ensures IsLive(MarkEach(r, ids, now).value, k)
  {
    MappedTrees(t, r, ids, k.file);
    NotMarked(r, ids, now, k);
  }

  lemma MappedTrees(t: Tables, r: Tables, ids: seq<FileId>, f: FileId)
    requires r.segments == t.segments && forall i :: 0 <= i < |ids| ==> Mapped(t, ids[i])
    ensures InTrees(r, ids, f) ==> HasLiveReference(t, f)
  {
    if InTrees(r, ids, f) {
      var i :| 0 <= i < |ids| && (ids[i] == f || SourceOf(r, ids[i], f));
      assert SourceOf(r, ids[i], f) == SourceOf(t, ids[i], f);
      MappedTree(t, ids[i], f);
    }
  }

  lemma RemoveForgets(t: Tables, entries: seq<EntryId>, now: int, k: PartKey)
    requires Inv(t) && RemoveEntries(t, entries, now).Ok? && IsLive(t, k) && !HasLiveReference(t, k.file)
    ensures IsLive(RemoveEntries(t, entries, now).value, k)
  {
    var ids := FileIdsOf(t, entries);
    forall i | 0 <= i < |ids| ensures Mapped(t, ids[i]) {
      assert ids[i] in ids;
    }
    MappedTreesNotMarked(t, t.(mappings := WithoutEntries(t.mappings, entries)), ids, now, k);
  }

  lemma CopyForgets(t: Tables, copies: seq<EntryCopy>, entries: seq<EntryId>, now: int, k: PartKey)
    requires Inv(t) && CopyEntries(t, copies, entries, now).Ok? && IsLive(t, k) && !HasLiveReference(t, k.file)
    ensures IsLive(CopyEntries(t, copies, entries, now).value, k)
  {
    var ids := FileIdsOf(t, entries);
    forall i | 0 <= i < |ids| ensures Mapped(t, ids[i]) {
      assert ids[i] in ids;
    }
    var r := t.(mappings := WithoutEntries(t.mappings, entries) + CopiedMappings(t, copies));
    MappedTreesNotMarked(t, r, ids, now, k);
  }

  lemma ReplaceForgets(t: Tables, e: EntryId, f: FileId, now: int, k: PartKey)
    requires Inv(t) && ReplaceEntry(t, e, f, now).Ok? && IsLive(t, k) && !HasLiveReference(t, k.file)
    ensures IsLive(ReplaceEntry(t, e, f, now).value, k)
  {
    var r := t.(mappings := t.mappings[e := f]);
    if t.mappings[e] != f {
      MarkTreeIsMarkEach(r, t.mappings[e], now);
      MappedTreesNotMarked(t, r, [t.mappings[e]], now, k);
    }
  }

  /** Stated over the tables before, which may lack the composite that is published. */
  lemma PublishForgets(t: Tables, w: Tables, current: Option<EntryId>, e: EntryId, f: FileId, now: int, k: PartKey)
    requires SourcesPhysical(w) && PublishObject(w, current, e, f, now).Ok? && IsLive(w, k)
    requires w.mappings == t.mappings && TreesAlike(t, w) && !HasLiveReference(t, k.file)
    ensures IsLive(PublishObject(w, current, e, f, now).value, k)
  {
    if current.Some? && w.mappings[current.value] != f {
      var c := w.mappings[current.value];
      var r := w.(mappings := WithoutEntries(w.mappings, [current.value])[e := f]);
      MarkTreeIsMarkEach(r, c, now);
      assert Mapped(t, c);
      ReplacedTree(t, w, r, c, k.file);
      NotMarked(r, [c], now, k);
    }
  }

  /** The trees of mapped files are the same. */
  ghost predicate TreesAlike(t: Tables, w: Tables) {
    forall c, f :: Mapped(t, c) && InTree(w, c, f) ==> InTree(t, c, f)
  }

  lemma ReplacedTree(t: Tables, w: Tables, r: Tables, c: FileId, f: FileId)
    requires TreesAlike(t, w) && Mapped(t, c) && r.segments == w.segments
    ensures InTrees(r, [c], f) ==> HasLiveReference(t, f)
  {
    if InTrees(r, [c], f) {
      assert SourceOf(r, c, f) == SourceOf(w, c, f);
      assert InTree(w, c, f);
      MappedTree(t, c, f);
    }
  }

  lemma {:induction false} ReplacedFiles(t: Tables, items: seq<ImportMapping>)
    requires PublishMappings(t, items).Ok?
    ensures var r := PublishMappings(t, items).value;
      && (forall i :: 0 <= i < |r.replaced| ==> Mapped(t, r.replaced[i]) || IsTarget(items, r.replaced[i]))
      && (forall c :: Mapped(r.tables, c) ==> Mapped(t, c) || IsTarget(items, c))
      && (forall c :: IsTarget(items, c) ==> Mapped(r.tables, c) || c in r.replaced)
  {
    if items != [] {
      var n := |items| - 1;
      ReplacedFiles(t, items[..n]);
      ReplacedNext(t, items);
    }
  }

  lemma TargetsNext(items: seq<ImportMapping>, c: FileId)
    requires items != []
    ensures IsTarget(items, c) <==> IsTarget(items[..|items| - 1], c) || items[|items| - 1].target == c
  {
    var n := |items| - 1;
    if IsTarget(items[..n], c) {
      var i :| 0 <= i < n && items[..n][i].target == c;
      assert items[i].target == c;
    }
    if items[n].target == c { assert IsTarget(items, c); }
    if IsTarget(items, c) && items[n].target != c {
      var i :| 0 <= i < |items| && items[i].target == c;
      assert items[..n][i].target == c;
    }
  }

  lemma ReplacedNext(t: Tables, items: seq<ImportMapping>)
    requires items != [] && PublishMappings(t, items).Ok?
    requires var before := items[..|items| - 1];
      var b := PublishMappings(t, before).value;
      && (forall i :: 0 <= i < |b.replaced| ==> Mapped(t, b.replaced[i]) || IsTarget(before, b.replaced[i]))
      && (forall c :: Mapped(b.tables, c) ==> Mapped(t, c) || IsTarget(before, c))
      && (forall c :: IsTarget(before, c) ==> Mapped(b.tables, c) || c in b.replaced)
    ensures var r := PublishMappings(t, items).value;
      && (forall i :: 0 <= i < |r.replaced| ==> Mapped(t, r.replaced[i]) || IsTarget(items, r.replaced[i]))
      && (forall c :: Mapped(r.tables, c) ==> Mapped(t, c) || IsTarget(items, c))
      && (forall c :: IsTarget(items, c) ==> Mapped(r.tables, c) || c in r.replaced)
  {
    var n := |items| - 1;
    var b, r, item := PublishMappings(t, items[..n]).value, PublishMappings(t, items).value, items[n];
    forall c ensures IsTarget(items, c) <==> IsTarget(items[..n], c) || item.target == c {
      TargetsNext(items, c);
    }
    assert r.tables.mappings == b.tables.mappings[item.entry := item.target];
    assert Mapped(r.tables, item.target) by { assert item.entry in r.tables.mappings; }
    if item.entry in b.tables.mappings {
      var old' := b.tables.mappings[item.entry];
      assert Mapped(b.tables, old') && r.replaced == b.replaced + [old'];
    }
    forall c | IsTarget(items, c) ensures Mapped(r.tables, c) || c in r.replaced {
      if c != item.target && Mapped(b.tables, c) {
        var e :| e in b.tables.mappings && b.tables.mappings[e] == c;
        if e != item.entry { assert e in r.tables.mappings && r.tables.mappings[e] == c; }
      }
    }
  }

  /** An import condemns a file that nothing referred to exactly if it linked it and replaced it again. */
  lemma ImportForgets(t: Tables, items: seq<ImportMapping>, now: int, k: PartKey)
    requires Inv(t) && PublishImport(t, items, now).Ok? && IsLive(t, k)
    requires !HasLiveReference(t, k.file) && !HasLiveReference(PublishImport(t, items, now).value, k.file)
    ensures IsLive(PublishImport(t, items, now).value, k)
       <==> !exists c :: IsTarget(items, c) && InTree(t, c, k.file)
  {
    var p := PublishMappings(t, items).value;
    var r, ids := p.tables, p.replaced;
    PublishMappingsKeeps(t, items);
    PublishMappingsSound(t, items);
    ReplacedFiles(t, items);
    SameReferences(r, MarkEach(r, ids, now).value);
    MarkedExactly(r, ids, now, k);
    assert forall c :: SourceOf(r, c, k.file) == SourceOf(t, c, k.file);
    if InTrees(r, ids, k.file) {
      var i :| 0 <= i < |ids| && (ids[i] == k.file || SourceOf(r, ids[i], k.file));
      NotMapped(t, ids[i], k.file);
      assert IsTarget(items, ids[i]) && InTree(t, ids[i], k.file);
    }
    if exists c :: IsTarget(items, c) && InTree(t, c, k.file) {
      var c :| IsTarget(items, c) && InTree(t, c, k.file);
      NotMapped(r, c, k.file);
      var i :| 0 <= i < |ids| && ids[i] == c;
      assert InTrees(r, ids, k.file);
    }
  }

  // ---------------------------------------------------------------------------
  // Uploads
  // ---------------------------------------------------------------------------

  /** The files of active parts are physical and referenced, so marking them finds nothing else. */
  lemma ActiveNotMarked(t: Tables, r: Tables, ids: seq<FileId>, now: int, k: PartKey)
    requires Sound(t) && SourcesPhysical(r) && MarkEach(r, ids, now).Ok? && IsLive(r, k)
    requires forall i :: 0 <= i < |ids| ==> InActiveUpload(t, ids[i]) && ids[i] !in r.segments
    requires !HasLiveReference(t, k.file)
    ensures IsLive(MarkEach(r, ids, now).value, k)
  {
    NotMarked(r, ids, now, k);
  }

  lemma ActiveFiles(t: Tables, u: UploadId, i: nat)
    requires Sound(t) && u in t.uploads && t.uploads[u].state.Active? && i < |ActivePartFiles(t, u, MaxUploadParts)|
    ensures var f := ActivePartFiles(t, u, MaxUploadParts)[i];
      InActiveUpload(t, f) && f in t.files && f !in t.segments
  {
    var ids := ActivePartFiles(t, u, MaxUploadParts);
    assert ids[i] in ids;
    var n: nat :| 0 < n <= MaxUploadParts && IsActivePartFile(t, UploadPartKey(u, n), ids[i]);
    assert IsActivePart(t, UploadPartKey(u, n));
  }

  lemma AbortForgets(t: Tables, u: UploadId, now: int, k: PartKey)
    requires Inv(t) && AbortUpload(t, u, now).Ok? && IsLive(t, k) && !HasLiveReference(t, k.file)
    ensures IsLive(AbortUpload(t, u, now).value, k)
  {
    var ids := ActivePartFiles(t, u, MaxUploadParts);
    forall i | 0 <= i < |ids| ensures InActiveUpload(t, ids[i]) && ids[i] !in t.segments {
      ActiveFiles(t, u, i);
    }
    ActiveNotMarked(t, AbortedTables(t, u, now), ids, now, k);
  }

  lemma PutForgets(t: Tables, key: UploadPartKey, f: FileId, size: nat, tag: string, now: int, k: PartKey)
    requires Inv(t) && PutPart(t, key, f, size, tag, now).Ok? && IsLive(t, k) && !HasLiveReference(t, k.file)
    ensures IsLive(PutPart(t, key, f, size, tag, now).value, k)
  {
    if t.uploads[key.upload].expiresAt <= now {
      AbortForgets(t, key.upload, now, k);
    } else if key in t.uploadParts && t.uploadParts[key].file != f {
      var before := t.uploadParts[key].file;
      var r := t.(uploadParts := t.uploadParts[key := UploadPart(PartActive, f, size, tag)]);
      assert IsActivePart(t, key);
      MarkTreeIsMarkEach(r, before, now);
      ActiveNotMarked(t, r, [before], now, k);
    }
  }

  lemma FinalizeForgets(t: Tables, p: Tables, u: UploadId, request: seq<CompletedPart>, segments: seq<Segment>,
                        now: int, k: PartKey)
    requires Sound(t) && SourcesPhysical(p) && u in t.uploads && t.uploads[u].state.Active? && u in p.uploads
    requires p.uploadParts == t.uploadParts && (forall c :: c in p.segments && c in t.files ==> c in t.segments)
    requires FinalizeParts(p, u, request, segments, now).Ok? && IsLive(p, k) && !HasLiveReference(t, k.file)
    ensures IsLive(FinalizeParts(p, u, request, segments, now).value, k)
  {
    var all := ActivePartFiles(p, u, MaxUploadParts);
    var ids := Unselected(all, segments);
    forall i | 0 <= i < |ids| ensures InActiveUpload(t, ids[i]) && ids[i] !in p.segments {
      assert ids[i] in ids;
      var n: nat :| 0 < n <= MaxUploadParts && IsActivePartFile(p, UploadPartKey(u, n), ids[i]);
      assert IsActivePart(t, UploadPartKey(u, n));
    }
    ActiveNotMarked(t, p.(uploadParts := SelectParts(DiscardParts(p, u), u, request)), ids, now, k);
  }

  lemma CompleteForgets(t: Tables, u: UploadId, request: seq<CompletedPart>, f: FileId, current: Option<EntryId>,
                        e: EntryId, now: int, k: PartKey)
    requires Inv(t) && CompleteUpload(t, u, request, f, current, e, now).Ok?
    requires IsLive(t, k) && !HasLiveReference(t, k.file)
    ensures IsLive(CompleteUpload(t, u, request, f, current, e, now).value.tables, k)
  {
    if t.uploads[u].state.Active? {
      if t.uploads[u].expiresAt <= now {
        AbortForgets(t, u, now, k);
      } else {
        CompleteActiveForgets(t, u, request, f, current, e, now, k);
      }
    }
  }

  lemma CompositeKeepsTrees(t: Tables, u: UploadId, request: seq<CompletedPart>, f: FileId)
    requires MappedReady(t) && u in t.uploads && CompletionPartsOk(t, u, request) && f !in t.files
    ensures TreesAlike(t, WithComposite(t, u, request, f))
  {
    var w := WithComposite(t, u, request, f);
    forall c, g | Mapped(t, c) && InTree(w, c, g) ensures InTree(t, c, g) {
      assert c != f;
      if c != g { assert SourceOf(w, c, g) == SourceOf(t, c, g); }
    }
  }

  lemma CompleteActiveForgets(t: Tables, u: UploadId, request: seq<CompletedPart>, f: FileId, current: Option<EntryId>,
                              e: EntryId, now: int, k: PartKey)
    requires Inv(t) && u in t.uploads && t.uploads[u].state.Active?
    requires CompleteActive(t, u, request, f, current, e, now).Ok? && IsLive(t, k) && !HasLiveReference(t, k.file)
    ensures IsLive(CompleteActive(t, u, request, f, current, e, now).value.tables, k)
  {
    var p, d := CompleteActiveUnfolds(t, u, request, f, current, e, now);
    var w := WithComposite(t, u, request, f);
    CompositeKeepsTrees(t, u, request, f);
    PublishForgets(t, w, current, e, f, now, k);
    FinalizeForgets(t, p, u, request, CompletionSegments(t, u, request), now, k);
  }

  // ---------------------------------------------------------------------------
  // The delete worker
  // ---------------------------------------------------------------------------

  lemma {:induction false} ClaimForgets(t: Tables, candidates: seq<PartKey>, now: int, k: PartKey)
    requires (forall i :: 0 <= i < |candidates| ==> candidates[i] in t.states) && IsLive(t, k)
    ensures IsLive(ClaimEach(t, candidates, now).tables, k)
  {
    if candidates != [] {
      var n := |candidates| - 1;
      ClaimForgets(t, candidates[..n], now, k);
      CandidateForgets(ClaimEach(t, candidates[..n], now).tables, candidates[n], now, k);
    }
  }

  lemma CandidateForgets(t: Tables, candidate: PartKey, now: int, k: PartKey)
    requires candidate in t.states && IsLive(t, k)
    ensures IsLive(ClaimCandidate(t, candidate, now).tables, k)
  {
  }

  // ---------------------------------------------------------------------------
  // Every step
  // ---------------------------------------------------------------------------

  lemma MappingStepForgets(t: Tables, step: Step, k: PartKey)
    requires Inv(t) && IsMappingStep(step) && !step.StepPublishImport? && ApplyMapping(t, step).Ok?
    requires IsLive(t, k) && !HasLiveReference(t, k.file)
    ensures IsLive(ApplyMapping(t, step).value, k)
  {
    match step
    case StepReplace(e, f, now) => ReplaceForgets(t, e, f, now, k);
    case StepRemove(entries, now) => RemoveForgets(t, entries, now, k);
    case StepCopy(copies, entries, now) => CopyForgets(t, copies, entries, now, k);
    case StepPublishObject(current, e, f, now) => PublishForgets(t, t, current, e, f, now, k);
    case StepCopyObject(source, current, e, now) => PublishForgets(t, t, current, e, t.mappings[source], now, k);
    case _ =>
  }

  lemma {:induction false} PublishMappingsSound(t: Tables, items: seq<ImportMapping>)
    requires Sound(t) && PublishMappings(t, items).Ok?
    ensures Sound(PublishMappings(t, items).value.tables)
  {
    if items != [] {
      var n := |items| - 1;
      PublishMappingsSound(t, items[..n]);
      var b, r := PublishMappings(t, items[..n]).value.tables, PublishMappings(t, items).value.tables;
      assert forall c, g :: SourceOf(r, c, g) == SourceOf(b, c, g);
    }
  }

  lemma UploadStepForgets(t: Tables, step: Step, k: PartKey)
    requires Inv(t) && IsUploadStep(step) && ApplyUpload(t, step).Ok? && IsLive(t, k) && !HasLiveReference(t, k.file)
    ensures IsLive(ApplyUpload(t, step).value, k)
  {
    match step
    case StepPutPart(key, f, size, tag, now) => PutForgets(t, key, f, size, tag, now, k);
    case StepComplete(u, request, f, current, e, now) => CompleteForgets(t, u, request, f, current, e, now, k);
    case StepAbort(u, now) => AbortForgets(t, u, now, k);
    case _ =>
  }

  lemma OtherStepForgets(t: Tables, step: Step, k: PartKey)
    requires Inv(t) && !IsUploadStep(step) && !IsMappingStep(step) && !IsFileStep(step) && ApplyOther(t, step).Ok?
    requires IsLive(t, k) && !HasLiveReference(t, k.file)
    ensures IsLive(ApplyOther(t, step).value, k) <==> !Discards(t, step, k.file)
  {
    match step
    case StepDiscard(ids, now) => MarkedExactly(t, ids, now, k);
    case StepClaim(backend, candidates, now) =>
      ClaimForgets(t.(states := RestoreExpiredLeases(t.states, backend, now)), candidates, now, k);
    case _ =>
  }

  /** Of the parts that nothing refers to before and after a step, the step condemns exactly those it
      discards. */
  lemma StepForgets(t: Tables, step: Step, k: PartKey)
    requires Inv(t) && Apply(t, step).Ok? && IsLive(t, k)
    requires !HasLiveReference(t, k.file) && !HasLiveReference(Apply(t, step).value, k.file)
    ensures IsLive(Apply(t, step).value, k) <==> !Discards(t, step, k.file)
  {
    if IsUploadStep(step) {
      UploadStepForgets(t, step, k);
    } else if step.StepPublishImport? {
      ImportForgets(t, step.items, step.now, k);
    } else if IsMappingStep(step) {
      MappingStepForgets(t, step, k);
    } else if !IsFileStep(step) {
      OtherStepForgets(t, step, k);
    }
  }

  // ---------------------------------------------------------------------------
  // Every run
  // ---------------------------------------------------------------------------

  /** Release `n` took the last references of the file, and until `j` nothing referred to it again and
      nothing discarded it. */
  ghost predicate ForgottenSince(states: seq<Tables>, steps: seq<Step>, n: int, j: int, f: FileId)
    requires 0 <= n < j <= |steps| && |states| == |steps| + 1
  {
    && steps[n].StepRelease? && HasLiveReference(states[n], f)
    && (forall p :: n < p <= j ==> !HasLiveReference(states[p], f))
    && (forall p :: n < p < j ==> !Discards(states[p], steps[p], f))
  }

  ghost predicate Forgotten(states: seq<Tables>, steps: seq<Step>, i: int, j: int, f: FileId)
    requires 0 <= i <= j <= |steps| && |states| == |steps| + 1
  {
    exists n :: i <= n < j && ForgottenSince(states, steps, n, j, f)
  }

  lemma ForgottenNext(states: seq<Tables>, steps: seq<Step>, i: nat, j: nat, f: FileId)
    requires i <= j < |steps| && |states| == |steps| + 1
    requires !HasLiveReference(states[j], f) && !HasLiveReference(states[j + 1], f)
    ensures Forgotten(states, steps, i, j + 1, f) <==>
      Forgotten(states, steps, i, j, f) && !Discards(states[j], steps[j], f)
  {
    if Forgotten(states, steps, i, j, f) && !Discards(states[j], steps[j], f) {
      var n :| i <= n < j && ForgottenSince(states, steps, n, j, f);
      assert ForgottenSince(states, steps, n, j + 1, f);
    }
    if Forgotten(states, steps, i, j + 1, f) {
      var n :| i <= n < j + 1 && ForgottenSince(states, steps, n, j + 1, f);
      assert n < j && ForgottenSince(states, steps, n, j, f);
    }
  }

  lemma JustLost(states: seq<Tables>, steps: seq<Step>, i: nat, j: nat, f: FileId)
    requires i <= j < |steps| && |states| == |steps| + 1
    requires HasLiveReference(states[j], f) && !HasLiveReference(states[j + 1], f)
    ensures Forgotten(states, steps, i, j + 1, f) <==> steps[j].StepRelease?
  {
    if steps[j].StepRelease? { assert ForgottenSince(states, steps, j, j + 1, f); }
  }

  /** Over every run, a part of a file that was referenced and is not any more is still live exactly if
      a release of export pins took the last references and nothing has discarded the file since. */
  lemma {:induction false} ForgottenExactly(states: seq<Tables>, steps: seq<Step>, i: nat, j: nat, k: PartKey)
    requires IsRun(states, steps) && i <= j < |states|
    requires HasLiveReference(states[i], k.file) && !HasLiveReference(states[j], k.file)
    requires k in states[j].states
    ensures states[j].states[k].state.Live? <==> Forgotten(states, steps, i, j, k.file)
    decreases j
  {
    var n := j - 1;
    PartWasThere(states, steps, i, n, k);
    if HasLiveReference(states[n], k.file) {
      JustLost(states, steps, i, n, k.file);
      LiveAfterLoss(states, steps, n, k);
    } else {
      ForgottenExactly(states, steps, i, n, k);
      ForgottenNext(states, steps, i, n, k.file);
      LiveAfterStep(states, steps, n, k);
    }
  }

  /** A part whose file loses its last reference stays live exactly if the step releases pins. */
  lemma LiveAfterLoss(states: seq<Tables>, steps: seq<Step>, n: nat, k: PartKey)
    requires IsRun(states, steps) && n < |steps| && k in states[n].states && k in states[n + 1].states
    requires HasLiveReference(states[n], k.file) && !HasLiveReference(states[n + 1], k.file)
    ensures IsLive(states[n + 1], k) <==> steps[n].StepRelease?
  {
    RunKeepsInv(states, steps, n);
    RunStep(states, steps, n);
    if !steps[n].StepRelease? { StepForgetsNothing(states, steps, n, k); }
  }

  lemma LiveAfterStep(states: seq<Tables>, steps: seq<Step>, n: nat, k: PartKey)
    requires IsRun(states, steps) && n < |steps| && k in states[n].states
    requires !HasLiveReference(states[n], k.file) && !HasLiveReference(states[n + 1], k.file)
    ensures IsLive(states[n + 1], k) <==> IsLive(states[n], k) && !Discards(states[n], steps[n], k.file)
  {
    RunKeepsInv(states, steps, n);
    RunStep(states, steps, n);
    RunStepMonotone(states, steps, n);
    if IsLive(states[n], k) { StepForgets(states[n], steps[n], k); }
  }
}
