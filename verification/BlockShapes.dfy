/** Which tables the transactions touch, and what they can make of a delete state. */
module BlockShapes {
  import opened BlockTables
  import opened BlockSteps
  import opened BlockWorker
  import opened BlockInvariant
  import opened BlockUploadProofs

  /** No row that was there changes, and one that comes is live or due. */
  ghost predicate RowsCome(a: map<PartKey, DeleteRow>, b: map<PartKey, DeleteRow>) {
    && (forall k :: k in a ==> k in b && b[k] == a[k])
    && forall k :: k in b && k !in a ==> b[k].state.Live? || b[k].state.Pending?
  }

  /** The row is as it was, or was live and is due for deletion now. */
  predicate KeptOrDue(a: DeleteRow, b: DeleteRow, now: int) {
    b == a || (a.state.Live? && b == DeleteRow(a.backend, a.uploadedAt, Pending, a.attempts, now, 0))
  }

  /** Rows are kept or made due, and none comes or goes. */
  ghost predicate Marked(a: map<PartKey, DeleteRow>, b: map<PartKey, DeleteRow>, now: int) {
    b.Keys == a.Keys && forall k :: k in a ==> KeptOrDue(a[k], b[k], now)
  }

  /** Only delete states changed, by marking. */
  ghost predicate OnlyStates(t: Tables, v: Tables, now: int) {
    SameButStates(t, v) && Marked(t.states, v.states, now)
  }

  lemma MarkEachShape(t: Tables, ids: seq<FileId>, now: int)
    requires SourcesPhysical(t)
    ensures MarkEach(t, ids, now).Ok? ==> OnlyStates(t, MarkEach(t, ids, now).value, now)
  {
    MarkEachExact(t, ids, now);
  }

  lemma MarkTreeShape(t: Tables, f: FileId, now: int)
    requires SourcesPhysical(t)
    ensures MarkTree(t, f, now).Ok? ==> OnlyStates(t, MarkTree(t, f, now).value, now)
  {
    MarkTreeExact(t, f, now);
  }

  // ---------------------------------------------------------------------------
  // Path mappings
  // ---------------------------------------------------------------------------

  /** Only mappings changed, and delete states of the rows there were. */
  ghost predicate OnlyMappings(t: Tables, v: Tables, now: int) {
    OnlyStates(t.(mappings := v.mappings), v, now)
  }

  lemma RemoveEntriesShape(t: Tables, entries: seq<EntryId>, now: int)
    requires SourcesPhysical(t) && RemoveEntries(t, entries, now).Ok?
    ensures OnlyMappings(t, RemoveEntries(t, entries, now).value, now)
  {
    MarkEachShape(t.(mappings := WithoutEntries(t.mappings, entries)), FileIdsOf(t, entries), now);
  }

  lemma ReplaceEntryShape(t: Tables, e: EntryId, f: FileId, now: int)
    requires SourcesPhysical(t) && ReplaceEntry(t, e, f, now).Ok?
    ensures OnlyMappings(t, ReplaceEntry(t, e, f, now).value, now)
  {
    if t.mappings[e] != f { MarkTreeShape(t.(mappings := t.mappings[e := f]), t.mappings[e], now); }
  }

  lemma PublishObjectShape(t: Tables, current: Option<EntryId>, e: EntryId, f: FileId, now: int)
    requires SourcesPhysical(t) && PublishObject(t, current, e, f, now).Ok?
    ensures OnlyMappings(t, PublishObject(t, current, e, f, now).value, now)
  {
    if current.Some? && t.mappings[current.value] != f {
      MarkTreeShape(t.(mappings := WithoutEntries(t.mappings, [current.value])[e := f]),
                    t.mappings[current.value], now);
    }
  }

  lemma CopyEntriesShape(t: Tables, copies: seq<EntryCopy>, overwritten: seq<EntryId>, now: int)
    requires SourcesPhysical(t) && CopyEntries(t, copies, overwritten, now).Ok?
    ensures OnlyMappings(t, CopyEntries(t, copies, overwritten, now).value, now)
  {
    MarkEachShape(t.(mappings := WithoutEntries(t.mappings, overwritten) + CopiedMappings(t, copies)),
                  FileIdsOf(t, overwritten), now);
  }

  lemma PublishImportShape(t: Tables, items: seq<ImportMapping>, now: int)
    requires SourcesPhysical(t) && PublishImport(t, items, now).Ok?
    ensures OnlyMappings(t, PublishImport(t, items, now).value, now)
  {
    PublishMappingsKeeps(t, items);
    var published := PublishMappings(t, items).value;
    MarkEachShape(published.tables, published.replaced, now);
  }

  // ---------------------------------------------------------------------------
  // Multipart uploads
  // ---------------------------------------------------------------------------

  /** Only uploads and their parts changed, and delete states of the rows there were. */
  ghost predicate OnlyUploads(t: Tables, v: Tables, now: int) {
    OnlyStates(t.(uploads := v.uploads, uploadParts := v.uploadParts), v, now)
  }

  ghost predicate RowStays(t: Tables, v: Tables, u: UploadId)
    requires u in t.uploads
  {
    u in v.uploads && v.uploads[u] == t.uploads[u]
  }

  /** The rows of completed uploads stay. */
  ghost predicate CompletedStay(t: Tables, v: Tables) {
    forall u :: u in t.uploads && t.uploads[u].state.Completed? ==> RowStays(t, v, u)
  }

  lemma AbortUploadShape(t: Tables, u: UploadId, now: int)
    requires SourcesPhysical(t) && AbortUpload(t, u, now).Ok?
    ensures OnlyUploads(t, AbortUpload(t, u, now).value, now) && CompletedStay(t, AbortUpload(t, u, now).value)
  {
    var r := t.(uploads := t.uploads[u := t.uploads[u].(state := Aborted, cleanupAt := now + ControlRetention)],
                uploadParts := DiscardParts(t, u));
    MarkEachShape(r, ActivePartFiles(t, u, MaxUploadParts), now);
  }

  lemma PutPartShape(t: Tables, k: UploadPartKey, f: FileId, size: nat, tag: string, now: int)
    requires SourcesPhysical(t) && PutPart(t, k, f, size, tag, now).Ok?
    ensures OnlyUploads(t, PutPart(t, k, f, size, tag, now).value, now)
    ensures CompletedStay(t, PutPart(t, k, f, size, tag, now).value)
  {
    if t.uploads[k.upload].expiresAt <= now {
      AbortUploadShape(t, k.upload, now);
    } else if k in t.uploadParts && t.uploadParts[k].file != f {
      MarkTreeShape(t.(uploadParts := t.uploadParts[k := UploadPart(PartActive, f, size, tag)]),
                    t.uploadParts[k].file, now);
    }
  }

  /** What a completion changes besides: the composite file is added. */
  ghost predicate AddsComposite(t: Tables, v: Tables, f: FileId, now: int) {
    && f !in t.files && f in v.files && v.files == t.files[f := v.files[f]]
    && f !in t.segments && f in v.segments && v.segments == t.segments[f := v.segments[f]]
    && v.parts == t.parts && Marked(t.states, v.states, now) && v.pins == t.pins
  }

  lemma CompleteActiveShape(t: Tables, u: UploadId, request: seq<CompletedPart>, f: FileId,
                            current: Option<EntryId>, e: EntryId, now: int)
    requires SourcesPhysical(t) && u in t.uploads && t.uploads[u].state.Active?
    requires CompleteActive(t, u, request, f, current, e, now).Ok?
    ensures var v := CompleteActive(t, u, request, f, current, e, now).value.tables;
      AddsComposite(t, v, f, now) && CompletedStay(t, v)
  {
    var p, d := CompleteActiveUnfolds(t, u, request, f, current, e, now);
    PublishObjectShape(WithComposite(t, u, request, f), current, e, f, now);
    FinalizePartsShape(p, u, request, CompletionSegments(t, u, request), now);
    CompletionAdds(t, u, request, f, p, d, now);
    CompletionStays(t, u, request, f, p, d, now);
  }

  lemma CompletionAdds(t: Tables, u: UploadId, request: seq<CompletedPart>, f: FileId, p: Tables, d: Tables, now: int)
    requires u in t.uploads && CompletionPartsOk(t, u, request) && f !in t.files && f !in t.segments
    requires OnlyMappings(WithComposite(t, u, request, f), p, now)
    requires OnlyStates(p.(uploadParts := d.uploadParts), d, now) && u in d.uploads
    ensures AddsComposite(t, d.(uploads := d.uploads[u := CompletedRow(d.uploads[u], request, f, now)]), f, now)
  {
  }

  lemma CompletionStays(t: Tables, u: UploadId, request: seq<CompletedPart>, f: FileId, p: Tables, d: Tables, now: int)
    requires u in t.uploads && t.uploads[u].state.Active? && CompletionPartsOk(t, u, request)
    requires OnlyMappings(WithComposite(t, u, request, f), p, now)
    requires OnlyStates(p.(uploadParts := d.uploadParts), d, now) && u in d.uploads
    ensures CompletedStay(t, d.(uploads := d.uploads[u := CompletedRow(d.uploads[u], request, f, now)]))
  {
    assert d.uploads == WithComposite(t, u, request, f).uploads;
  }

  lemma FinalizePartsShape(t: Tables, u: UploadId, request: seq<CompletedPart>, segments: seq<Segment>, now: int)
    requires SourcesPhysical(t) && u in t.uploads && FinalizeParts(t, u, request, segments, now).Ok?
    ensures var v := FinalizeParts(t, u, request, segments, now).value;
      OnlyStates(t.(uploadParts := v.uploadParts), v, now)
  {
    MarkEachShape(t.(uploadParts := SelectParts(DiscardParts(t, u), u, request)),
                  Unselected(ActivePartFiles(t, u, MaxUploadParts), segments), now);
  }

  // ---------------------------------------------------------------------------
  // Files
  // ---------------------------------------------------------------------------

  /** Files keep their shape and manifests their segments, parts are only added, and only with their
      delete row. */
  ghost predicate Grows(t: Tables, u: Tables) {
    && (forall f :: f in t.files ==> f in u.files && (t.files[f].ready ==> u.files[f].ready))
    && (forall f :: f in t.files && f in u.files ==> u.files[f] == t.files[f].(ready := u.files[f].ready))
    && (forall k :: k in u.states ==> k in t.states || k !in t.parts)
    && t.states.Keys <= u.states.Keys && u.parts - t.parts <= u.states.Keys
    && forall c :: c in t.segments ==> c in u.segments && u.segments[c] == t.segments[c]
  }

  /** Files and parts are made or finished. */
  ghost predicate FileShape(t: Tables, v: Tables) {
    && Grows(t, v) && RowsCome(t.states, v.states)
    && v.uploads == t.uploads && v.uploadParts == t.uploadParts && v.mappings == t.mappings && v.pins == t.pins
  }

  lemma CreateDraftShape(t: Tables, f: FileId, layout: Layout, size: nat, partCount: nat)
    requires CreateDraft(t, f, layout, size, partCount).Ok?
    ensures FileShape(t, CreateDraft(t, f, layout, size, partCount).value)
  {
  }

  lemma CreatePartShape(t: Tables, k: PartKey, row: DeleteRow)
    requires CreatePart(t, k, row).Ok? && k !in t.states && (row.state.Live? || row.state.Pending?)
    ensures FileShape(t, CreatePart(t, k, row).value)
  {
  }

  lemma FinishCreateShape(t: Tables, f: FileId)
    requires FinishCreate(t, f).Ok?
    ensures FileShape(t, FinishCreate(t, f).value)
  {
  }

  lemma FinishImportPhysicalShape(t: Tables, f: FileId)
    requires FinishImportPhysical(t, f).Ok?
    ensures FileShape(t, FinishImportPhysical(t, f).value)
  {
  }

  lemma FinishImportCompositeShape(t: Tables, f: FileId, segments: seq<Segment>)
    requires FinishImportComposite(t, f, segments).Ok?
    ensures FileShape(t, FinishImportComposite(t, f, segments).value)
  {
    if !t.files[f].ready { CompositeFinishedShape(t, f, segments); }
  }

  lemma CompositeFinishedShape(t: Tables, f: FileId, segments: seq<Segment>)
    requires f in t.files && f !in t.segments
    ensures FileShape(t, t.(files := t.files[f := t.files[f].(ready := true)], segments := t.segments[f := segments]))
  {
  }
}
