/** What each transaction leaves in the tables it is about, and exactly when it is refused: the checks that
    only guard against a damaged table never refuse anything in a sound one. */
module BlockOutcomes {
  import opened BlockTables
  import opened BlockSteps
  import opened BlockInvariant
  import opened BlockMappingProofs
  import opened BlockUploadProofs
  import opened BlockWorkerProofs

  // ---------------------------------------------------------------------------
  // Path mappings
  // ---------------------------------------------------------------------------

  /** Marking files that are there does not fail. */
  lemma MarksSucceed(t: Tables, r: Tables, ids: seq<FileId>, now: int)
    requires SourcesPhysical(r) && r.files == t.files && forall i :: 0 <= i < |ids| ==> ids[i] in t.files
    ensures MarkEach(r, ids, now).Ok? && SameButStates(r, MarkEach(r, ids, now).value)
  {
    MarkEachSucceeds(r, ids, now);
  }

  lemma MarkSucceeds(t: Tables, r: Tables, f: FileId, now: int)
    requires SourcesPhysical(r) && r.files == t.files && f in t.files
    ensures MarkTree(r, f, now).Ok? && SameButStates(r, MarkTree(r, f, now).value)
  {
    MarkTreeSucceeds(r, f, now);
  }

  /** A link is refused exactly if its entry is there or its file may not be linked, and adds the entry. */
  lemma LinkExactly(t: Tables, e: EntryId, f: FileId)
    ensures Link(t, e, f).Ok? <==> e !in t.mappings && CanBeLinked(t, f)
    ensures Link(t, e, f).Ok? ==> Adds(t, Link(t, e, f).value, e, f)
  {
  }

  ghost predicate Adds(t: Tables, v: Tables, e: EntryId, f: FileId) {
    && v == t.(mappings := v.mappings) && v.mappings.Keys == t.mappings.Keys + {e} && v.mappings[e] == f
    && forall x :: x in t.mappings && x != e ==> v.mappings[x] == t.mappings[x]
  }

  /** The empty file of a lock is linked under the same conditions, though they are not all looked at. */
  lemma LockNullExactly(t: Tables, e: EntryId, f: FileId)
    requires Inv(t) && f in t.files && t.files[f] == FileRow(Physical, t.files[f].ready, 0, 0)
    ensures LinkLockNull(t, e, f) == Link(t, e, f)
  {
  }

  /** The files of removed entries are there. */
  lemma RemovedFilesExist(t: Tables, entries: seq<EntryId>)
    requires MappedReady(t)
    ensures forall i :: 0 <= i < |FileIdsOf(t, entries)| ==> FileIdsOf(t, entries)[i] in t.files
  {
    var ids := FileIdsOf(t, entries);
    forall i | 0 <= i < |ids| ensures ids[i] in t.files {
      assert ids[i] in ids;
    }
  }

  /** A removal takes away exactly the entries named, and is never refused. */
  lemma RemoveExactly(t: Tables, entries: seq<EntryId>, now: int)
    requires Inv(t)
    ensures RemoveEntries(t, entries, now).Ok?
    ensures var m := RemoveEntries(t, entries, now).value.mappings;
      && (forall e :: e in m <==> e in t.mappings && e !in entries)
      && forall e :: e in m ==> m[e] == t.mappings[e]
  {
    RemovedFilesExist(t, entries);
    MarksSucceed(t, t.(mappings := WithoutEntries(t.mappings, entries)), FileIdsOf(t, entries), now);
  }

  /** A replacement maps the entry to the new file and leaves every other entry. */
  lemma ReplaceExactly(t: Tables, e: EntryId, f: FileId, now: int)
    requires Inv(t)
    ensures ReplaceEntry(t, e, f, now).Ok? <==> e in t.mappings && CanBeLinked(t, f)
    ensures ReplaceEntry(t, e, f, now).Ok? ==>
      var m := ReplaceEntry(t, e, f, now).value.mappings;
      && m.Keys == t.mappings.Keys && m[e] == f
      && forall x :: x in m && x != e ==> m[x] == t.mappings[x]
  {
    if e in t.mappings { MarkSucceeds(t, t.(mappings := t.mappings[e := f]), t.mappings[e], now); }
  }

  /** An object is published at its entry, in the place of the one that was current, and nothing else changes. */
  lemma PublishObjectExactly(t: Tables, current: Option<EntryId>, e: EntryId, f: FileId, now: int)
    requires Inv(t)
    ensures PublishObject(t, current, e, f, now).Ok? <==>
      CanBeLinked(t, f) && e !in t.mappings && (current.Some? ==> current.value in t.mappings)
    ensures PublishObject(t, current, e, f, now).Ok? ==>
      var m := PublishObject(t, current, e, f, now).value.mappings;
      && (forall x :: x in m <==> x == e || (x in t.mappings && current != Some(x)))
      && m[e] == f && forall x :: x in m && x != e ==> m[x] == t.mappings[x]
  {
    if current.Some? && current.value in t.mappings {
      MarkSucceeds(t, t.(mappings := WithoutEntries(t.mappings, [current.value])[e := f]), t.mappings[current.value],
                   now);
    }
  }

  /** A copied object is the file of its source, published at its entry. */
  lemma CopyObjectExactly(t: Tables, source: EntryId, current: Option<EntryId>, e: EntryId, now: int)
    requires Inv(t) && source in t.mappings && current != Some(source)
    ensures CopyObject(t, source, current, e, now).Ok? <==>
      CanBeLinked(t, t.mappings[source]) && e !in t.mappings && (current.Some? ==> current.value in t.mappings)
    ensures CopyObject(t, source, current, e, now).Ok? ==>
      var m := CopyObject(t, source, current, e, now).value.mappings;
      e in m && m[e] == t.mappings[source] && source in m && m[source] == t.mappings[source]
  {
    PublishObjectExactly(t, current, e, t.mappings[source], now);
  }

  /** Each target of a tree copy is mapped to the file of its source, what was overwritten is gone, and every
      other entry stays. */
  lemma CopyExactly(t: Tables, copies: seq<EntryCopy>, overwritten: seq<EntryId>, now: int)
    requires Inv(t)
    ensures CopyEntries(t, copies, overwritten, now).Ok? <==>
      && CopiesValid(t, copies, overwritten)
      && forall i :: 0 <= i < |copies| ==> CanBeLinked(t, t.mappings[copies[i].source])
    ensures CopyEntries(t, copies, overwritten, now).Ok? ==>
      CopiedTo(t, copies, overwritten, CopyEntries(t, copies, overwritten, now).value.mappings)
  {
    if CopiesValid(t, copies, overwritten) {
      var r := t.(mappings := WithoutEntries(t.mappings, overwritten) + CopiedMappings(t, copies));
      forall i | 0 <= i < |copies|
        ensures CanBeLinked(r, t.mappings[copies[i].source]) == CanBeLinked(t, t.mappings[copies[i].source])
      {
        LinkableIgnoresMappings(t, r, t.mappings[copies[i].source]);
      }
      RemovedFilesExist(t, overwritten);
      MarksSucceed(t, r, FileIdsOf(t, overwritten), now);
      CopiedExactly(t, copies, overwritten);
    }
  }

  ghost predicate CopiedTo(t: Tables, copies: seq<EntryCopy>, overwritten: seq<EntryId>, m: map<EntryId, FileId>) {
    && (forall i :: 0 <= i < |copies| ==> IsCopied(t, copies[i], m))
    && (forall e :: e in m && !IsCopyTarget(copies, e) ==> e in t.mappings && m[e] == t.mappings[e])
    && forall e :: e in m <==> IsCopyTarget(copies, e) || (e in t.mappings && e !in overwritten)
  }

  predicate IsCopied(t: Tables, copy: EntryCopy, m: map<EntryId, FileId>) {
    copy.source in t.mappings && copy.target in m && m[copy.target] == t.mappings[copy.source]
  }

  predicate IsCopyTarget(copies: seq<EntryCopy>, e: EntryId) {
    exists i :: 0 <= i < |copies| && copies[i].target == e
  }

  lemma CopiedExactly(t: Tables, copies: seq<EntryCopy>, overwritten: seq<EntryId>)
    requires CopiesValid(t, copies, overwritten)
    ensures CopiedTo(t, copies, overwritten, WithoutEntries(t.mappings, overwritten) + CopiedMappings(t, copies))
  {
    var copied := CopiedMappings(t, copies);
    var m := WithoutEntries(t.mappings, overwritten) + copied;
    forall i | 0 <= i < |copies| ensures IsCopied(t, copies[i], m) {
      CopiedIs(t, copies, i);
    }
    forall e ensures e in copied <==> IsCopyTarget(copies, e) {
    }
  }

  lemma CopiedIs(t: Tables, copies: seq<EntryCopy>, i: nat)
    requires i < |copies| && forall j :: 0 <= j < |copies| ==> copies[j].source in t.mappings
    requires forall j, k :: 0 <= j < k < |copies| ==> copies[j].target != copies[k].target
    ensures copies[i].target in CopiedMappings(t, copies)
    ensures CopiedMappings(t, copies)[copies[i].target] == t.mappings[copies[i].source]
  {
    var copied, e := CopiedMappings(t, copies), copies[i].target;
    var j :| 0 <= j < |copies| && copies[j].target == e && copied[e] == t.mappings[copies[j].source];
  }

  // ---------------------------------------------------------------------------
  // Import publishing
  // ---------------------------------------------------------------------------

  /** Item `i` is the last one for its entry. */
  predicate LastFor(items: seq<ImportMapping>, i: int)
    requires 0 <= i < |items|
  {
    forall j :: i < j < |items| ==> items[j].entry != items[i].entry
  }

  predicate IsImported(items: seq<ImportMapping>, e: EntryId) {
    exists i :: 0 <= i < |items| && items[i].entry == e
  }

  predicate IsPublished(item: ImportMapping, m: map<EntryId, FileId>) {
    item.entry in m && m[item.entry] == item.target
  }

  ghost predicate PublishedTo(t: Tables, items: seq<ImportMapping>, m: map<EntryId, FileId>) {
    && (forall i :: 0 <= i < |items| && LastFor(items, i) ==> IsPublished(items[i], m))
    && (forall e :: e in t.mappings && !IsImported(items, e) ==> e in m && m[e] == t.mappings[e])
    && forall e :: e in m ==> e in t.mappings || IsImported(items, e)
  }

  /** Targets are checked one after the other, but earlier ones make no difference to later ones. */
  lemma {:induction false} PublishesExactly(t: Tables, items: seq<ImportMapping>)
    ensures PublishMappings(t, items).Ok? <==> forall i :: 0 <= i < |items| ==> CanBeLinked(t, items[i].target)
  {
    if items != [] {
      var n := |items| - 1;
      PublishesExactly(t, items[..n]);
      assert forall i :: 0 <= i < n ==> items[..n][i] == items[i];
      if PublishMappings(t, items[..n]).Ok? {
        PublishMappingsKeeps(t, items[..n]);
        LinkableIgnoresMappings(t, PublishMappings(t, items[..n]).value.tables, items[n].target);
      }
    }
  }

  lemma {:induction false} PublishedExactly(t: Tables, items: seq<ImportMapping>)
    requires PublishMappings(t, items).Ok?
    ensures PublishedTo(t, items, PublishMappings(t, items).value.tables.mappings)
  {
    if items != [] {
      var n := |items| - 1;
      PublishedExactly(t, items[..n]);
      PublishedNext(t, items, PublishMappings(t, items[..n]).value.tables.mappings);
    }
  }

  lemma ImportedNext(items: seq<ImportMapping>, e: EntryId)
    requires items != []
    ensures IsImported(items, e) <==> IsImported(items[..|items| - 1], e) || e == items[|items| - 1].entry
  {
    var n := |items| - 1;
    var b := items[..n];
    if IsImported(b, e) {
      var i :| 0 <= i < n && b[i].entry == e;
      assert items[i].entry == e;
    }
    if IsImported(items, e) && e != items[n].entry {
      var i :| 0 <= i < |items| && items[i].entry == e;
      assert b[i].entry == e;
    }
  }

  lemma LastForNext(items: seq<ImportMapping>, i: int)
    requires 0 <= i < |items| - 1 && LastFor(items, i)
    ensures LastFor(items[..|items| - 1], i) && items[i].entry != items[|items| - 1].entry
  {
    var b := items[..|items| - 1];
    assert forall j :: i < j < |b| ==> b[j] == items[j];
  }

  lemma PublishedNext(t: Tables, items: seq<ImportMapping>, m: map<EntryId, FileId>)
    requires items != [] && PublishedTo(t, items[..|items| - 1], m)
    ensures PublishedTo(t, items, m[items[|items| - 1].entry := items[|items| - 1].target])
  {
    var n := |items| - 1;
    var b, last := items[..n], items[n];
    var w := m[last.entry := last.target];
    forall e ensures IsImported(items, e) <==> IsImported(b, e) || e == last.entry {
      ImportedNext(items, e);
    }
    forall i | 0 <= i < |items| && LastFor(items, i) ensures IsPublished(items[i], w) {
      if i < n {
        LastForNext(items, i);
        assert IsPublished(b[i], m);
      }
    }
  }

  /** What an import replaces are files. */
  lemma {:induction false} ReplacedExist(t: Tables, items: seq<ImportMapping>)
    requires MappedReady(t) && PublishMappings(t, items).Ok?
    ensures var p := PublishMappings(t, items).value;
      && MappedReady(p.tables) && p.tables.files == t.files
      && forall i :: 0 <= i < |p.replaced| ==> p.replaced[i] in t.files
  {
    if items != [] { ReplacedExist(t, items[..|items| - 1]); }
  }

  /** An import maps each entry to the target of its last item, leaves every other entry, and is refused exactly
      if some target may not be linked. */
  lemma ImportExactly(t: Tables, items: seq<ImportMapping>, now: int)
    requires Inv(t)
    ensures PublishImport(t, items, now).Ok? <==> forall i :: 0 <= i < |items| ==> CanBeLinked(t, items[i].target)
    ensures PublishImport(t, items, now).Ok? ==> PublishedTo(t, items, PublishImport(t, items, now).value.mappings)
  {
    PublishesExactly(t, items);
    if PublishMappings(t, items).Ok? {
      PublishedExactly(t, items);
      var p := PublishMappings(t, items).value;
      PublishMappingsKeeps(t, items);
      ReplacedExist(t, items);
      MarksSucceed(t, p.tables, p.replaced, now);
    }
  }

  // ---------------------------------------------------------------------------
  // Export pins
  // ---------------------------------------------------------------------------

  /** The file is listed by an export of the entries: one of them is mapped to it, or to a composite of it. */
  ghost predicate Exported(t: Tables, entries: set<EntryId>, f: FileId) {
    exists e :: e in entries && e in t.mappings && (t.mappings[e] == f || SourceOf(t, t.mappings[e], f))
  }

  /** An export pins exactly what it lists, for its job. */
  lemma SnapshotExactly(t: Tables, job: JobId, entries: set<EntryId>)
    requires Inv(t)
    ensures CreateSnapshot(t, job, entries).Ok? <==>
      && (forall e :: e in entries ==> e in t.mappings && TreeExportable(t, t.mappings[e]))
      && forall f :: Exported(t, entries, f) ==> Pin(job, f) !in t.pins
    ensures CreateSnapshot(t, job, entries).Ok? ==>
      var u := CreateSnapshot(t, job, entries).value;
      && u == t.(pins := u.pins)
      && forall p :: p in u.pins <==> p in t.pins || (p.job == job && Exported(t, entries, p.file))
  {
    if forall e :: e in entries ==> e in t.mappings && TreeExportable(t, t.mappings[e]) {
      forall f ensures f in SnapshotFiles(t, entries) <==> Exported(t, entries, f) {
        ListedIsFile(t, entries, f);
      }
    }
  }

  lemma ListedIsFile(t: Tables, entries: set<EntryId>, f: FileId)
    requires Inv(t) && forall e :: e in entries ==> e in t.mappings
    ensures f in SnapshotFiles(t, entries) <==> Exported(t, entries, f)
  {
    if Exported(t, entries, f) {
      var e :| e in entries && e in t.mappings && (t.mappings[e] == f || SourceOf(t, t.mappings[e], f));
      assert f in t.files;
    }
  }

  // ---------------------------------------------------------------------------
  // What may be linked and exported
  // ---------------------------------------------------------------------------

  /** Every part has its delete row. */
  ghost predicate RowsComplete(t: Tables) {
    t.states.Keys == t.parts
  }

  ghost predicate TreeLive(t: Tables, f: FileId) {
    forall k :: k in t.states && (k.file == f || SourceOf(t, f, k.file)) ==> t.states[k].state.Live?
  }

  /** The segments are there, take whole files, and add up to the size. */
  ghost predicate ManifestTrue(t: Tables, f: FileId) {
    && f in t.files && f in t.segments && t.segments[f] != [] && TotalSize(t.segments[f]) == t.files[f].size
    && forall i :: 0 <= i < |t.segments[f]| ==>
         t.segments[f][i].source in t.files && t.files[t.segments[f][i].source].size == t.segments[f][i].size
  }

  /** A ready physical file has as many part rows and live rows as it declares. */
  lemma RefsComplete(t: Tables, f: FileId)
    requires Sound(t) && RowsComplete(t) && IsFile(t, f) && t.files[f].ready && AllLive(t, f)
    ensures DeletionRefsComplete(t, f)
  {
    var n := t.files[f].partCount;
    forall k ensures k in t.parts && k.file == f <==> k in KeysBelow(f, n) {
      if k in KeysBelow(f, n) { assert k == PartKey(f, k.index); }
    }
    assert (set k | k in t.parts && k.file == f) == KeysBelow(f, n);
    assert (set k | k in t.parts && k.file == f && k in t.states && t.states[k].state.Live?) == KeysBelow(f, n);
  }

  /** A file may be linked exactly if it is ready, all blocks of its tree are live, and the manifest of a
      composite is true: the counts of part rows that are checked besides refuse nothing. */
  lemma LinkableExactly(t: Tables, f: FileId)
    requires Sound(t) && RowsComplete(t)
    ensures CanBeLinked(t, f) <==>
      f in t.files && t.files[f].ready && TreeLive(t, f) && (t.files[f].layout.Composite? ==> ManifestTrue(t, f))
  {
    if f in t.files && t.files[f].layout.Physical? {
      assert forall g :: !SourceOf(t, f, g);
    } else if f in t.files && f in t.segments {
      forall i | 0 <= i < |t.segments[f]|
        ensures SegmentLinkable(t, t.segments[f][i]) <==>
          AllLive(t, t.segments[f][i].source) && t.files[t.segments[f][i].source].size == t.segments[f][i].size
      {
        var g := t.segments[f][i].source;
        if AllLive(t, g) { RefsComplete(t, g); }
      }
      CompositeTreeLive(t, f);
    }
  }

  lemma CompositeTreeLive(t: Tables, f: FileId)
    requires Sound(t) && IsComposite(t, f) && f in t.segments
    ensures TreeLive(t, f) <==> forall i :: 0 <= i < |t.segments[f]| ==> AllLive(t, t.segments[f][i].source)
  {
    assert forall k :: k in t.states ==> k.file != f;
    forall i | 0 <= i < |t.segments[f]| ensures SourceOf(t, f, t.segments[f][i].source) {
    }
  }

  /** Whatever is mapped may be linked again, so a copy or a publication of it is not refused for its file. */
  lemma MappedIsLinkable(t: Tables, e: EntryId)
    requires Inv(t) && RowsComplete(t) && e in t.mappings
    requires IsComposite(t, t.mappings[e]) ==> ManifestTrue(t, t.mappings[e])
    ensures CanBeLinked(t, t.mappings[e])
  {
    var f := t.mappings[e];
    forall k | k in t.states && (k.file == f || SourceOf(t, f, k.file)) ensures t.states[k].state.Live? {
      assert Mapped(t, f);
      if k.file != f { assert InMappedComposite(t, k.file); }
    }
    LinkableExactly(t, f);
  }

  /** Whatever is mapped may be exported, so the first snapshot of a job is refused only for an entry that is
      not there. */
  lemma MappedIsExportable(t: Tables, e: EntryId)
    requires Inv(t) && RowsComplete(t) && e in t.mappings
    ensures TreeExportable(t, t.mappings[e])
  {
    var f := t.mappings[e];
    assert Mapped(t, f);
    forall g | SourceOf(t, f, g) ensures HasLiveReference(t, g) {
      assert InMappedComposite(t, g);
    }
    if f in t.segments {
      forall i | 0 <= i < |t.segments[f]| ensures HasLiveReference(t, t.segments[f][i].source) {
        assert SourceOf(t, f, t.segments[f][i].source);
      }
    }
  }

  // ---------------------------------------------------------------------------
  // Multipart uploads
  // ---------------------------------------------------------------------------

  /** A new upload is active and has no parts. */
  lemma CreateUploadExactly(t: Tables, u: UploadId, expiresAt: int)
    ensures CreateUpload(t, u, expiresAt).Ok? <==> u !in t.uploads && forall k :: k in t.uploadParts ==> k.upload != u
    ensures CreateUpload(t, u, expiresAt).Ok? ==>
      var v := CreateUpload(t, u, expiresAt).value;
      && v == t.(uploads := v.uploads) && v.uploads.Keys == t.uploads.Keys + {u}
      && v.uploads[u].state.Active? && v.uploads[u].expiresAt == expiresAt
      && forall x :: x in t.uploads ==> v.uploads[x] == t.uploads[x]
  {
  }

  lemma ActiveFilesExist(t: Tables, u: UploadId)
    requires UploadsSound(t)
    ensures forall f :: f in ActivePartFiles(t, u, MaxUploadParts) ==> f in t.files
  {
  }

  /** An abort is refused exactly if the upload is not active; it discards exactly the active parts of the upload
      and keeps its row for a day. */
  lemma AbortExactly(t: Tables, u: UploadId, now: int)
    requires Inv(t)
    ensures AbortUpload(t, u, now).Ok? <==> u in t.uploads && t.uploads[u].state.Active?
    ensures AbortUpload(t, u, now).Ok? ==>
      var v, was := AbortUpload(t, u, now).value, t.uploads[u];
      && v.uploads == t.uploads[u := Upload(Aborted, was.expiresAt, now + 24 * 60 * 60 * 1000, was.fingerprint,
                                            was.resultFile, was.resultTag)]
      && PartsDiscarded(t, v, u)
  {
    if u in t.uploads {
      ActiveFilesExist(t, u);
      var ids := ActivePartFiles(t, u, MaxUploadParts);
      assert forall i :: 0 <= i < |ids| ==> ids[i] in ids;
      MarksSucceed(t, AbortedTables(t, u, now), ids, now);
    }
  }

  ghost predicate PartsDiscarded(t: Tables, v: Tables, u: UploadId) {
    && v.uploadParts.Keys == t.uploadParts.Keys
    && forall k :: k in t.uploadParts ==>
         var was := t.uploadParts[k];
         v.uploadParts[k] ==
           if k.upload == u && was.state.PartActive? then UploadPart(Discarded, was.file, was.size, was.tag) else was
  }

  /** A part may be staged exactly if its file is ready with its size, all its blocks live, and not mapped. */
  lemma StageableExactly(t: Tables, f: FileId, size: nat)
    requires Sound(t) && RowsComplete(t)
    ensures Stageable(t, f, size) <==>
      IsFile(t, f) && t.files[f].ready && t.files[f].size == size && AllLive(t, f) && !Mapped(t, f)
  {
    if IsFile(t, f) && t.files[f].ready {
      if AllLive(t, f) { RefsComplete(t, f); }
      assert (set k | k in t.parts && k.file == f && k in t.states) == (set k | k in t.parts && k.file == f);
      var n := t.files[f].partCount;
      forall k ensures k in t.parts && k.file == f <==> k in KeysBelow(f, n) {
        if k in KeysBelow(f, n) { assert k == PartKey(f, k.index); }
      }
      assert (set k | k in t.parts && k.file == f) == KeysBelow(f, n);
    }
  }

  /** A part is put exactly if its upload is active, its number in range and its file may be staged and is no other
      part's; it then takes the place of what had its number.  An upload that has expired is aborted instead. */
  lemma PutPartExactly(t: Tables, k: UploadPartKey, f: FileId, size: nat, tag: string, now: int)
    requires Inv(t) && k.upload in t.uploads && t.uploads[k.upload].state.Active? && 1 <= k.number <= MaxUploadParts
    ensures t.uploads[k.upload].expiresAt <= now ==>
      PutPart(t, k, f, size, tag, now).Ok? && PutPart(t, k, f, size, tag, now) == AbortUpload(t, k.upload, now)
    ensures t.uploads[k.upload].expiresAt > now ==>
      (PutPart(t, k, f, size, tag, now).Ok? <==>
         && Stageable(t, f, size) && (k in t.uploadParts ==> t.uploadParts[k].state.PartActive?)
         && forall o :: o in t.uploadParts && o != k ==> t.uploadParts[o].file != f)
    ensures t.uploads[k.upload].expiresAt > now && PutPart(t, k, f, size, tag, now).Ok? ==>
      var v := PutPart(t, k, f, size, tag, now).value;
      v.uploads == t.uploads && v.uploadParts == t.uploadParts[k := UploadPart(PartActive, f, size, tag)]
  {
    AbortExactly(t, k.upload, now);
    if k in t.uploadParts {
      MarkSucceeds(t, t.(uploadParts := t.uploadParts[k := UploadPart(PartActive, f, size, tag)]),
                   t.uploadParts[k].file, now);
    }
  }

  /** A purge takes away an ended upload whose time has come, with all its parts, and nothing else. */
  lemma PurgeExactly(t: Tables, u: UploadId, now: int)
    ensures PurgeUpload(t, u, now).Ok? <==>
      && u in t.uploads && (t.uploads[u].state.Completed? || t.uploads[u].state.Aborted?)
      && 0 < t.uploads[u].cleanupAt <= now
    ensures PurgeUpload(t, u, now).Ok? ==>
      var v := PurgeUpload(t, u, now).value;
      && v == t.(uploads := v.uploads, uploadParts := v.uploadParts)
      && (forall x :: x in v.uploads <==> x in t.uploads && x != u)
      && (forall x :: x in v.uploads ==> v.uploads[x] == t.uploads[x])
      && (forall k :: k in v.uploadParts <==> k in t.uploadParts && k.upload != u)
      && forall k :: k in v.uploadParts ==> v.uploadParts[k] == t.uploadParts[k]
  {
  }

  // ---------------------------------------------------------------------------
  // Files
  // ---------------------------------------------------------------------------

  /** Counting the part rows of an imported file is as good as looking for each part. */
  lemma ImportFinishesAlike(t: Tables, f: FileId)
    requires Inv(t)
    ensures FinishImportPhysical(t, f) == FinishCreate(t, f)
  {
    if IsFile(t, f) && HasAllParts(t, f) {
      var n := t.files[f].partCount;
      forall k ensures k in t.parts && k.file == f <==> k in KeysBelow(f, n) {
        if k in KeysBelow(f, n) { assert k == PartKey(f, k.index); }
      }
      assert (set k | k in t.parts && k.file == f) == KeysBelow(f, n);
    } else if FinishImportPhysical(t, f).Ok? {
      CountedPartsAreAll(t, f);
    }
  }
}
