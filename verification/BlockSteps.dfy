/** The transactions that add or drop references to stored blocks, one function each:
    filemgr/file_manager_impl.go, s3_object.go, s3_multipart.go, webdav_protocol.go,
    webdav_mutation.go and backup.go.  Identifiers the code draws from a generator are
    parameters and must be new. */
module BlockSteps {
  import opened BlockTables

  // ---------------------------------------------------------------------------
  // Creating files
  // ---------------------------------------------------------------------------

  function CreateDraft(t: Tables, f: FileId, layout: Layout, size: nat, partCount: nat): Result<Tables> {
    if f in t.files then Err
    else Ok(t.(files := t.files[f := FileRow(layout, false, size, partCount)]))
  }

  function LiveRow(backend: string, uploadedAt: int): DeleteRow {
    DeleteRow(backend, uploadedAt, Live, 0, 0, 0)
  }

  /** The record of an uploaded block whose part row could not be written at first. */
  function CompensationRow(backend: string, uploadedAt: int, now: int): DeleteRow {
    DeleteRow(backend, uploadedAt, Pending, 0, now, 0)
  }

  /** Part `k` of a draft with its delete row. */
  function CreatePart(t: Tables, k: PartKey, row: DeleteRow): Result<Tables> {
    if k.file !in t.files || t.files[k.file].layout.Composite? || k.index >= t.files[k.file].partCount || k in t.parts
    then Err
    else Ok(t.(parts := t.parts + {k}, states := t.states[k := row]))
  }

  /** createFile marks a file ready once all its parts are stored. */
  function FinishCreate(t: Tables, f: FileId): Result<Tables> {
    if f in t.files && t.files[f].layout.Physical? && HasAllParts(t, f)
    then Ok(t.(files := t.files[f := t.files[f].(ready := true)]))
    else Err
  }

  predicate HasAllParts(t: Tables, f: FileId)
    requires f in t.files
  {
    forall i :: 0 <= i < t.files[f].partCount ==> PartKey(f, i) in t.parts
  }

  // ---------------------------------------------------------------------------
  // Path mappings
  // ---------------------------------------------------------------------------

  function Link(t: Tables, e: EntryId, f: FileId): Result<Tables> {
    if e in t.mappings || !CanBeLinked(t, f) then Err
    else Ok(t.(mappings := t.mappings[e := f]))
  }

  /** A lock on a missing path maps an empty file made for it; the code does not look at the
      delete states of that file, which has no parts. */
  function LinkLockNull(t: Tables, e: EntryId, f: FileId): Result<Tables> {
    if e in t.mappings || f !in t.files || t.files[f] != FileRow(Physical, true, 0, 0) then Err
    else Ok(t.(mappings := t.mappings[e := f]))
  }

  /** The file ids of the removed entries that are files, each once, in order. */
  function FileIdsOf(t: Tables, entries: seq<EntryId>): (ids: seq<FileId>)
    ensures forall f :: f in ids <==> exists e :: e in entries && e in t.mappings && t.mappings[e] == f
  {
    if entries == [] then [] else
      var last := entries[|entries| - 1];
      var ids := FileIdsOf(t, entries[..|entries| - 1]);
      assert entries == entries[..|entries| - 1] + [last];
      if last in t.mappings && t.mappings[last] !in ids then ids + [t.mappings[last]] else ids
  }

  function WithoutEntries(m: map<EntryId, FileId>, entries: seq<EntryId>): (r: map<EntryId, FileId>)
    ensures forall e :: e in r <==> e in m && e !in entries
    ensures forall e :: e in r ==> r[e] == m[e]
  {
    map e | e in m && e !in entries :: m[e]
  }

  /** Removal of a subtree, of the overwritten target of a move, of an S3 object, or of a
      lock-null resource: the entries go and their files are marked. */
  function RemoveEntries(t: Tables, entries: seq<EntryId>, now: int): Result<Tables>
    requires SourcesPhysical(t)
  {
    MarkEach(t.(mappings := WithoutEntries(t.mappings, entries)), FileIdsOf(t, entries), now)
  }

  function ReplaceEntry(t: Tables, e: EntryId, f: FileId, now: int): Result<Tables>
    requires SourcesPhysical(t)
  {
    if e !in t.mappings || !CanBeLinked(t, f) then Err
    else
      var r := t.(mappings := t.mappings[e := f]);
      if t.mappings[e] == f then Ok(r) else MarkTree(r, t.mappings[e], now)
  }

  /** publishS3ObjectTx: the object at `current`, if any, makes way for entry `e`. */
  function PublishObject(t: Tables, current: Option<EntryId>, e: EntryId, f: FileId, now: int): Result<Tables>
    requires SourcesPhysical(t)
  {
    if !CanBeLinked(t, f) || e in t.mappings then Err
    else match current
      case None => Ok(t.(mappings := t.mappings[e := f]))
      case Some(c) =>
        if c !in t.mappings then Err
        else
          var r := t.(mappings := WithoutEntries(t.mappings, [c])[e := f]);
          if t.mappings[c] == f then Ok(r) else MarkTree(r, t.mappings[c], now)
  }

  /** copyDifferentS3ObjectTx: the destination object is removed before the source is checked. */
  function CopyObject(t: Tables, source: EntryId, current: Option<EntryId>, e: EntryId, now: int): Result<Tables>
    requires SourcesPhysical(t)
  {
    if source !in t.mappings || current == Some(source) then Err
    else PublishObject(t, current, e, t.mappings[source], now)
  }

  datatype EntryCopy = EntryCopy(source: EntryId, target: EntryId)

  predicate CopiesValid(t: Tables, copies: seq<EntryCopy>, overwritten: seq<EntryId>) {
    && (forall i :: 0 <= i < |copies| ==>
         copies[i].source in t.mappings && copies[i].source !in overwritten && copies[i].target !in t.mappings)
    && (forall i, j :: 0 <= i < j < |copies| ==> copies[i].target != copies[j].target)
  }

  /** The new mappings of a tree copy. */
  function CopiedMappings(t: Tables, copies: seq<EntryCopy>): (m: map<EntryId, FileId>)
    requires forall i :: 0 <= i < |copies| ==> copies[i].source in t.mappings
    ensures forall e :: e in m ==> exists i ::
      0 <= i < |copies| && copies[i].target == e && m[e] == t.mappings[copies[i].source]
    ensures forall i :: 0 <= i < |copies| ==> copies[i].target in m
  {
    if copies == [] then map[] else
      var n := |copies| - 1;
      CopiedMappings(t, copies[..n])[copies[n].target := t.mappings[copies[n].source]]
  }

  /** copyWebDAVResourceTx: the target tree is replaced by a copy of the source tree, every
      copied file must be linkable, and the overwritten files are marked. */
  function CopyEntries(t: Tables, copies: seq<EntryCopy>, overwritten: seq<EntryId>, now: int): Result<Tables>
    requires SourcesPhysical(t)
  {
    if !CopiesValid(t, copies, overwritten) then Err
    else
      var r := t.(mappings := WithoutEntries(t.mappings, overwritten) + CopiedMappings(t, copies));
      if exists i :: 0 <= i < |copies| && !CanBeLinked(r, t.mappings[copies[i].source]) then Err
      else MarkEach(r, FileIdsOf(t, overwritten), now)
  }

  // ---------------------------------------------------------------------------
  // Multipart uploads
  // ---------------------------------------------------------------------------

  const MaxUploadParts: nat := 10_000
  const MinUploadPartSize: nat := 5 * 1024 * 1024
  const ControlRetention: int := 24 * 60 * 60 * 1000

  function CreateUpload(t: Tables, u: UploadId, expiresAt: int): Result<Tables> {
    if u in t.uploads || exists k :: k in t.uploadParts && k.upload == u then Err
    else Ok(t.(uploads := t.uploads[u := Upload(Active, expiresAt, 0, [], 0, [])]))
  }

  predicate IsActivePartFile(t: Tables, k: UploadPartKey, f: FileId) {
    k in t.uploadParts && t.uploadParts[k].state.PartActive? && t.uploadParts[k].file == f
  }

  /** The files of the active parts of `u` numbered up to `n`, in part order. */
  function ActivePartFiles(t: Tables, u: UploadId, n: nat): (ids: seq<FileId>)
    ensures forall f :: f in ids <==> exists i: nat :: 0 < i <= n && IsActivePartFile(t, UploadPartKey(u, i), f)
  {
    if n == 0 then [] else
      var k := UploadPartKey(u, n);
      var ids := ActivePartFiles(t, u, n - 1);
      if k in t.uploadParts && t.uploadParts[k].state.PartActive? then ids + [t.uploadParts[k].file] else ids
  }

  function DiscardParts(t: Tables, u: UploadId): (r: map<UploadPartKey, UploadPart>)
    ensures r.Keys == t.uploadParts.Keys
  {
    map k | k in t.uploadParts ::
      if k.upload == u && t.uploadParts[k].state.PartActive? then t.uploadParts[k].(state := Discarded)
      else t.uploadParts[k]
  }

  function AbortUpload(t: Tables, u: UploadId, now: int): Result<Tables>
    requires SourcesPhysical(t)
  {
    if u !in t.uploads || !t.uploads[u].state.Active? then Err
    else
      var r := t.(uploads := t.uploads[u := t.uploads[u].(state := Aborted, cleanupAt := now + ControlRetention)],
                  uploadParts := DiscardParts(t, u));
      MarkEach(r, ActivePartFiles(t, u, MaxUploadParts), now)
  }

  /** As many part rows as declared, each with a live delete state, and no other state. */
  predicate StagingLive(t: Tables, f: FileId)
    requires f in t.files
  {
    && |(set k | k in t.parts && k.file == f)| == t.files[f].partCount
    && |(set k | k in t.parts && k.file == f && k in t.states)| == t.files[f].partCount
    && forall k :: k in t.parts && k.file == f && k in t.states ==> t.states[k].state.Live?
  }

  predicate Stageable(t: Tables, f: FileId, size: nat) {
    && f in t.files && t.files[f].ready && t.files[f].layout.Physical? && t.files[f].size == size
    && StagingLive(t, f)
    && !Mapped(t, f)
  }

  /** putMultipartPartTx.  An expired upload is aborted instead. */
  function PutPart(t: Tables, k: UploadPartKey, f: FileId, size: nat, tag: string, now: int): Result<Tables>
    requires SourcesPhysical(t)
  {
    if k.upload !in t.uploads || !t.uploads[k.upload].state.Active? then Err
    else if k.number < 1 || k.number > MaxUploadParts then Err
    else if t.uploads[k.upload].expiresAt <= now then AbortUpload(t, k.upload, now)
    else if !Stageable(t, f, size) then Err
    else if exists o :: o in t.uploadParts && o != k && t.uploadParts[o].file == f then Err
    else
      var r := t.(uploadParts := t.uploadParts[k := UploadPart(PartActive, f, size, tag)]);
      if k !in t.uploadParts then Ok(r)
      else if !t.uploadParts[k].state.PartActive? || t.uploadParts[k].file !in t.files then Err
      else if t.uploadParts[k].file == f then Ok(r)
      else MarkTree(r, t.uploadParts[k].file, now)
  }

  /** Part numbers ascend from 1 and stay within bounds; an empty list is refused. */
  predicate ValidRequest(request: seq<CompletedPart>) {
    && 0 < |request| <= MaxUploadParts
    && (forall i :: 0 <= i < |request| ==> 1 <= request[i].number <= MaxUploadParts)
    && (forall i, j :: 0 <= i < j < |request| ==> request[i].number < request[j].number)
  }

  predicate CompletionPartOk(t: Tables, u: UploadId, requested: CompletedPart, last: bool) {
    var k := UploadPartKey(u, requested.number);
    && k in t.uploadParts && t.uploadParts[k].state.PartActive? && t.uploadParts[k].tag == requested.tag
    && var part := t.uploadParts[k];
    && part.file in t.files && t.files[part.file].ready && t.files[part.file].layout.Physical?
    && (last || part.size >= MinUploadPartSize)
    && StagingLive(t, part.file)
    && !Mapped(t, part.file)
  }

  predicate CompletionPartsOk(t: Tables, u: UploadId, request: seq<CompletedPart>) {
    forall i :: 0 <= i < |request| ==> CompletionPartOk(t, u, request[i], i == |request| - 1)
  }

  /** The manifest a completion writes: the requested parts in request order. */
  function CompletionSegments(t: Tables, u: UploadId, request: seq<CompletedPart>): (segments: seq<Segment>)
    requires CompletionPartsOk(t, u, request)
    ensures |segments| == |request|
    ensures forall i :: 0 <= i < |request| ==>
      UploadPartKey(u, request[i].number) in t.uploadParts &&
      segments[i] == Segment(t.uploadParts[UploadPartKey(u, request[i].number)].file,
                             t.uploadParts[UploadPartKey(u, request[i].number)].size)
  {
    seq(|request|, i requires 0 <= i < |request| =>
      assert CompletionPartOk(t, u, request[i], i == |request| - 1);
      var part := t.uploadParts[UploadPartKey(u, request[i].number)]; Segment(part.file, part.size))
  }

  predicate SourcesUnused(t: Tables, segments: seq<Segment>) {
    && (forall i, c, j :: 0 <= i < |segments| && c in t.segments && 0 <= j < |t.segments[c]| ==>
         t.segments[c][j].source != segments[i].source)
    && (forall i, j :: 0 <= i < j < |segments| ==> segments[i].source != segments[j].source)
  }

  function TotalPartCount(t: Tables, segments: seq<Segment>): nat {
    if segments == [] then 0 else
      var last := segments[|segments| - 1];
      TotalPartCount(t, segments[..|segments| - 1])
      + if last.source in t.files then t.files[last.source].partCount else 0
  }

  function SelectParts(parts: map<UploadPartKey, UploadPart>, u: UploadId, request: seq<CompletedPart>)
    : (r: map<UploadPartKey, UploadPart>)
    ensures r.Keys == parts.Keys
  {
    map k | k in parts ::
      if k.upload == u && parts[k].state.Discarded? && (exists i :: 0 <= i < |request| && request[i].number == k.number)
      then parts[k].(state := Selected) else parts[k]
  }

  function Unselected(ids: seq<FileId>, segments: seq<Segment>): (r: seq<FileId>)
    ensures forall f :: f in r <==> f in ids && forall i :: 0 <= i < |segments| ==> segments[i].source != f
  {
    if ids == [] then [] else
      var n := |ids| - 1;
      var r := Unselected(ids[..n], segments);
      assert ids == ids[..n] + [ids[n]];
      if exists i :: 0 <= i < |segments| && segments[i].source == ids[n] then r else r + [ids[n]]
  }

  datatype Completion = Completion(tables: Tables, outcome: Outcome)
  datatype Outcome = UploadExpired | Done(file: FileId, size: nat, tag: seq<string>)

  function Tags(request: seq<CompletedPart>): seq<string> {
    seq(|request|, i requires 0 <= i < |request| => request[i].tag)
  }

  /** completeMultipartUploadTx. */
  function CompleteUpload(t: Tables, u: UploadId, request: seq<CompletedPart>, f: FileId,
                          current: Option<EntryId>, e: EntryId, now: int): Result<Completion>
    requires SourcesPhysical(t)
  {
    if !ValidRequest(request) || u !in t.uploads then Err
    else match t.uploads[u].state
      case Completed => ReadCompletion(t, u, request)
      case Active =>
        if t.uploads[u].expiresAt <= now then
          var aborted := AbortUpload(t, u, now);
          if aborted.Ok? then Ok(Completion(aborted.value, UploadExpired)) else Err
        else CompleteActive(t, u, request, f, current, e, now)
      case _ => Err
  }

  /** Repeating a completion reads the stored result back. */
  function ReadCompletion(t: Tables, u: UploadId, request: seq<CompletedPart>): Result<Completion>
    requires u in t.uploads
  {
    var upload := t.uploads[u];
    if upload.fingerprint != request || upload.resultFile !in t.files then Err
    else Ok(Completion(t, Done(upload.resultFile, t.files[upload.resultFile].size, upload.resultTag)))
  }

  /** The tables once the composite file is inserted and the upload is claimed. */
  function WithComposite(t: Tables, u: UploadId, request: seq<CompletedPart>, f: FileId): (r: Tables)
    requires u in t.uploads && CompletionPartsOk(t, u, request)
  {
    var segments := CompletionSegments(t, u, request);
    t.(uploads := t.uploads[u := t.uploads[u].(state := Completing)],
       files := t.files[f := FileRow(Composite, true, TotalSize(segments), TotalPartCount(t, segments))],
       segments := t.segments[f := segments])
  }

  lemma WithCompositeSourcesPhysical(t: Tables, u: UploadId, request: seq<CompletedPart>, f: FileId)
    requires SourcesPhysical(t) && f !in t.files && u in t.uploads && CompletionPartsOk(t, u, request)
    ensures SourcesPhysical(WithComposite(t, u, request, f))
  {
    var r := WithComposite(t, u, request, f);
    forall c, i | c in r.segments && 0 <= i < |r.segments[c]|
      ensures r.segments[c][i].source in r.files && r.files[r.segments[c][i].source].layout.Physical?
    {
      if c == f {
        assert CompletionPartOk(t, u, request[i], i == |request| - 1);
      } else {
        assert t.segments[c][i] == r.segments[c][i];
      }
    }
  }

  function CompleteActive(t: Tables, u: UploadId, request: seq<CompletedPart>, f: FileId,
                          current: Option<EntryId>, e: EntryId, now: int): Result<Completion>
    requires SourcesPhysical(t) && u in t.uploads
  {
    if !CompletionPartsOk(t, u, request) || f in t.files || f in t.segments then Err
    else
      var segments := CompletionSegments(t, u, request);
      if !SourcesUnused(t, segments) then Err
      else
        WithCompositeSourcesPhysical(t, u, request, f);
        var published := PublishObject(WithComposite(t, u, request, f), current, e, f, now);
        if published.Err? then Err
        else
          var p := published.value;
          var done := FinalizeParts(p, u, request, segments, now);
          if done.Err? then Err
          else
            var d := done.value;
            var upload := d.uploads[u].(state := Completed, cleanupAt := now + ControlRetention,
                                        fingerprint := request, resultFile := f, resultTag := Tags(request));
            Ok(Completion(d.(uploads := d.uploads[u := upload]), Done(f, TotalSize(segments), Tags(request))))
  }

  /** finalizeMultipartParts: requested parts are selected, all other active parts discarded
      and their files marked. */
  function FinalizeParts(t: Tables, u: UploadId, request: seq<CompletedPart>, segments: seq<Segment>, now: int)
    : (r: Result<Tables>)
    requires SourcesPhysical(t) && u in t.uploads
    ensures r.Ok? ==> u in r.value.uploads
  {
    var ids := ActivePartFiles(t, u, MaxUploadParts);
    MarkEach(t.(uploadParts := SelectParts(DiscardParts(t, u), u, request)), Unselected(ids, segments), now)
  }

  /** purgeMultipartControlRows for one terminal upload. */
  function PurgeUpload(t: Tables, u: UploadId, now: int): Result<Tables> {
    if u !in t.uploads || !(t.uploads[u].state.Completed? || t.uploads[u].state.Aborted?)
       || !(0 < t.uploads[u].cleanupAt <= now) then Err
    else Ok(t.(uploads := t.uploads - {u},
               uploadParts := map k | k in t.uploadParts && k.upload != u :: t.uploadParts[k]))
  }

  // ---------------------------------------------------------------------------
  // Backup export and import
  // ---------------------------------------------------------------------------

  /** No delete states at all, or a live one for every part. */
  predicate Exportable(t: Tables, f: FileId) {
    || (forall k :: k in t.parts && k.file == f ==> k !in t.states)
    || (forall k :: k in t.parts && k.file == f ==> k in t.states && t.states[k].state.Live?)
  }

  predicate TreeExportable(t: Tables, f: FileId) {
    && f in t.files && t.files[f].ready
    && (if t.files[f].layout.Physical? then Exportable(t, f)
        else f in t.segments ==> forall i :: 0 <= i < |t.segments[f]| ==>
          var source := t.segments[f][i].source;
          source in t.files && t.files[source].ready && Exportable(t, source))
  }

  /** The files a snapshot of the given entries pins: the mapped files and their sources. */
  function SnapshotFiles(t: Tables, entries: set<EntryId>): (fs: set<FileId>)
    requires forall e :: e in entries ==> e in t.mappings
  {
    set f | f in t.files && exists e :: e in entries && (t.mappings[e] == f || SourceOf(t, t.mappings[e], f))
  }

  function CreateSnapshot(t: Tables, job: JobId, entries: set<EntryId>): Result<Tables> {
    if exists e :: e in entries && (e !in t.mappings || !TreeExportable(t, t.mappings[e])) then Err
    else
      var fs := SnapshotFiles(t, entries);
      if exists f :: f in fs && Pin(job, f) in t.pins then Err
      else Ok(t.(pins := t.pins + set f | f in fs :: Pin(job, f)))
  }

  function ReleaseSnapshot(t: Tables, job: JobId): Tables {
    t.(pins := set p | p in t.pins && p.job != job)
  }

  /** finishBackupPhysicalFiles for one file: the part rows are counted. */
  function FinishImportPhysical(t: Tables, f: FileId): Result<Tables> {
    if f in t.files && t.files[f].layout.Physical?
       && |(set k | k in t.parts && k.file == f)| == t.files[f].partCount
    then Ok(t.(files := t.files[f := t.files[f].(ready := true)]))
    else Err
  }

  predicate IsReadyPhysical(t: Tables, f: FileId) {
    f in t.files && t.files[f].ready && t.files[f].layout.Physical?
  }

  /** finishBackupCompositeFiles for one file.  Its sources are physical files of the same
      manifest (backupfmt/validate.go), which the transaction has just marked ready. */
  function FinishImportComposite(t: Tables, f: FileId, segments: seq<Segment>): Result<Tables> {
    if f !in t.files || t.files[f].layout.Physical? then Err
    else if t.files[f].ready then Ok(t)
    else if f in t.segments || !SourcesUnused(t, segments) then Err
    else if exists i :: 0 <= i < |segments| && !IsReadyPhysical(t, segments[i].source) then Err
    else Ok(t.(files := t.files[f := t.files[f].(ready := true)], segments := t.segments[f := segments]))
  }

  datatype ImportMapping = ImportMapping(entry: EntryId, target: FileId)
  datatype Publishing = Publishing(tables: Tables, replaced: seq<FileId>)

  /** publishMappings: each target is checked against the tables left by its predecessors. */
  function PublishMappings(t: Tables, items: seq<ImportMapping>): Result<Publishing> {
    if items == [] then Ok(Publishing(t, []))
    else
      var n := |items| - 1;
      var before := PublishMappings(t, items[..n]);
      if before.Err? || !CanBeLinked(before.value.tables, items[n].target) then Err
      else
        var u := before.value.tables;
        var replaced := if items[n].entry in u.mappings then [u.mappings[items[n].entry]] else [];
        Ok(Publishing(u.(mappings := u.mappings[items[n].entry := items[n].target]), before.value.replaced + replaced))
  }

  lemma {:induction false} PublishMappingsKeeps(t: Tables, items: seq<ImportMapping>)
    ensures var r := PublishMappings(t, items); r.Ok? ==> r.value.tables == t.(mappings := r.value.tables.mappings)
  {
    if items != [] { PublishMappingsKeeps(t, items[..|items| - 1]); }
  }

  function PublishImport(t: Tables, items: seq<ImportMapping>, now: int): Result<Tables>
    requires SourcesPhysical(t)
  {
    var published := PublishMappings(t, items);
    if published.Err? then Err
    else
      PublishMappingsKeeps(t, items);
      MarkEach(published.value.tables, published.value.replaced, now)
  }
}
