/** The tables of the block lifetime protocol and the reference predicates over them
    (migrations/0007-0012, filemgr/references.go).  A table is a finite map; a query is a
    predicate over it; a transaction is a function from tables to tables or to a failure,
    and a failure leaves the tables as they were. */
module BlockTables {

  datatype Result<T> = Ok(value: T) | Err
  datatype Option<T> = None | Some(value: T)

  type FileId = nat
  type EntryId = nat
  type UploadId = nat
  type JobId = nat

  datatype Layout = Physical | Composite
  datatype FileRow = FileRow(layout: Layout, ready: bool, size: nat, partCount: nat)

  datatype PartKey = PartKey(file: FileId, index: nat)
  datatype DeleteState = Live | Pending | Deleting | Deleted | Failed | Expired
  datatype DeleteRow = DeleteRow(
    backend: string, uploadedAt: int, state: DeleteState, attempts: nat, nextAttemptAt: int, leaseUntil: int)

  datatype Segment = Segment(source: FileId, size: nat)

  datatype UploadState = Active | Completing | Completed | Aborted
  datatype Upload = Upload(
    state: UploadState, expiresAt: int, cleanupAt: int, fingerprint: seq<CompletedPart>, resultFile: FileId,
    resultTag: seq<string>)
  datatype CompletedPart = CompletedPart(number: nat, tag: string)
  datatype UploadPartKey = UploadPartKey(upload: UploadId, number: nat)
  datatype UploadPartState = PartActive | Selected | Discarded
  datatype UploadPart = UploadPart(state: UploadPartState, file: FileId, size: nat, tag: string)

  datatype Pin = Pin(job: JobId, file: FileId)

  datatype Tables = Tables(
    files: map<FileId, FileRow>,
    parts: set<PartKey>,
    states: map<PartKey, DeleteRow>,
    mappings: map<EntryId, FileId>,
    segments: map<FileId, seq<Segment>>,
    uploads: map<UploadId, Upload>,
    uploadParts: map<UploadPartKey, UploadPart>,
    pins: set<Pin>)

  // ---------------------------------------------------------------------------
  // References
  // ---------------------------------------------------------------------------

  predicate Pinned(t: Tables, f: FileId) {
    exists p :: p in t.pins && p.file == f
  }

  predicate Mapped(t: Tables, f: FileId) {
    exists e :: e in t.mappings && t.mappings[e] == f
  }

  predicate SourceOf(t: Tables, c: FileId, f: FileId) {
    c in t.segments && exists i :: 0 <= i < |t.segments[c]| && t.segments[c][i].source == f
  }

  predicate InMappedComposite(t: Tables, f: FileId) {
    exists c :: c in t.segments && Mapped(t, c) && SourceOf(t, c, f)
  }

  predicate IsActivePart(t: Tables, k: UploadPartKey) {
    && k in t.uploadParts && t.uploadParts[k].state.PartActive?
    && k.upload in t.uploads && t.uploads[k.upload].state.Active?
  }

  predicate InActiveUpload(t: Tables, f: FileId) {
    exists k :: k in t.uploadParts && IsActivePart(t, k) && t.uploadParts[k].file == f
  }

  predicate HasLiveReference(t: Tables, f: FileId) {
    Pinned(t, f) || Mapped(t, f) || InMappedComposite(t, f) || InActiveUpload(t, f)
  }

  /** Every table other than the delete states is the same. */
  ghost predicate SameButStates(t: Tables, u: Tables) {
    u == t.(states := u.states)
  }

  // ---------------------------------------------------------------------------
  // May a file be linked
  // ---------------------------------------------------------------------------

  predicate AllLive(t: Tables, f: FileId) {
    forall k :: k in t.states && k.file == f ==> t.states[k].state.Live?
  }

  /** As many part rows as declared, each with a live delete state. */
  predicate DeletionRefsComplete(t: Tables, f: FileId) {
    && f in t.files
    && |(set k | k in t.parts && k.file == f)| == t.files[f].partCount
    && |(set k | k in t.parts && k.file == f && k in t.states && t.states[k].state.Live?)| == t.files[f].partCount
  }

  predicate SegmentLinkable(t: Tables, segment: Segment) {
    && segment.source in t.files
    && t.files[segment.source] == FileRow(Physical, true, segment.size, t.files[segment.source].partCount)
    && AllLive(t, segment.source)
    && DeletionRefsComplete(t, segment.source)
  }

  function TotalSize(segments: seq<Segment>): nat {
    if segments == [] then 0 else TotalSize(segments[..|segments| - 1]) + segments[|segments| - 1].size
  }

  /** The manifest is not empty, every segment is sound, and the sizes add up. */
  predicate CompositeLinkable(t: Tables, f: FileId)
    requires f in t.files
  {
    && f in t.segments && t.segments[f] != []
    && (forall i :: 0 <= i < |t.segments[f]| ==> SegmentLinkable(t, t.segments[f][i]))
    && TotalSize(t.segments[f]) == t.files[f].size
  }

  predicate CanBeLinked(t: Tables, f: FileId) {
    && f in t.files && t.files[f].ready
    && (if t.files[f].layout.Physical? then AllLive(t, f) else CompositeLinkable(t, f))
  }

  // ---------------------------------------------------------------------------
  // Marking unreferenced files pending
  // ---------------------------------------------------------------------------

  predicate IsComposite(t: Tables, f: FileId) {
    f in t.files && t.files[f].layout.Composite?
  }

  /** Composites are built from physical files only. */
  ghost predicate SourcesPhysical(t: Tables) {
    forall c, i :: c in t.segments && 0 <= i < |t.segments[c]| ==>
      var source := t.segments[c][i].source; source in t.files && t.files[source].layout.Physical?
  }

  function Sources(t: Tables, f: FileId): (ids: seq<FileId>)
    ensures forall g :: g in ids <==> SourceOf(t, f, g)
    ensures forall i :: 0 <= i < |ids| ==> SourceOf(t, f, ids[i])
  {
    if f !in t.segments then [] else
      var segments := t.segments[f];
      var ids := seq(|segments|, i requires 0 <= i < |segments| => segments[i].source);
      assert forall i :: 0 <= i < |segments| ==> ids[i] == segments[i].source && ids[i] in ids;
      ids
  }

  /** The live rows of the files in `fs` become pending, due now. */
  function Pend(states: map<PartKey, DeleteRow>, fs: set<FileId>, now: int): (r: map<PartKey, DeleteRow>)
    ensures r.Keys == states.Keys
  {
    map k | k in states ::
      if k.file in fs && states[k].state.Live?
      then states[k].(state := Pending, nextAttemptAt := now, leaseUntil := 0)
      else states[k]
  }

  lemma PendTwice(states: map<PartKey, DeleteRow>, a: set<FileId>, b: set<FileId>, now: int)
    ensures Pend(Pend(states, a, now), b, now) == Pend(states, a + b, now)
  {
    var l, r := Pend(Pend(states, a, now), b, now), Pend(states, a + b, now);
    assert l.Keys == r.Keys;
    forall k | k in states ensures l[k] == r[k] {
    }
  }

  lemma PendNothing(states: map<PartKey, DeleteRow>, now: int)
    ensures Pend(states, {}, now) == states
  {
  }

  function MarkTree(t: Tables, f: FileId, now: int): (r: Result<Tables>)
    requires SourcesPhysical(t)
    ensures r.Ok? ==> SameButStates(t, r.value) && r.value.states.Keys == t.states.Keys
    decreases if IsComposite(t, f) then 1 else 0, 0
  {
    if HasLiveReference(t, f) then Ok(t)
    else if f !in t.files then Err
    else if t.files[f].layout.Physical? then Ok(t.(states := Pend(t.states, {f}, now)))
    else MarkEach(t, Sources(t, f), now)
  }

  function MarkEach(t: Tables, ids: seq<FileId>, now: int): (r: Result<Tables>)
    requires SourcesPhysical(t)
    ensures r.Ok? ==> SameButStates(t, r.value) && r.value.states.Keys == t.states.Keys
    decreases if exists i :: 0 <= i < |ids| && IsComposite(t, ids[i]) then 1 else 0, 1 + |ids|
  {
    if ids == [] then Ok(t)
    else
      var head := MarkTree(t, ids[0], now);
      if head.Err? then Err
      else
        assert forall i :: 0 <= i < |ids[1..]| ==> ids[1..][i] == ids[1 + i];
        MarkEach(head.value, ids[1..], now)
  }

  // ---------------------------------------------------------------------------
  // What marking does
  // ---------------------------------------------------------------------------

  lemma SameReferences(t: Tables, u: Tables)
    requires SameButStates(t, u)
    ensures forall f :: HasLiveReference(u, f) == HasLiveReference(t, f)
  {
    forall f ensures HasLiveReference(u, f) == HasLiveReference(t, f) {
      assert Pinned(u, f) == Pinned(t, f);
      assert forall g :: Mapped(u, g) == Mapped(t, g);
      assert forall c :: SourceOf(u, c, f) == SourceOf(t, c, f);
      assert InMappedComposite(u, f) == InMappedComposite(t, f);
      assert forall k :: IsActivePart(u, k) == IsActivePart(t, k);
    }
  }

  /** The physical files that marking `f` condemns: `f` itself, or the sources of an
      unreferenced composite, as far as nothing refers to them. */
  ghost predicate Condemned(t: Tables, f: FileId, g: FileId) {
    && !HasLiveReference(t, f) && !HasLiveReference(t, g)
    && f in t.files
    && (if t.files[f].layout.Physical? then g == f else SourceOf(t, f, g))
  }

  ghost function CondemnedBy(t: Tables, f: FileId): set<FileId> {
    set g | g in t.files && Condemned(t, f, g)
  }

  ghost function CondemnedByAny(t: Tables, ids: seq<FileId>): (fs: set<FileId>)
    ensures forall g :: g in fs <==> g in t.files && exists i :: 0 <= i < |ids| && Condemned(t, ids[i], g)
  {
    set g, i | g in t.files && 0 <= i < |ids| && Condemned(t, ids[i], g) :: g
  }

  lemma CondemnedSame(t: Tables, u: Tables, ids: seq<FileId>)
    requires SameButStates(t, u)
    ensures CondemnedByAny(u, ids) == CondemnedByAny(t, ids)
  {
    SameReferences(t, u);
    assert forall f, g :: SourceOf(u, f, g) == SourceOf(t, f, g);
    assert forall f, g :: Condemned(u, f, g) == Condemned(t, f, g);
  }

  lemma CondemnedBySources(t: Tables, f: FileId)
    requires SourcesPhysical(t) && IsComposite(t, f) && !HasLiveReference(t, f)
    ensures CondemnedByAny(t, Sources(t, f)) == CondemnedBy(t, f)
  {
    var ids := Sources(t, f);
    forall g | g in CondemnedBy(t, f) ensures g in CondemnedByAny(t, ids) {
      var i :| 0 <= i < |ids| && ids[i] == g;
      assert Condemned(t, ids[i], g);
    }
  }

  lemma CondemnedByHeadAndTail(t: Tables, ids: seq<FileId>)
    requires ids != []
    ensures CondemnedByAny(t, ids) == CondemnedBy(t, ids[0]) + CondemnedByAny(t, ids[1..])
  {
    forall g | g in t.files
      ensures g in CondemnedByAny(t, ids) <==> g in CondemnedBy(t, ids[0]) || g in CondemnedByAny(t, ids[1..])
    {
      if g in CondemnedByAny(t, ids) && g !in CondemnedBy(t, ids[0]) {
        var i :| 0 <= i < |ids| && Condemned(t, ids[i], g);
        assert ids[1..][i - 1] == ids[i];
      }
    }
  }

  lemma {:induction false} MarkTreePends(t: Tables, f: FileId, now: int)
    requires SourcesPhysical(t)
    ensures var r := MarkTree(t, f, now);
      r.Ok? ==> r.value == t.(states := Pend(t.states, CondemnedBy(t, f), now))
    decreases if IsComposite(t, f) then 1 else 0, 0
  {
    if HasLiveReference(t, f) {
      assert CondemnedBy(t, f) == {};
      PendNothing(t.states, now);
    } else if f in t.files {
      if t.files[f].layout.Physical? {
        assert CondemnedBy(t, f) == {f};
      } else {
        MarkEachPends(t, Sources(t, f), now);
        CondemnedBySources(t, f);
      }
    }
  }

  lemma {:induction false} MarkEachPends(t: Tables, ids: seq<FileId>, now: int)
    requires SourcesPhysical(t)
    ensures var r := MarkEach(t, ids, now);
      r.Ok? ==> r.value == t.(states := Pend(t.states, CondemnedByAny(t, ids), now))
    decreases if exists i :: 0 <= i < |ids| && IsComposite(t, ids[i]) then 1 else 0, 1 + |ids|
  {
    if ids == [] {
      assert CondemnedByAny(t, ids) == {};
      PendNothing(t.states, now);
    } else if MarkTree(t, ids[0], now).Ok? {
      var u := MarkTree(t, ids[0], now).value;
      MarkTreePends(t, ids[0], now);
      assert forall i :: 0 <= i < |ids[1..]| ==> ids[1..][i] == ids[1 + i];
      MarkEachPends(u, ids[1..], now);
      CondemnedSame(t, u, ids[1..]);
      CondemnedByHeadAndTail(t, ids);
      PendTwice(t.states, CondemnedBy(t, ids[0]), CondemnedByAny(t, ids[1..]), now);
    }
  }

  /** Marking one file makes pending, due now, exactly the live rows of what it condemns. */
  lemma MarkTreeExact(t: Tables, f: FileId, now: int)
    requires SourcesPhysical(t)
    ensures MarkTree(t, f, now).Ok? <==> HasLiveReference(t, f) || f in t.files
    ensures MarkTree(t, f, now).Ok? ==> forall k :: k in t.states ==>
      MarkTree(t, f, now).value.states[k] ==
        if t.states[k].state.Live? && k.file in CondemnedBy(t, f)
        then DeleteRow(t.states[k].backend, t.states[k].uploadedAt, Pending, t.states[k].attempts, now, 0)
        else t.states[k]
  {
    MarkTreePends(t, f, now);
    MarkTreeSucceeds(t, f, now);
  }

  lemma {:induction false} MarkEachSucceeds(t: Tables, ids: seq<FileId>, now: int)
    requires SourcesPhysical(t)
    ensures MarkEach(t, ids, now).Ok?
       <==> forall i :: 0 <= i < |ids| ==> HasLiveReference(t, ids[i]) || ids[i] in t.files
    decreases if exists i :: 0 <= i < |ids| && IsComposite(t, ids[i]) then 1 else 0, 1 + |ids|
  {
    if ids != [] {
      MarkTreeSucceeds(t, ids[0], now);
      if MarkTree(t, ids[0], now).Ok? {
        var u, rest := MarkTree(t, ids[0], now).value, ids[1..];
        assert forall i :: 0 <= i < |rest| ==> rest[i] == ids[1 + i];
        assert forall i :: 0 < i < |ids| ==> ids[i] == rest[i - 1];
        SameReferences(t, u);
        MarkEachSucceeds(u, rest, now);
      }
    }
  }

  lemma {:induction false} MarkTreeSucceeds(t: Tables, f: FileId, now: int)
    requires SourcesPhysical(t)
    ensures MarkTree(t, f, now).Ok? <==> HasLiveReference(t, f) || f in t.files
    decreases if IsComposite(t, f) then 1 else 0, 0
  {
    if !HasLiveReference(t, f) && IsComposite(t, f) { MarkEachSucceeds(t, Sources(t, f), now); }
  }

  /** Marking a list of files makes pending, due now, exactly the live rows of what any of them condemns. */
  lemma MarkEachExact(t: Tables, ids: seq<FileId>, now: int)
    requires SourcesPhysical(t)
    ensures MarkEach(t, ids, now).Ok?
       <==> forall i :: 0 <= i < |ids| ==> HasLiveReference(t, ids[i]) || ids[i] in t.files
    ensures MarkEach(t, ids, now).Ok? ==> forall k :: k in t.states ==>
      MarkEach(t, ids, now).value.states[k] ==
        if t.states[k].state.Live? && k.file in CondemnedByAny(t, ids)
        then DeleteRow(t.states[k].backend, t.states[k].uploadedAt, Pending, t.states[k].attempts, now, 0)
        else t.states[k]
  {
    MarkEachPends(t, ids, now);
    MarkEachSucceeds(t, ids, now);
  }
}
