/** Every multipart upload transaction keeps the invariant and leaks nothing. */
module BlockUploadProofs {
  import opened BlockTables
  import opened BlockSteps
  import opened BlockInvariant
  import BlockMappingProofs

  /** References depend on an upload part only through its being active. */
  lemma SameActiveSameReferences(a: Tables, b: Tables)
    requires a.pins == b.pins && a.mappings == b.mappings && a.segments == b.segments
    requires forall k :: IsActivePart(a, k) == IsActivePart(b, k)
    requires forall k :: IsActivePart(a, k) && IsActivePart(b, k) ==> a.uploadParts[k].file == b.uploadParts[k].file
    ensures forall f :: HasLiveReference(a, f) == HasLiveReference(b, f)
    ensures forall c, g :: SourceOf(a, c, g) == SourceOf(b, c, g)
  {
    assert forall c, g :: SourceOf(a, c, g) == SourceOf(b, c, g);
    forall f ensures HasLiveReference(a, f) == HasLiveReference(b, f) {
      assert Pinned(a, f) == Pinned(b, f);
      assert forall g :: Mapped(a, g) == Mapped(b, g);
      assert InMappedComposite(a, f) == InMappedComposite(b, f);
      if InActiveUpload(a, f) {
        var k :| k in a.uploadParts && IsActivePart(a, k) && a.uploadParts[k].file == f;
        assert IsActivePart(b, k);
      }
      if InActiveUpload(b, f) {
        var k :| k in b.uploadParts && IsActivePart(b, k) && b.uploadParts[k].file == f;
        assert IsActivePart(a, k);
      }
    }
  }

  /** Only the upload tables changed; parts become active only with live files, and files that
      are no longer part of an active upload are listed. */
  ghost predicate UploadChange(t: Tables, r: Tables, ids: seq<FileId>) {
    && r == t.(uploads := r.uploads, uploadParts := r.uploadParts)
    && UploadsSound(r)
    && (forall k :: IsActivePart(r, k) ==>
         (IsActivePart(t, k) && t.uploadParts[k].file == r.uploadParts[k].file) || AllLive(t, r.uploadParts[k].file))
    && (forall k :: IsActivePart(t, k) ==> InActiveUpload(r, t.uploadParts[k].file) || t.uploadParts[k].file in ids)
  }

  lemma UploadTransaction(t: Tables, r: Tables, ids: seq<FileId>, now: int)
    requires Inv(t) && UploadChange(t, r, ids) && SourcesPhysical(r) && MarkEach(r, ids, now).Ok?
    ensures GoodStep(t, MarkEach(r, ids, now).value)
  {
    assert forall c, g :: SourceOf(r, c, g) == SourceOf(t, c, g);
    assert forall g :: Mapped(r, g) == Mapped(t, g);
    assert forall g :: InMappedComposite(r, g) == InMappedComposite(t, g);
    assert forall g :: Pinned(r, g) == Pinned(t, g);
    assert Sound(r);
    forall f | HasLiveReference(r, f) && !HasLiveReference(t, f) ensures AllLive(r, f) {
      var k :| k in r.uploadParts && IsActivePart(r, k) && r.uploadParts[k].file == f;
      assert AllLive(t, f);
    }
    forall g | IsFile(r, g) && HasLiveReference(t, g) && !HasLiveReference(r, g) ensures InTrees(r, ids, g) {
      var k :| k in t.uploadParts && IsActivePart(t, k) && t.uploadParts[k].file == g;
      assert g in ids;
    }
    Settle(t, r, ids, now);
  }

  lemma CreateUploadKeeps(t: Tables, u: UploadId, expiresAt: int)
    requires Inv(t) && CreateUpload(t, u, expiresAt).Ok?
    ensures GoodStep(t, CreateUpload(t, u, expiresAt).value)
  {
    var r := CreateUpload(t, u, expiresAt).value;
    assert forall k :: IsActivePart(r, k) == IsActivePart(t, k);
    SameActiveSameReferences(t, r);
    assert Sound(r);
  }

  lemma StagingLiveIsLive(t: Tables, f: FileId)
    requires Sound(t) && f in t.files && StagingLive(t, f)
    ensures AllLive(t, f)
  {
  }

  /** The active parts of an upload are all listed. */
  lemma ActivePartListed(t: Tables, k: UploadPartKey)
    requires UploadsSound(t) && k in t.uploadParts && t.uploadParts[k].state.PartActive?
    ensures t.uploadParts[k].file in ActivePartFiles(t, k.upload, MaxUploadParts)
  {
    var max := MaxUploadParts;
    assert UploadPartKey(k.upload, k.number) == k;
    assert IsActivePartFile(t, UploadPartKey(k.upload, k.number), t.uploadParts[k].file);
    assert t.uploadParts[k].file in ActivePartFiles(t, k.upload, max);
  }

  /** The tables of an abort before its files are marked. */
  ghost function AbortedTables(t: Tables, u: UploadId, now: int): Tables
    requires u in t.uploads
  {
    t.(uploads := t.uploads[u := t.uploads[u].(state := Aborted, cleanupAt := now + ControlRetention)],
       uploadParts := DiscardParts(t, u))
  }

  lemma AbortIsChange(t: Tables, u: UploadId, now: int)
    requires Inv(t) && u in t.uploads && t.uploads[u].state.Active?
    ensures UploadChange(t, AbortedTables(t, u, now), ActivePartFiles(t, u, MaxUploadParts))
  {
    var r, ids := AbortedTables(t, u, now), ActivePartFiles(t, u, MaxUploadParts);
    forall k | IsActivePart(r, k) ensures IsActivePart(t, k) && t.uploadParts[k].file == r.uploadParts[k].file {
      AbortActivatesNothing(t, u, now, k);
    }
    forall k | IsActivePart(t, k) ensures InActiveUpload(r, t.uploadParts[k].file) || t.uploadParts[k].file in ids {
      AbortedPart(t, u, now, k);
    }
    AbortKeepsUploadsSound(t, u, now);
  }

  lemma AbortKeepsUploadsSound(t: Tables, u: UploadId, now: int)
    requires UploadsSound(t) && u in t.uploads
    ensures UploadsSound(AbortedTables(t, u, now))
  {
  }

  lemma AbortActivatesNothing(t: Tables, u: UploadId, now: int, k: UploadPartKey)
    requires u in t.uploads && IsActivePart(AbortedTables(t, u, now), k)
    ensures IsActivePart(t, k) && t.uploadParts[k].file == AbortedTables(t, u, now).uploadParts[k].file
  {
  }

  lemma AbortedPart(t: Tables, u: UploadId, now: int, k: UploadPartKey)
    requires Inv(t) && u in t.uploads && IsActivePart(t, k)
    ensures InActiveUpload(AbortedTables(t, u, now), t.uploadParts[k].file)
      || t.uploadParts[k].file in ActivePartFiles(t, u, MaxUploadParts)
  {
    if k.upload == u {
      ActivePartListed(t, k);
    } else {
      assert IsActivePart(AbortedTables(t, u, now), k);
    }
  }

  lemma AbortUploadKeeps(t: Tables, u: UploadId, now: int)
    requires Inv(t) && AbortUpload(t, u, now).Ok?
    ensures GoodStep(t, AbortUpload(t, u, now).value)
  {
    AbortIsChange(t, u, now);
    UploadTransaction(t, AbortedTables(t, u, now), ActivePartFiles(t, u, MaxUploadParts), now);
  }

  lemma PutIsChange(t: Tables, k: UploadPartKey, part: UploadPart, ids: seq<FileId>)
    requires Inv(t) && k.upload in t.uploads && t.uploads[k.upload].state.Active? && 1 <= k.number <= MaxUploadParts
    requires part.state.PartActive? && Stageable(t, part.file, part.size)
    requires forall o :: o in t.uploadParts && o != k ==> t.uploadParts[o].file != part.file
    requires k in t.uploadParts ==> t.uploadParts[k].file == part.file || t.uploadParts[k].file in ids
    ensures UploadChange(t, t.(uploadParts := t.uploadParts[k := part]), ids)
  {
    var r := t.(uploadParts := t.uploadParts[k := part]);
    StagingLiveIsLive(t, part.file);
    assert IsActivePart(r, k);
    forall o | IsActivePart(t, o) && o != k ensures InActiveUpload(r, t.uploadParts[o].file) {
      assert IsActivePart(r, o);
    }
  }

  lemma PutPartKeeps(t: Tables, k: UploadPartKey, f: FileId, size: nat, tag: string, now: int)
    requires Inv(t) && PutPart(t, k, f, size, tag, now).Ok?
    ensures GoodStep(t, PutPart(t, k, f, size, tag, now).value)
  {
    if t.uploads[k.upload].expiresAt <= now {
      AbortUploadKeeps(t, k.upload, now);
    } else {
      var part := UploadPart(PartActive, f, size, tag);
      var r := t.(uploadParts := t.uploadParts[k := part]);
      if k in t.uploadParts && t.uploadParts[k].file != f {
        var before := t.uploadParts[k].file;
        PutIsChange(t, k, part, [before]);
        MarkTreeIsMarkEach(r, before, now);
        UploadTransaction(t, r, [before], now);
      } else {
        PutIsChange(t, k, part, []);
        assert MarkEach(r, [], now) == Ok(r);
        UploadTransaction(t, r, [], now);
      }
    }
  }

  lemma PurgeUploadKeeps(t: Tables, u: UploadId, now: int)
    requires Inv(t) && PurgeUpload(t, u, now).Ok?
    ensures GoodStep(t, PurgeUpload(t, u, now).value)
  {
    var r := PurgeUpload(t, u, now).value;
    assert forall k :: IsActivePart(r, k) == IsActivePart(t, k);
    SameActiveSameReferences(t, r);
    assert Sound(r);
  }

  // ---------------------------------------------------------------------------
  // Completion
  // ---------------------------------------------------------------------------

  /** The tables at the first round of marking, as they would be without it. */
  ghost function AtPublish(t: Tables, u: UploadId, request: seq<CompletedPart>, f: FileId,
                           current: Option<EntryId>, e: EntryId): (m: Tables)
    requires u in t.uploads && CompletionPartsOk(t, u, request)
  {
    var w := WithComposite(t, u, request, f);
    w.(mappings := (if current.Some? then WithoutEntries(t.mappings, [current.value]) else t.mappings)[e := f])
  }

  ghost function CompletedRow(upload: Upload, request: seq<CompletedPart>, f: FileId, now: int): Upload {
    upload.(state := Completed, cleanupAt := now + ControlRetention,
            fingerprint := request, resultFile := f, resultTag := Tags(request))
  }

  /** The tables a completion leaves, as they would be without any marking. */
  ghost function CompletedTables(t: Tables, u: UploadId, request: seq<CompletedPart>, f: FileId,
                                 current: Option<EntryId>, e: EntryId, now: int): (r: Tables)
    requires u in t.uploads && CompletionPartsOk(t, u, request)
  {
    AtPublish(t, u, request, f, current, e).(
      uploads := t.uploads[u := CompletedRow(t.uploads[u], request, f, now)],
      uploadParts := SelectParts(DiscardParts(t, u), u, request))
  }

  ghost function FirstMarks(t: Tables, current: Option<EntryId>): seq<FileId> {
    if current.Some? && current.value in t.mappings then [t.mappings[current.value]] else []
  }

  ghost function SecondMarks(t: Tables, u: UploadId, segments: seq<Segment>): seq<FileId> {
    Unselected(ActivePartFiles(t, u, MaxUploadParts), segments)
  }

  lemma {:induction false} ActivePartFilesSame(a: Tables, b: Tables, u: UploadId, n: nat)
    requires a.uploadParts == b.uploadParts
    ensures ActivePartFiles(a, u, n) == ActivePartFiles(b, u, n)
  {
    if n > 0 { ActivePartFilesSame(a, b, u, n - 1); }
  }

  /** The two rounds of marking amount to one, judged by the final references: `m` carries the
      references at the first round, `q` those at the second. */
  lemma TwoRounds(m: Tables, q: Tables, r: Tables, u: UploadId, first: seq<FileId>, second: seq<FileId>, now: int)
    requires EndedAlike(m, r, u) && EndedAlike(q, r, u)
    ensures Pend(Pend(m.states, CondemnedByAny(m, first), now), CondemnedByAny(q, second), now)
         == Pend(m.states, CondemnedByAny(r, first + second), now)
  {
    SameCondemned(m, r, u, first);
    SameCondemned(q, r, u, second);
    CondemnedByTwo(r, first, second);
    PendTwice(m.states, CondemnedByAny(r, first), CondemnedByAny(r, second), now);
  }

  /** Equal in everything references and layouts depend on, upload `u` having ended in both. */
  ghost predicate EndedAlike(a: Tables, r: Tables, u: UploadId) {
    && a.pins == r.pins && a.mappings == r.mappings && a.segments == r.segments && a.files == r.files
    && u in a.uploads && !a.uploads[u].state.Active? && u in r.uploads && !r.uploads[u].state.Active?
    && a.uploads == r.uploads[u := a.uploads[u]]
    && a.uploadParts.Keys == r.uploadParts.Keys
    && (forall k :: k in a.uploadParts && k.upload != u ==> a.uploadParts[k] == r.uploadParts[k])
  }

  /** `p` is what publishing leaves and `d` what finalizing the parts leaves. */
  ghost predicate Rounds(m: Tables, p: Tables, q: Tables, d: Tables, first: seq<FileId>, second: seq<FileId>, now: int)
  {
    && p == m.(states := Pend(m.states, CondemnedByAny(m, first), now))
    && q == p.(uploadParts := q.uploadParts)
    && d == q.(states := Pend(q.states, CondemnedByAny(q, second), now))
    && (forall i :: 0 <= i < |first| ==> HasLiveReference(m, first[i]) || first[i] in m.files)
    && (forall i :: 0 <= i < |second| ==> HasLiveReference(q, second[i]) || second[i] in q.files)
  }

  lemma RoundsCombine(m: Tables, p: Tables, q: Tables, d: Tables, r: Tables, u: UploadId,
                      first: seq<FileId>, second: seq<FileId>, now: int)
    requires Rounds(m, p, q, d, first, second, now) && EndedAlike(m, r, u) && EndedAlike(q, r, u)
    ensures d.states == Pend(m.states, CondemnedByAny(r, first + second), now)
    ensures var ids := first + second;
      forall i :: 0 <= i < |ids| ==> HasLiveReference(r, ids[i]) || ids[i] in r.files
  {
    TwoRounds(m, q, r, u, first, second, now);
    MarksAreFiles(m, q, r, u, first, second);
  }

  lemma CompletionRounds(t: Tables, u: UploadId, request: seq<CompletedPart>, f: FileId, current: Option<EntryId>,
                         e: EntryId, now: int, p: Tables, d: Tables)
    requires Inv(t) && u in t.uploads && CompletionPartsOk(t, u, request) && f !in t.files
    requires SourcesPhysical(WithComposite(t, u, request, f))
    requires PublishObject(WithComposite(t, u, request, f), current, e, f, now) == Ok(p)
    requires SourcesPhysical(p) && u in p.uploads
    requires FinalizeParts(p, u, request, CompletionSegments(t, u, request), now) == Ok(d)
    ensures Rounds(AtPublish(t, u, request, f, current, e), p,
                   p.(uploadParts := SelectParts(DiscardParts(t, u), u, request)), d,
                   FirstMarks(t, current), SecondMarks(t, u, CompletionSegments(t, u, request)), now)
  {
    var segments := CompletionSegments(t, u, request);
    var w := WithComposite(t, u, request, f);
    PublishShape(w, AtPublish(t, u, request, f, current, e), current, e, f, now);
    ActivePartFilesSame(p, t, u, MaxUploadParts);
    DiscardPartsSame(p, t, u);
    FinalizeShape(p, p.(uploadParts := SelectParts(DiscardParts(t, u), u, request)), u, request, segments,
                  SecondMarks(t, u, segments), now);
  }

  lemma DiscardPartsSame(p: Tables, t: Tables, u: UploadId)
    requires p.uploadParts == t.uploadParts
    ensures DiscardParts(p, u) == DiscardParts(t, u)
  {
  }

  lemma CompletedEndedAlike(t: Tables, u: UploadId, request: seq<CompletedPart>, f: FileId, current: Option<EntryId>,
                            e: EntryId, now: int, p: Tables)
    requires u in t.uploads && CompletionPartsOk(t, u, request)
    requires SameButStates(AtPublish(t, u, request, f, current, e), p)
    ensures var r := CompletedTables(t, u, request, f, current, e, now);
      && EndedAlike(AtPublish(t, u, request, f, current, e), r, u)
      && EndedAlike(p.(uploadParts := SelectParts(DiscardParts(t, u), u, request)), r, u)
  {
  }

  lemma FinalizeShape(p: Tables, q: Tables, u: UploadId, request: seq<CompletedPart>, segments: seq<Segment>,
                      second: seq<FileId>, now: int)
    requires SourcesPhysical(p) && u in p.uploads && FinalizeParts(p, u, request, segments, now).Ok?
    requires q == p.(uploadParts := SelectParts(DiscardParts(p, u), u, request))
    requires second == Unselected(ActivePartFiles(p, u, MaxUploadParts), segments)
    ensures FinalizeParts(p, u, request, segments, now).value
         == q.(states := Pend(q.states, CondemnedByAny(q, second), now))
    ensures forall i :: 0 <= i < |second| ==> HasLiveReference(q, second[i]) || second[i] in q.files
  {
    MarkEachPends(q, second, now);
    MarkEachSucceeds(q, second, now);
  }

  lemma MarksAreFiles(m: Tables, q: Tables, r: Tables, u: UploadId, first: seq<FileId>, second: seq<FileId>)
    requires EndedAlike(m, r, u) && EndedAlike(q, r, u)
    requires forall i :: 0 <= i < |first| ==> HasLiveReference(m, first[i]) || first[i] in m.files
    requires forall i :: 0 <= i < |second| ==> HasLiveReference(q, second[i]) || second[i] in q.files
    ensures var ids := first + second;
      forall i :: 0 <= i < |ids| ==> HasLiveReference(r, ids[i]) || ids[i] in r.files
  {
    SameCondemned(m, r, u, first);
    SameCondemned(q, r, u, second);
  }

  lemma PublishShape(w: Tables, m: Tables, current: Option<EntryId>, e: EntryId, f: FileId, now: int)
    requires SourcesPhysical(w) && PublishObject(w, current, e, f, now).Ok?
    requires (current.Some? ==> w.mappings[current.value] != f)
    requires m == w.(mappings := (if current.Some? then WithoutEntries(w.mappings, [current.value])
                                  else w.mappings)[e := f])
    ensures var first := if current.Some? then [w.mappings[current.value]] else [];
      && PublishObject(w, current, e, f, now).value == m.(states := Pend(m.states, CondemnedByAny(m, first), now))
      && forall i :: 0 <= i < |first| ==> HasLiveReference(m, first[i]) || first[i] in m.files
  {
    if current.Some? {
      var c := w.mappings[current.value];
      MarkTreeIsMarkEach(m, c, now);
      MarkEachPends(m, [c], now);
      MarkEachSucceeds(m, [c], now);
    } else {
      assert CondemnedByAny(m, []) == {};
      PendNothing(m.states, now);
    }
  }

  /** Once the upload is no longer active its parts refer to nothing, whatever their state. */
  lemma SameCondemned(a: Tables, r: Tables, u: UploadId, ids: seq<FileId>)
    requires EndedAlike(a, r, u)
    ensures CondemnedByAny(a, ids) == CondemnedByAny(r, ids)
    ensures forall f :: HasLiveReference(a, f) == HasLiveReference(r, f)
  {
    SameActiveSameReferences(a, r);
    assert forall x, g :: Condemned(a, x, g) == Condemned(r, x, g);
  }

  lemma CondemnedByTwo(r: Tables, a: seq<FileId>, b: seq<FileId>)
    ensures CondemnedByAny(r, a + b) == CondemnedByAny(r, a) + CondemnedByAny(r, b)
  {
    forall g | g in CondemnedByAny(r, a) + CondemnedByAny(r, b) ensures g in CondemnedByAny(r, a + b) {
      if g in CondemnedByAny(r, a) {
        var i :| 0 <= i < |a| && Condemned(r, a[i], g);
        assert (a + b)[i] == a[i];
      } else {
        var i :| 0 <= i < |b| && Condemned(r, b[i], g);
        assert (a + b)[|a| + i] == b[i];
      }
    }
  }

  lemma CompletedSourcesReady(t: Tables, u: UploadId, request: seq<CompletedPart>, i: nat)
    requires CompletionPartsOk(t, u, request) && i < |request|
    ensures IsReadyPhysical(t, CompletionSegments(t, u, request)[i].source)
  {
    assert CompletionPartOk(t, u, request[i], i == |request| - 1);
  }

  lemma CompletedSegmentsSound(t: Tables, r: Tables, f: FileId)
    requires Sound(t) && f !in t.files && f in r.segments && r.segments == t.segments[f := r.segments[f]]
    requires f in r.files && r.files == t.files[f := r.files[f]]
    requires r.files[f].layout.Composite? && r.files[f].ready
    requires forall i :: 0 <= i < |r.segments[f]| ==> IsReadyPhysical(t, r.segments[f][i].source)
    ensures SegmentsSound(r)
  {
    forall c, i | c in r.segments && 0 <= i < |r.segments[c]|
      ensures IsReadyPhysical(r, r.segments[c][i].source)
    {
      if c != f {
        assert r.segments[c] == t.segments[c];
        assert IsReadyPhysical(t, t.segments[c][i].source);
      }
    }
  }

  lemma CompletedPinsSound(t: Tables, r: Tables, f: FileId)
    requires Sound(t) && f !in t.files && f in r.segments && r.segments == t.segments[f := r.segments[f]]
    requires f in r.files && r.files == t.files[f := r.files[f]]
    requires r.pins == t.pins
    ensures PinsSound(r)
  {
    forall p, g | p in r.pins && SourceOf(r, p.file, g) ensures Pin(p.job, g) in r.pins {
      assert SourceOf(t, p.file, g);
    }
  }

  lemma CompletedRestSound(t: Tables, r: Tables, f: FileId)
    requires Sound(t) && f !in t.files && f in r.files && r.files == t.files[f := r.files[f]]
    requires r.files[f].layout.Composite? && r.files[f].ready && r.parts == t.parts && r.states == t.states
    requires forall d :: d in r.mappings ==> r.mappings[d] == f || (d in t.mappings && t.mappings[d] == r.mappings[d])
    requires forall k :: k in r.uploadParts ==> k in t.uploadParts && r.uploadParts[k].file == t.uploadParts[k].file
    requires forall k :: k in r.uploadParts && r.uploadParts[k].state.PartActive? ==> t.uploadParts[k].state.PartActive?
    ensures PartsSound(r) && ReadyComplete(r) && MappedReady(r) && UploadsSound(r)
  {
  }

  lemma CompletedSound(t: Tables, u: UploadId, request: seq<CompletedPart>, f: FileId,
                       current: Option<EntryId>, e: EntryId, now: int)
    requires Inv(t) && u in t.uploads && CompletionPartsOk(t, u, request) && f !in t.files
    ensures Sound(CompletedTables(t, u, request, f, current, e, now))
  {
    var r := CompletedTables(t, u, request, f, current, e, now);
    forall i | 0 <= i < |r.segments[f]| ensures IsReadyPhysical(t, r.segments[f][i].source) {
      CompletedSourcesReady(t, u, request, i);
    }
    CompletedSegmentsSound(t, r, f);
    CompletedPinsSound(t, r, f);
    CompletedRestSound(t, r, f);
  }

  /** What a completion does to the reference tables: composite `f` over live sources is mapped
      at `e`, the entry `current` goes, and upload `u` stops counting. */
  ghost predicate CompletionChange(t: Tables, r: Tables, u: UploadId, f: FileId, current: Option<EntryId>, e: EntryId) {
    && f !in t.files && f in r.segments && r.segments == t.segments[f := r.segments[f]]
    && r.states == t.states && r.pins == t.pins
    && e in r.mappings && r.mappings[e] == f
    && (forall d :: d in r.mappings && d != e ==> d in t.mappings && t.mappings[d] == r.mappings[d])
    && (forall d :: d in t.mappings && current != Some(d) ==> d in r.mappings && r.mappings[d] == t.mappings[d])
    && (forall k :: IsActivePart(r, k) <==> IsActivePart(t, k) && k.upload != u)
    && (forall k :: IsActivePart(r, k) && IsActivePart(t, k) ==> r.uploadParts[k].file == t.uploadParts[k].file)
    && (forall i :: 0 <= i < |r.segments[f]| ==> AllLive(t, r.segments[f][i].source))
  }

  lemma CompletedSourcesLive(t: Tables, u: UploadId, request: seq<CompletedPart>, i: nat)
    requires Inv(t) && CompletionPartsOk(t, u, request) && i < |request|
    ensures AllLive(t, CompletionSegments(t, u, request)[i].source)
  {
    assert CompletionPartOk(t, u, request[i], i == |request| - 1);
    StagingLiveIsLive(t, CompletionSegments(t, u, request)[i].source);
  }

  lemma CompletedIsChange(t: Tables, u: UploadId, request: seq<CompletedPart>, f: FileId,
                          current: Option<EntryId>, e: EntryId, now: int)
    requires Inv(t) && u in t.uploads && t.uploads[u].state.Active? && CompletionPartsOk(t, u, request)
    requires f !in t.files && e !in t.mappings
    ensures CompletionChange(t, CompletedTables(t, u, request, f, current, e, now), u, f, current, e)
  {
    var r := CompletedTables(t, u, request, f, current, e, now);
    forall i | 0 <= i < |r.segments[f]| ensures AllLive(t, r.segments[f][i].source) {
      CompletedSourcesLive(t, u, request, i);
    }
    CompletedActive(t, u, request, f, current, e, now);
  }

  lemma CompletedActive(t: Tables, u: UploadId, request: seq<CompletedPart>, f: FileId,
                        current: Option<EntryId>, e: EntryId, now: int)
    requires u in t.uploads && t.uploads[u].state.Active? && CompletionPartsOk(t, u, request)
    ensures var r := CompletedTables(t, u, request, f, current, e, now);
      && (forall k :: IsActivePart(r, k) <==> IsActivePart(t, k) && k.upload != u)
      && (forall k :: IsActivePart(r, k) && IsActivePart(t, k) ==> r.uploadParts[k].file == t.uploadParts[k].file)
  {
  }

  /** A completion gives references to the composite and its sources only. */
  lemma CompletionGives(t: Tables, r: Tables, u: UploadId, f: FileId, current: Option<EntryId>, e: EntryId, g: FileId)
    requires Inv(t) && CompletionChange(t, r, u, f, current, e) && HasLiveReference(r, g)
    ensures HasLiveReference(t, g) || g == f || SourceOf(r, f, g)
  {
    if Mapped(r, g) {
      var d :| d in r.mappings && r.mappings[d] == g;
      assert d != e ==> Mapped(t, g);
    } else if InMappedComposite(r, g) {
      var c :| c in r.segments && Mapped(r, c) && SourceOf(r, c, g);
      if c != f {
        var d :| d in r.mappings && r.mappings[d] == c;
        assert SourceOf(t, c, g) && Mapped(t, c);
      }
    }
  }

  lemma CompletionGains(t: Tables, r: Tables, u: UploadId, f: FileId, current: Option<EntryId>, e: EntryId)
    requires Inv(t) && CompletionChange(t, r, u, f, current, e)
    ensures GainsLive(t, r)
  {
    forall g | HasLiveReference(r, g) && !HasLiveReference(t, g) ensures AllLive(r, g) {
      CompletionGives(t, r, u, f, current, e, g);
      if SourceOf(r, f, g) {
        var i :| 0 <= i < |r.segments[f]| && r.segments[f][i].source == g;
        assert AllLive(t, g);
      } else {
        assert forall k :: k in t.states ==> k.file != f;
      }
    }
  }

  /** A file that was part of the upload and loses its reference is not selected, so it is listed. */
  lemma LostPartListed(t: Tables, r: Tables, u: UploadId, f: FileId, current: Option<EntryId>, e: EntryId, g: FileId)
    requires Inv(t) && CompletionChange(t, r, u, f, current, e) && InActiveUpload(t, g) && !HasLiveReference(r, g)
    ensures g in SecondMarks(t, u, r.segments[f])
  {
    var k :| k in t.uploadParts && IsActivePart(t, k) && t.uploadParts[k].file == g;
    assert k.upload == u by { assert k.upload != u ==> IsActivePart(r, k); }
    ActivePartListed(t, k);
    SelectedStaysReferenced(r, f, e, g);
  }

  /** A file that was mapped, itself or in a composite, and loses its reference was at the replaced
      entry. */
  lemma LostEntryListed(t: Tables, r: Tables, u: UploadId, f: FileId, current: Option<EntryId>, e: EntryId, g: FileId)
    returns (c: FileId)
    requires Inv(t) && CompletionChange(t, r, u, f, current, e) && !HasLiveReference(r, g)
    requires Mapped(t, g) || InMappedComposite(t, g)
    ensures (c == g || SourceOf(r, c, g)) && FirstMarks(t, current) == [c]
  {
    if Mapped(t, g) {
      c := g;
    } else {
      c :| c in t.segments && Mapped(t, c) && SourceOf(t, c, g);
      assert r.segments[c] == t.segments[c];
      assert SourceOf(r, c, g);
    }
    var d :| d in t.mappings && t.mappings[d] == c;
    assert current == Some(d) by { assert current != Some(d) ==> Mapped(r, c); }
  }

  lemma CompletionLosses(t: Tables, r: Tables, u: UploadId, f: FileId, current: Option<EntryId>, e: EntryId)
    requires Inv(t) && CompletionChange(t, r, u, f, current, e)
    ensures LossesListed(t, r, FirstMarks(t, current) + SecondMarks(t, u, r.segments[f]))
  {
    var first, second := FirstMarks(t, current), SecondMarks(t, u, r.segments[f]);
    var ids := first + second;
    forall g | IsFile(r, g) && HasLiveReference(t, g) && !HasLiveReference(r, g) ensures InTrees(r, ids, g) {
      assert Pinned(r, g) == Pinned(t, g);
      if InActiveUpload(t, g) {
        LostPartListed(t, r, u, f, current, e, g);
        var i :| 0 <= i < |second| && second[i] == g;
        assert ids[|first| + i] == g;
      } else {
        var c := LostEntryListed(t, r, u, f, current, e, g);
        assert ids[0] == c;
      }
    }
  }

  lemma SelectedStaysReferenced(r: Tables, f: FileId, e: EntryId, g: FileId)
    requires e in r.mappings && r.mappings[e] == f
    ensures SourceOf(r, f, g) ==> HasLiveReference(r, g)
  {
    assert Mapped(r, f);
  }

  /** Completing an active upload: what publishing and finalizing leave is settled at once. */
  lemma CompletionSettles(t: Tables, u: UploadId, request: seq<CompletedPart>, f: FileId, current: Option<EntryId>,
                          e: EntryId, now: int, p: Tables, d: Tables)
    requires Inv(t) && u in t.uploads && t.uploads[u].state.Active? && CompletionPartsOk(t, u, request) && f !in t.files
    requires e !in t.mappings && (current.Some? ==> current.value in t.mappings)
    requires SourcesPhysical(WithComposite(t, u, request, f))
    requires PublishObject(WithComposite(t, u, request, f), current, e, f, now) == Ok(p)
    requires SourcesPhysical(p) && u in p.uploads
    requires FinalizeParts(p, u, request, CompletionSegments(t, u, request), now) == Ok(d)
    ensures GoodStep(t, CompletedTables(t, u, request, f, current, e, now).(states := d.states))
  {
    var segments := CompletionSegments(t, u, request);
    var r := CompletedTables(t, u, request, f, current, e, now);
    var first, second := FirstMarks(t, current), SecondMarks(t, u, segments);
    CompletionRounds(t, u, request, f, current, e, now, p, d);
    CompletedEndedAlike(t, u, request, f, current, e, now, p);
    RoundsCombine(AtPublish(t, u, request, f, current, e), p,
                  p.(uploadParts := SelectParts(DiscardParts(t, u), u, request)), d, r, u, first, second, now);
    CompletedSound(t, u, request, f, current, e, now);
    CompletedIsChange(t, u, request, f, current, e, now);
    CompletionGains(t, r, u, f, current, e);
    CompletionLosses(t, r, u, f, current, e);
    SettleExact(t, r, first + second, now);
  }

  /** The two intermediate tables of a successful completion. */
  lemma CompleteActiveUnfolds(t: Tables, u: UploadId, request: seq<CompletedPart>, f: FileId,
                              current: Option<EntryId>, e: EntryId, now: int) returns (p: Tables, d: Tables)
    requires SourcesPhysical(t) && u in t.uploads && CompleteActive(t, u, request, f, current, e, now).Ok?
    ensures CompletionPartsOk(t, u, request) && f !in t.files
    ensures e !in t.mappings && (current.Some? ==> current.value in t.mappings)
    ensures SourcesPhysical(WithComposite(t, u, request, f))
    ensures PublishObject(WithComposite(t, u, request, f), current, e, f, now) == Ok(p)
    ensures SourcesPhysical(p) && u in p.uploads
    ensures FinalizeParts(p, u, request, CompletionSegments(t, u, request), now) == Ok(d)
    ensures u in d.uploads && CompleteActive(t, u, request, f, current, e, now).value.tables
         == d.(uploads := d.uploads[u := CompletedRow(d.uploads[u], request, f, now)])
  {
    WithCompositeSourcesPhysical(t, u, request, f);
    p := PublishObject(WithComposite(t, u, request, f), current, e, f, now).value;
    d := FinalizeParts(p, u, request, CompletionSegments(t, u, request), now).value;
  }

  lemma FinalizedTables(t: Tables, u: UploadId, request: seq<CompletedPart>, f: FileId,
                        current: Option<EntryId>, e: EntryId, now: int, p: Tables, d: Tables)
    requires u in t.uploads && CompletionPartsOk(t, u, request)
    requires SameButStates(AtPublish(t, u, request, f, current, e), p)
    requires SameButStates(p.(uploadParts := SelectParts(DiscardParts(t, u), u, request)), d)
    ensures d.(uploads := d.uploads[u := CompletedRow(d.uploads[u], request, f, now)])
         == CompletedTables(t, u, request, f, current, e, now).(states := d.states)
  {
    assert d.uploads[u := CompletedRow(d.uploads[u], request, f, now)]
        == t.uploads[u := CompletedRow(t.uploads[u], request, f, now)];
  }

  lemma CompleteActiveKeeps(t: Tables, u: UploadId, request: seq<CompletedPart>, f: FileId,
                            current: Option<EntryId>, e: EntryId, now: int)
    requires Inv(t) && u in t.uploads && t.uploads[u].state.Active?
    requires CompleteActive(t, u, request, f, current, e, now).Ok?
    ensures GoodStep(t, CompleteActive(t, u, request, f, current, e, now).value.tables)
  {
    var p, d := CompleteActiveUnfolds(t, u, request, f, current, e, now);
    CompletionRounds(t, u, request, f, current, e, now, p, d);
    FinalizedTables(t, u, request, f, current, e, now, p, d);
    CompletionSettles(t, u, request, f, current, e, now, p, d);
  }

  lemma CompleteUploadKeeps(t: Tables, u: UploadId, request: seq<CompletedPart>, f: FileId,
                            current: Option<EntryId>, e: EntryId, now: int)
    requires Inv(t) && CompleteUpload(t, u, request, f, current, e, now).Ok?
    ensures GoodStep(t, CompleteUpload(t, u, request, f, current, e, now).value.tables)
  {
    if t.uploads[u].state.Active? {
      if t.uploads[u].expiresAt <= now {
        AbortUploadKeeps(t, u, now);
      } else {
        CompleteActiveKeeps(t, u, request, f, current, e, now);
      }
    }
  }
}
