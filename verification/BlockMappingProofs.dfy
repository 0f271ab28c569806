/** Every transaction on files and path mappings keeps the invariant and leaks nothing. */
module BlockMappingProofs {
  import opened BlockTables
  import opened BlockSteps
  import opened BlockInvariant

  // ---------------------------------------------------------------------------
  // Creating files
  // ---------------------------------------------------------------------------

  /** Tables with the same references: nothing is gained and nothing is lost. */
  ghost predicate SameReferenceTables(t: Tables, u: Tables) {
    && u.pins == t.pins && u.mappings == t.mappings && u.segments == t.segments
    && u.uploads == t.uploads && u.uploadParts == t.uploadParts
  }

  lemma SameTablesSameReferences(t: Tables, u: Tables)
    requires SameReferenceTables(t, u)
    ensures forall f :: HasLiveReference(u, f) == HasLiveReference(t, f)
    ensures forall c, g :: SourceOf(u, c, g) == SourceOf(t, c, g)
  {
    assert forall c, g :: SourceOf(u, c, g) == SourceOf(t, c, g);
    forall f ensures HasLiveReference(u, f) == HasLiveReference(t, f) {
      assert Pinned(u, f) == Pinned(t, f);
      assert forall g :: Mapped(u, g) == Mapped(t, g);
      assert InMappedComposite(u, f) == InMappedComposite(t, f);
      assert forall k :: IsActivePart(u, k) == IsActivePart(t, k);
    }
  }

  lemma CreateDraftKeeps(t: Tables, f: FileId, layout: Layout, size: nat, partCount: nat)
    requires Inv(t) && CreateDraft(t, f, layout, size, partCount).Ok?
    ensures GoodStep(t, CreateDraft(t, f, layout, size, partCount).value)
  {
    var u := CreateDraft(t, f, layout, size, partCount).value;
    SameTablesSameReferences(t, u);
    assert Sound(u);
  }

  /** Nothing refers to a physical file that still misses a part. */
  lemma IncompleteIsUnreferenced(t: Tables, k: PartKey)
    requires Inv(t) && IsFile(t, k.file) && k.index < t.files[k.file].partCount && k !in t.parts
    ensures !HasLiveReference(t, k.file)
  {
    assert k == PartKey(k.file, k.index);
    assert !t.files[k.file].ready;
  }

  /** The compensation record is pending from the start: its file is not yet in use. */
  lemma CompensatePartKeeps(t: Tables, k: PartKey, backend: string, uploadedAt: int, now: int)
    requires Inv(t) && CreatePart(t, k, CompensationRow(backend, uploadedAt, now)).Ok?
    ensures GoodStep(t, CreatePart(t, k, CompensationRow(backend, uploadedAt, now)).value)
  {
    var u := CreatePart(t, k, CompensationRow(backend, uploadedAt, now)).value;
    IncompleteIsUnreferenced(t, k);
    SameTablesSameReferences(t, u);
    assert Sound(u);
  }

  lemma CreateLivePartKeeps(t: Tables, k: PartKey, backend: string, uploadedAt: int)
    requires Inv(t) && CreatePart(t, k, LiveRow(backend, uploadedAt)).Ok?
    ensures GoodStep(t, CreatePart(t, k, LiveRow(backend, uploadedAt)).value)
  {
    var u := CreatePart(t, k, LiveRow(backend, uploadedAt)).value;
    SameTablesSameReferences(t, u);
    assert Sound(u);
  }

  lemma FinishCreateKeeps(t: Tables, f: FileId)
    requires Inv(t) && FinishCreate(t, f).Ok?
    ensures GoodStep(t, FinishCreate(t, f).value)
  {
    var u := FinishCreate(t, f).value;
    SameTablesSameReferences(t, u);
    assert Sound(u);
  }

  lemma MarkOnlyKeeps(t: Tables, ids: seq<FileId>, now: int)
    requires Inv(t) && MarkEach(t, ids, now).Ok?
    ensures GoodStep(t, MarkEach(t, ids, now).value)
  {
    Settle(t, t, ids, now);
  }

  // ---------------------------------------------------------------------------
  // Mappings
  // ---------------------------------------------------------------------------

  lemma LinkableTreeIsLive(t: Tables, c: FileId, g: FileId)
    requires Sound(t) && CanBeLinked(t, c) && (g == c || SourceOf(t, c, g))
    ensures AllLive(t, g)
  {
    if g == c && t.files[c].layout.Composite? {
      assert forall k :: k in t.parts ==> k.file != c;
    } else if g != c {
      var i :| 0 <= i < |t.segments[c]| && t.segments[c][i].source == g;
      assert SegmentLinkable(t, t.segments[c][i]);
    }
  }

  /** Only the mapping table changed; `r` maps nothing new but linkable files, and every file
      that is no longer mapped is listed. */
  ghost predicate MappingChange(t: Tables, r: Tables, ids: seq<FileId>) {
    && r == t.(mappings := r.mappings)
    && (forall e :: e in r.mappings ==>
         (e in t.mappings && t.mappings[e] == r.mappings[e]) || CanBeLinked(t, r.mappings[e]))
    && (forall e :: e in t.mappings ==> Mapped(r, t.mappings[e]) || t.mappings[e] in ids)
  }

  lemma MappingChangeSound(t: Tables, r: Tables, ids: seq<FileId>)
    requires Inv(t) && MappingChange(t, r, ids)
    ensures Sound(r)
  {
    assert forall c, g :: SourceOf(r, c, g) == SourceOf(t, c, g);
  }

  lemma MappingChangeGains(t: Tables, r: Tables, ids: seq<FileId>)
    requires Inv(t) && MappingChange(t, r, ids)
    ensures GainsLive(t, r)
  {
    forall f | HasLiveReference(r, f) && !HasLiveReference(t, f) ensures AllLive(r, f) {
      assert forall k :: IsActivePart(r, k) == IsActivePart(t, k);
      assert !InActiveUpload(r, f) && !Pinned(r, f);
      if Mapped(r, f) {
        var e :| e in r.mappings && r.mappings[e] == f;
        assert CanBeLinked(t, f);
        LinkableTreeIsLive(t, f, f);
      } else {
        var c :| c in r.segments && Mapped(r, c) && SourceOf(r, c, f);
        assert SourceOf(t, c, f);
        var e :| e in r.mappings && r.mappings[e] == c;
        assert !Mapped(t, c);
        LinkableTreeIsLive(t, c, f);
      }
    }
  }

  lemma MappingChangeLosses(t: Tables, r: Tables, ids: seq<FileId>)
    requires MappingChange(t, r, ids)
    ensures LossesListed(t, r, ids)
  {
    forall g | IsFile(r, g) && HasLiveReference(t, g) && !HasLiveReference(r, g) ensures InTrees(r, ids, g) {
      assert forall k :: IsActivePart(r, k) == IsActivePart(t, k);
      assert !InActiveUpload(t, g) && !Pinned(t, g);
      var c: FileId;
      if Mapped(t, g) {
        c := g;
      } else {
        c :| c in t.segments && Mapped(t, c) && SourceOf(t, c, g);
        assert SourceOf(r, c, g);
      }
      var e :| e in t.mappings && t.mappings[e] == c;
      assert c in ids;
    }
  }

  lemma MappingTransaction(t: Tables, r: Tables, ids: seq<FileId>, now: int)
    requires Inv(t) && MappingChange(t, r, ids) && SourcesPhysical(r) && MarkEach(r, ids, now).Ok?
    ensures GoodStep(t, MarkEach(r, ids, now).value)
  {
    MappingChangeSound(t, r, ids);
    MappingChangeGains(t, r, ids);
    MappingChangeLosses(t, r, ids);
    Settle(t, r, ids, now);
  }

  lemma MappingTransactionUnmarked(t: Tables, r: Tables)
    requires Inv(t) && MappingChange(t, r, [])
    ensures GoodStep(t, r)
  {
    var now := 0;
    assert MarkEach(r, [], now) == Ok(r);
    MappingTransaction(t, r, [], now);
  }

  lemma LinkKeeps(t: Tables, e: EntryId, f: FileId)
    requires Inv(t) && Link(t, e, f).Ok?
    ensures GoodStep(t, Link(t, e, f).value)
  {
    var r := Link(t, e, f).value;
    assert forall d :: d in t.mappings ==> d in r.mappings && r.mappings[d] == t.mappings[d];
    MappingTransactionUnmarked(t, r);
  }

  lemma LinkLockNullKeeps(t: Tables, e: EntryId, f: FileId)
    requires Inv(t) && LinkLockNull(t, e, f).Ok?
    ensures GoodStep(t, LinkLockNull(t, e, f).value)
  {
    var r := LinkLockNull(t, e, f).value;
    assert CanBeLinked(t, f);
    assert forall d :: d in t.mappings ==> d in r.mappings && r.mappings[d] == t.mappings[d];
    MappingTransactionUnmarked(t, r);
  }

  lemma RemoveEntriesKeeps(t: Tables, entries: seq<EntryId>, now: int)
    requires Inv(t) && RemoveEntries(t, entries, now).Ok?
    ensures GoodStep(t, RemoveEntries(t, entries, now).value)
  {
    var r := t.(mappings := WithoutEntries(t.mappings, entries));
    var ids := FileIdsOf(t, entries);
    forall e | e in t.mappings ensures Mapped(r, t.mappings[e]) || t.mappings[e] in ids {
      if e !in entries { assert r.mappings[e] == t.mappings[e]; }
    }
    MappingTransaction(t, r, ids, now);
  }

  lemma ReplaceEntryKeeps(t: Tables, e: EntryId, f: FileId, now: int)
    requires Inv(t) && ReplaceEntry(t, e, f, now).Ok?
    ensures GoodStep(t, ReplaceEntry(t, e, f, now).value)
  {
    var r := t.(mappings := t.mappings[e := f]);
    forall d | d in t.mappings && t.mappings[d] != t.mappings[e] ensures Mapped(r, t.mappings[d]) {
      assert r.mappings[d] == t.mappings[d];
    }
    if t.mappings[e] == f {
      assert r.mappings[e] == f;
      MappingTransactionUnmarked(t, r);
    } else {
      MarkTreeIsMarkEach(r, t.mappings[e], now);
      MappingTransaction(t, r, [t.mappings[e]], now);
    }
  }

  lemma PublishObjectKeeps(t: Tables, current: Option<EntryId>, e: EntryId, f: FileId, now: int)
    requires Inv(t) && PublishObject(t, current, e, f, now).Ok?
    ensures GoodStep(t, PublishObject(t, current, e, f, now).value)
  {
    match current
    case None =>
      var r := t.(mappings := t.mappings[e := f]);
      assert forall d :: d in t.mappings ==> d in r.mappings && r.mappings[d] == t.mappings[d];
      MappingTransactionUnmarked(t, r);
    case Some(c) =>
      var r := t.(mappings := WithoutEntries(t.mappings, [c])[e := f]);
      assert r.mappings[e] == f;
      forall d | d in t.mappings && d != c ensures Mapped(r, t.mappings[d]) {
        assert r.mappings[d] == t.mappings[d];
      }
      if t.mappings[c] == f {
        MappingTransactionUnmarked(t, r);
      } else {
        MarkTreeIsMarkEach(r, t.mappings[c], now);
        MappingTransaction(t, r, [t.mappings[c]], now);
      }
  }

  lemma CopyEntriesKeeps(t: Tables, copies: seq<EntryCopy>, overwritten: seq<EntryId>, now: int)
    requires Inv(t) && CopyEntries(t, copies, overwritten, now).Ok?
    ensures GoodStep(t, CopyEntries(t, copies, overwritten, now).value)
  {
    var copied := CopiedMappings(t, copies);
    var r := t.(mappings := WithoutEntries(t.mappings, overwritten) + copied);
    var ids := FileIdsOf(t, overwritten);
    forall e | e in t.mappings ensures Mapped(r, t.mappings[e]) || t.mappings[e] in ids {
      if e !in overwritten {
        assert e !in copied;
        assert r.mappings[e] == t.mappings[e];
      }
    }
    forall e | e in r.mappings && e in copied ensures CanBeLinked(t, r.mappings[e]) {
      var i :| 0 <= i < |copies| && copies[i].target == e && copied[e] == t.mappings[copies[i].source];
      assert CanBeLinked(r, t.mappings[copies[i].source]);
      LinkableIgnoresMappings(t, r, r.mappings[e]);
    }
    MappingTransaction(t, r, ids, now);
  }

  lemma LinkableIgnoresMappings(t: Tables, r: Tables, f: FileId)
    requires r == t.(mappings := r.mappings)
    ensures CanBeLinked(r, f) == CanBeLinked(t, f)
  {
    assert forall g :: AllLive(r, g) == AllLive(t, g);
    assert forall g :: DeletionRefsComplete(r, g) == DeletionRefsComplete(t, g);
    assert forall s :: SegmentLinkable(r, s) == SegmentLinkable(t, s);
  }

  // ---------------------------------------------------------------------------
  // Import publishing
  // ---------------------------------------------------------------------------

  lemma {:induction false} PublishMappingsChange(t: Tables, items: seq<ImportMapping>)
    requires PublishMappings(t, items).Ok?
    ensures var p := PublishMappings(t, items).value; MappingChange(t, p.tables, p.replaced)
  {
    if items != [] {
      var n := |items| - 1;
      var before := PublishMappings(t, items[..n]).value;
      var after := PublishMappings(t, items).value;
      PublishMappingsChange(t, items[..n]);
      LinkableIgnoresMappings(t, before.tables, items[n].target);
      var e := items[n].entry;
      forall d | d in t.mappings ensures Mapped(after.tables, t.mappings[d]) || t.mappings[d] in after.replaced {
        if Mapped(before.tables, t.mappings[d]) {
          var b :| b in before.tables.mappings && before.tables.mappings[b] == t.mappings[d];
          if b != e { assert after.tables.mappings[b] == t.mappings[d]; }
        }
      }
    }
  }

  lemma PublishImportKeeps(t: Tables, items: seq<ImportMapping>, now: int)
    requires Inv(t) && PublishImport(t, items, now).Ok?
    ensures GoodStep(t, PublishImport(t, items, now).value)
  {
    var p := PublishMappings(t, items).value;
    PublishMappingsChange(t, items);
    MappingTransaction(t, p.tables, p.replaced, now);
  }
}
