/** The looping transactions as the code runs them: methods on an object that holds the tables,
    each proved against the transaction function of the same step.  A failed transaction puts
    the tables back. */
module BlockStore {
  import opened BlockTables
  import opened BlockSteps
  import opened BlockWorker

  class Store {
    var t: Tables

    constructor (tables: Tables)
      ensures t == tables
    {
      t := tables;
    }

    /** markFileTreePendingIfUnreferenced. */
    method MarkFileTreePending(f: FileId, now: int) returns (ok: bool)
      requires SourcesPhysical(t)
      modifies this
      ensures var r := old(MarkTree(t, f, now)); ok == r.Ok? && (ok ==> t == r.value)
      ensures SameButStates(old(t), t)
      decreases if IsComposite(t, f) then 1 else 0, 0
    {
      if HasLiveReference(t, f) {
        return true;
      }
      if f !in t.files {
        return false;
      }
      match t.files[f].layout {
        case Physical =>
          t := t.(states := Pend(t.states, {f}, now));
          ok := true;
        case Composite =>
          ok := MarkFilesPending(Sources(t, f), now);
      }
    }

    /** markMappingFilesPending, and the loop over the sources of a composite. */
    method MarkFilesPending(ids: seq<FileId>, now: int) returns (ok: bool)
      requires SourcesPhysical(t)
      modifies this
      ensures var r := old(MarkEach(t, ids, now)); ok == r.Ok? && (ok ==> t == r.value)
      ensures SameButStates(old(t), t)
      decreases if exists i :: 0 <= i < |ids| && IsComposite(t, ids[i]) then 1 else 0, 1 + |ids|
    {
      for i := 0 to |ids|
        invariant SameButStates(old(t), t)
        invariant MarkEach(old(t), ids, now) == MarkEach(t, ids[i..], now)
      {
        assert ids[i..][0] == ids[i] && ids[i..][1..] == ids[i + 1..];
        ok := MarkFileTreePending(ids[i], now);
        if !ok {
          return;
        }
      }
      ok := true;
    }

    /** mappingEntryFileIDs. */
    method MappingEntryFileIds(entries: seq<EntryId>) returns (ids: seq<FileId>)
      ensures ids == FileIdsOf(t, entries)
      ensures forall i, j :: 0 <= i < j < |ids| ==> ids[i] != ids[j]
    {
      var seen := {};
      ids := [];
      for i := 0 to |entries|
        invariant ids == FileIdsOf(t, entries[..i])
        invariant forall f :: f in seen <==> f in ids
        invariant forall i, j :: 0 <= i < j < |ids| ==> ids[i] != ids[j]
      {
        assert entries[..i + 1][..i] == entries[..i];
        if entries[i] in t.mappings && t.mappings[entries[i]] !in seen {
          seen := seen + {t.mappings[entries[i]]};
          ids := ids + [t.mappings[entries[i]]];
        }
      }
      assert entries[..|entries|] == entries;
    }

    /** The removal transactions: drop the entries, then mark what they referred to. */
    method RemoveLinks(entries: seq<EntryId>, now: int) returns (ok: bool)
      requires SourcesPhysical(t)
      modifies this
      ensures var r := old(RemoveEntries(t, entries, now)); ok == r.Ok? && t == if ok then r.value else old(t)
    {
      var before := t;
      var ids := MappingEntryFileIds(entries);
      t := t.(mappings := WithoutEntries(t.mappings, entries));
      ok := MarkFilesPending(ids, now);
      if !ok {
        t := before;
      }
    }

    /** abortMultipartUploadTx. */
    method AbortMultipartUpload(u: UploadId, now: int) returns (ok: bool)
      requires SourcesPhysical(t)
      modifies this
      ensures var r := old(AbortUpload(t, u, now)); ok == r.Ok? && t == if ok then r.value else old(t)
    {
      if u !in t.uploads || !t.uploads[u].state.Active? {
        return false;
      }
      var before := t;
      var ids := ListPartFiles(u);
      t := t.(uploads := t.uploads[u := t.uploads[u].(state := Aborted, cleanupAt := now + ControlRetention)]);
      t := t.(uploadParts := DiscardParts(t, u));
      DiscardIgnoresUploads(before, t, u);
      ok := MarkFilesPending(ids, now);
      if !ok {
        t := before;
      }
    }

    lemma DiscardIgnoresUploads(a: Tables, b: Tables, u: UploadId)
      requires b.uploadParts == DiscardParts(a.(uploads := b.uploads), u)
      ensures b.uploadParts == DiscardParts(a, u)
    {
    }

    method ListPartFiles(u: UploadId) returns (ids: seq<FileId>)
      ensures ids == ActivePartFiles(t, u, MaxUploadParts)
    {
      ids := [];
      for n := 0 to MaxUploadParts
        invariant ids == ActivePartFiles(t, u, n)
      {
        var k := UploadPartKey(u, n + 1);
        if k in t.uploadParts && t.uploadParts[k].state.PartActive? {
          ids := ids + [t.uploadParts[k].file];
        }
      }
    }

    /** publishMappings and complete: targets are checked and mapped one by one, replaced files
        are collected, and marked at the end. */
    method PublishBackupImport(items: seq<ImportMapping>, now: int) returns (ok: bool)
      requires SourcesPhysical(t)
      modifies this
      ensures var r := old(PublishImport(t, items, now)); ok == r.Ok? && t == if ok then r.value else old(t)
    {
      var before := t;
      var replaced: seq<FileId> := [];
      for i := 0 to |items|
        invariant PublishMappings(before, items[..i]) == Ok(Publishing(t, replaced))
      {
        assert items[..i + 1][..i] == items[..i];
        if !CanBeLinked(t, items[i].target) {
          RefusedPrefix(before, items, i + 1);
          t := before;
          return false;
        }
        if items[i].entry in t.mappings {
          replaced := replaced + [t.mappings[items[i].entry]];
        } else {
          assert replaced + [] == replaced;
        }
        t := t.(mappings := t.mappings[items[i].entry := items[i].target]);
      }
      assert items[..|items|] == items;
      PublishMappingsKeeps(before, items);
      ok := MarkFilesPending(replaced, now);
      if !ok {
        t := before;
      }
    }

    /** One refused target refuses the whole import. */
    lemma RefusedPrefix(before: Tables, items: seq<ImportMapping>, n: nat)
      requires n <= |items| && PublishMappings(before, items[..n]).Err?
      ensures PublishMappings(before, items).Err?
      decreases |items| - n
    {
      if n == |items| {
        assert items[..n] == items;
      } else {
        assert items[..n + 1][..n] == items[..n];
        RefusedPrefix(before, items, n + 1);
      }
    }

    /** claimBlockDeleteWork, given the rows its query returned. */
    method ClaimBlockDeleteWork(backend: string, candidates: seq<PartKey>, now: int) returns (works: seq<PartKey>)
      requires forall i :: 0 <= i < |candidates| ==> candidates[i] in t.states
      modifies this
      ensures old(ClaimWork(t, backend, candidates, now)) == Claims(t, works)
    {
      var before := t.(states := RestoreExpiredLeases(t.states, backend, now));
      t := before;
      works := [];
      for i := 0 to |candidates|
        invariant t.states.Keys == before.states.Keys
        invariant ClaimEach(before, candidates[..i], now) == Claims(t, works)
      {
        assert candidates[..i + 1][..i] == candidates[..i];
        var claim := ClaimCandidate(t, candidates[i], now);
        t := claim.tables;
        if claim.claimed {
          works := works + [candidates[i]];
        }
      }
      assert candidates[..|candidates|] == candidates;
    }
  }
}
