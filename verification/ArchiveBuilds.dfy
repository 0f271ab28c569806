/** What the builder writes and which of it the reader accepts. */
module ArchiveBuilds {
  import opened ArchiveNames
  import opened Archive
  import opened ArchiveProofs
  import opened ArchiveContents
  import opened ArchiveRoundTrip
  import opened ArchiveCode

  /** What Build writes is what the reader asks of the source. */
  lemma FilledIsSourced(m: Manifest, open: (string, int) -> Bytes, t: Tools)
    requires forall i :: 0 <= i < |m.files| ==> FileMatches(m.files[i], open, t)
    ensures SourceMatches(FilledManifest(m, open, t).files, open, t)
  {
    var files := FilledManifest(m, open, t).files;
    forall i | 0 <= i < |files| ensures FileSourced(files[i], open, t) {
      assert FileMatches(m.files[i], open, t);
      forall p | 0 <= p < |files[i].parts|
        ensures |open(files[i].ref, files[i].parts[p].index)| == files[i].parts[p].size
        ensures t.digest(open(files[i].ref, files[i].parts[p].index)) == files[i].parts[p].digest
      {
        assert PartMatches(m.files[i].ref, m.files[i].parts[p], open, t);
      }
    }
  }

  lemma FilledShort(files: seq<File>, open: (string, int) -> Bytes, t: Tools)
    ensures ShortIndices(Filled(files, open, t)) <==> ShortIndices(files)
  {
    assert forall i :: 0 <= i < |files| ==> |Filled(files, open, t)[i].parts| == |files[i].parts|;
  }

  // ---------------------------------------------------------------------------
  // Every entry that is written fits the archive
  // ---------------------------------------------------------------------------

  lemma PartNameIsEntryName(ref: string, index: nat)
    requires IsRef(ref)
    ensures IsEntryName(PartName(ref, index))
  {
    var s, digits := PartName(ref, index), Padded(index, 8);
    assert s[..6] == "parts/" && s[6..15] == ref && s[15..16] == "/";
    assert s[16..|s| - 4] == digits && s[|s| - 4..] == ".bin";
  }

  /** The parts of a file are small enough. */
  ghost predicate PartsSmall(f: File) {
    forall p :: 0 <= p < |f.parts| ==> f.parts[p].size < USTAR_SIZE && |f.parts[p].entry| <= USTAR_NAME
  }

  lemma {:induction false} PartEntriesStorable(files: seq<File>, maxPart: int, open: (string, int) -> Bytes, t: Tools)
    requires FilesInOrder(files, maxPart) && SourceMatches(files, open, t)
    requires forall i :: 0 <= i < |files| ==> PartsSmall(files[i])
    ensures AllStorable(PartEntries(files, open))
  {
    if files != [] {
      var n := |files| - 1;
      assert forall i :: 0 <= i < n ==> files[..n][i] == files[i];
      PartEntriesStorable(files[..n], maxPart, open, t);
      assert FileNamed(files[n], maxPart) && FileSourced(files[n], open, t) && PartsSmall(files[n]);
      FileEntriesStorable(files[n], maxPart, open, t);
    }
  }

  lemma FileEntriesStorable(f: File, maxPart: int, open: (string, int) -> Bytes, t: Tools)
    requires FileNamed(f, maxPart) && FileSourced(f, open, t) && PartsSmall(f)
    ensures AllStorable(FileEntries(f.ref, f.parts, open))
  {
    forall p | 0 <= p < |f.parts| ensures Storable(FileEntries(f.ref, f.parts, open)[p]) {
      assert PartValid(f.ref, f.parts[p], p, maxPart);
      PartNameIsEntryName(f.ref, p);
    }
  }

  lemma FilledSmall(f: File, open: (string, int) -> Bytes, t: Tools)
    requires FileMatches(f, open, t)
    ensures PartsSmall(FilledFile(f, open, t))
  {
    forall p | 0 <= p < |f.parts| ensures f.parts[p].size < USTAR_SIZE && |f.parts[p].entry| <= USTAR_NAME {
      assert PartMatches(f.ref, f.parts[p], open, t);
    }
  }

  lemma BuiltIsStorable(m: Manifest, l: Limits, open: (string, int) -> Bytes, t: Tools)
    requires Sane(t) && Buildable(m, l, open, t)
    ensures AllStorable(ArchiveOf(FilledManifest(m, open, t), open, t))
  {
    var full := FilledManifest(m, open, t);
    FilledIsSourced(m, open, t);
    ValidInOrder(full.files, l, PartLimit(m.maxPartSize, full), t);
    forall i | 0 <= i < |full.files| ensures PartsSmall(full.files[i]) {
      assert FileMatches(m.files[i], open, t);
      FilledSmall(m.files[i], open, t);
    }
    PartEntriesStorable(full.files, PartLimit(m.maxPartSize, full), open, t);
    ArchiveStorable(full, open, t);
  }

  lemma ArchiveStorable(m: Manifest, open: (string, int) -> Bytes, t: Tools)
    requires AllStorable(PartEntries(m.files, open)) && |t.header| < USTAR_SIZE && |t.encode(m)| < USTAR_SIZE
    ensures AllStorable(ArchiveOf(m, open, t))
  {
    var entries := ArchiveOf(m, open, t);
    forall i | 0 <= i < |entries| ensures Storable(entries[i]) {
      if 0 < i < |entries| - 1 { assert entries[i] == PartEntries(m.files, open)[i - 1]; }
    }
  }

  // ---------------------------------------------------------------------------
  // Filling in digests changes neither the contents nor what is said of them
  // ---------------------------------------------------------------------------

  lemma {:induction false} FilledBytes(ref: string, parts: seq<Part>, open: (string, int) -> Bytes, t: Tools)
    ensures FileBytes(ref, FilledParts(ref, parts, open, t), open) == FileBytes(ref, parts, open)
  {
    if parts != [] {
      var n := |parts| - 1;
      FilledBytes(ref, parts[..n], open, t);
      assert FilledParts(ref, parts, open, t)[..n] == FilledParts(ref, parts[..n], open, t);
    }
  }

  lemma {:induction false} FilledFileAt(files: seq<File>, open: (string, int) -> Bytes, t: Tools, ref: string)
    ensures FileAt(Filled(files, open, t), ref) ==
      if FileAt(files, ref).Some? then Some(FilledFile(FileAt(files, ref).value, open, t)) else None
  {
    if files != [] {
      var n := |files| - 1;
      FilledFileAt(files[..n], open, t, ref);
      assert Filled(files, open, t)[..n] == Filled(files[..n], open, t);
    }
  }

  lemma FilledContents(files: seq<File>, open: (string, int) -> Bytes, t: Tools)
    ensures SourceContents(Filled(files, open, t), open) == SourceContents(files, open)
  {
    var filled := Filled(files, open, t);
    assert forall i :: 0 <= i < |files| ==> filled[i].ref == files[i].ref && filled[i].layout == files[i].layout;
    assert PhysicalRefs(filled) == PhysicalRefs(files);
    forall ref | ref in PhysicalRefs(files)
      ensures SourceContent(filled, open, ref) == SourceContent(files, open, ref)
    {
      FilledFileAt(files, open, t, ref);
      if FileAt(files, ref).Some? {
        var i := FileAtIs(files, ref);
        FilledBytes(ref, FileAt(files, ref).value.parts, open, t);
      }
    }
  }

  lemma FilledStates(m: Manifest, open: (string, int) -> Bytes, contents: map<string, Bytes>, t: Tools)
    ensures ContentTrue(FilledManifest(m, open, t), contents, t) <==> ContentTrue(m, contents, t)
  {
    var full := FilledManifest(m, open, t);
    forall i | 0 <= i < |m.files|
      ensures AllCompletedTrue(full.files[i], contents, t) <==> AllCompletedTrue(m.files[i], contents, t)
    {
      FilledCompleted(m.files[i], open, contents, t);
    }
    forall i | 0 <= i < |m.objects|
      ensures ObjectTrue(full, m.objects[i], contents, t) <==> ObjectTrue(m, m.objects[i], contents, t)
    {
      FilledObject(m, open, m.objects[i], contents, t);
    }
  }

  lemma FilledObject(m: Manifest, open: (string, int) -> Bytes, o: S3Object, contents: map<string, Bytes>, t: Tools)
    ensures ObjectTrue(FilledManifest(m, open, t), o, contents, t) <==> ObjectTrue(m, o, contents, t)
  {
    var f := FileAt(m.files, RefAt(m.mappings, o.path));
    FilledFileAt(m.files, open, t, RefAt(m.mappings, o.path));
    if f.Some? {
      assert ObjectChecksum(FilledFile(f.value, open, t), o, contents, t) == ObjectChecksum(f.value, o, contents, t);
    }
  }

  lemma FilledCompleted(f: File, open: (string, int) -> Bytes, contents: map<string, Bytes>, t: Tools)
    ensures AllCompletedTrue(FilledFile(f, open, t), contents, t) <==> AllCompletedTrue(f, contents, t)
  {
    var g := FilledFile(f, open, t);
    if |f.completed| == |f.segments| {
      assert forall k :: 0 <= k < |f.completed| ==>
        (CompletedTrue(g, k, contents, t) <==> CompletedTrue(f, k, contents, t));
    }
  }

  // ---------------------------------------------------------------------------
  // The part limit of the reader
  // ---------------------------------------------------------------------------

  /** No part is larger than a reader's limit, unless that is none. */
  ghost predicate PartsFit(files: seq<File>, maxPart: int) {
    maxPart <= 0 || forall i, p :: 0 <= i < |files| && 0 <= p < |files[i].parts| ==> files[i].parts[p].size <= maxPart
  }

  lemma FileFits(f: File, large: int, small: int, t: Tools)
    requires FileValid(f, large, t) && small <= large
    ensures FileValid(f, small, t) <==> forall p :: 0 <= p < |f.parts| ==> f.parts[p].size <= small
  {
    if FileValid(f, small, t) {
      forall p | 0 <= p < |f.parts| ensures f.parts[p].size <= small {
        assert f.layout == 1 && PartValid(f.ref, f.parts[p], p, small);
      }
    }
    if forall p :: 0 <= p < |f.parts| ==> f.parts[p].size <= small {
      if f.layout == 1 {
        forall p | 0 <= p < |f.parts| ensures PartValid(f.ref, f.parts[p], p, small) {
          assert PartValid(f.ref, f.parts[p], p, large);
        }
      }
    }
  }

  /** A manifest that is valid for its own limit is so for another exactly if its parts are within that. */
  lemma FitsReader(m: Manifest, l: Limits, maxPart: int, t: Tools)
    requires ManifestValid(m, l, m.maxPartSize, t)
    ensures ManifestValid(m, l, maxPart, t) <==> PartsFit(m.files, maxPart)
  {
    var large, small := m.maxPartSize, PartLimit(maxPart, m);
    forall i | 0 <= i < |m.files|
      ensures FileValid(m.files[i], small, t) <==>
        forall p :: 0 <= p < |m.files[i].parts| ==> m.files[i].parts[p].size <= small
      ensures forall p :: 0 <= p < |m.files[i].parts| ==> m.files[i].parts[p].size <= large
    {
      FileFits(m.files[i], large, small, t);
      FileFits(m.files[i], large, large, t);
    }
  }

  // ---------------------------------------------------------------------------
  // What is built is read back
  // ---------------------------------------------------------------------------

  /** What Build writes. */
  ghost function Built(m: Manifest, open: (string, int) -> Bytes, t: Tools): Bytes {
    t.pack(ArchiveOf(FilledManifest(m, open, t), open, t))
  }

  /** The checksums that a manifest states are those of what the source gives. */
  ghost predicate SourceStated(m: Manifest, open: (string, int) -> Bytes, t: Tools) {
    ContentTrue(m, SourceContents(m.files, open), t)
  }

  /** What Build writes is accepted by a reader with the same limits and a part limit of its own, and
      then gives back the completed manifest and the part bytes of the source, exactly if: no file has
      more than 10^8 parts; header, parts and manifest together are within the expanded limit; the
      archive file is within its limit; the parts are within the reader's; and the checksums of
      completed parts and of objects are those of the source. */
  lemma BuiltReadsBack(m: Manifest, l: Limits, open: (string, int) -> Bytes, maxPart: int, t: Tools)
    requires Sane(t) && Buildable(m, l, open, t)
    ensures var full := FilledManifest(m, open, t);
      && (Accepted(Built(m, open, t), l, maxPart, t, full) <==>
            && ShortIndices(m.files)
            && |t.header| + m.summary.physicalBytes + |t.encode(full)| <= l.maxExpanded
            && |Built(m, open, t)| <= l.maxArchive
            && PartsFit(m.files, maxPart)
            && SourceStated(m, open, t))
      && (forall other :: Accepted(Built(m, open, t), l, maxPart, t, other) ==> other == full)
      && (Accepted(Built(m, open, t), l, maxPart, t, full) ==>
            && After(ArchiveOf(full, open, t), l, t).Some?
            && After(ArchiveOf(full, open, t), l, t).value.parts == PartEntries(full.files, open))
  {
    var full := FilledManifest(m, open, t);
    FilledIsSourced(m, open, t);
    BuiltIsStorable(m, l, open, t);
    RoundTrip(full, open, l, maxPart, t);
    FilledShort(m.files, open, t);
    FilledContents(m.files, open, t);
    FilledStates(m, open, SourceContents(m.files, open), t);
    FitsReader(full, l, maxPart, t);
    FilledFits(m.files, open, maxPart, t);
    forall other | Accepted(Built(m, open, t), l, maxPart, t, other)
      ensures other == full && After(ArchiveOf(full, open, t), l, t).Some?
      ensures After(ArchiveOf(full, open, t), l, t).value.parts == PartEntries(full.files, open)
    {
      ReadBackIsWhatWasBuilt(full, open, l, maxPart, t, other);
    }
  }

  lemma FilledFits(files: seq<File>, open: (string, int) -> Bytes, maxPart: int, t: Tools)
    ensures PartsFit(Filled(files, open, t), maxPart) <==> PartsFit(files, maxPart)
  {
    var filled := Filled(files, open, t);
    assert forall i :: 0 <= i < |files| ==> |filled[i].parts| == |files[i].parts|;
    assert forall i, p :: 0 <= i < |files| && 0 <= p < |files[i].parts| ==>
      filled[i].parts[p].size == files[i].parts[p].size;
  }

  /** The greatest max_part_count that the configuration admits. */
  const MAX_PART_COUNT := 10_000_000

  /** Under a limit that can be configured the number of parts is never the reason, and for a reader
      with the builder's part limit, such as the export that verifies what it built, neither is the
      size of a part. */
  lemma ConfiguredReadsBack(m: Manifest, l: Limits, open: (string, int) -> Bytes, maxPart: int, t: Tools)
    requires Sane(t) && Buildable(m, l, open, t) && l.maxParts <= MAX_PART_COUNT
    ensures var full := FilledManifest(m, open, t);
      Accepted(Built(m, open, t), l, maxPart, t, full) <==>
      && |t.header| + m.summary.physicalBytes + |t.encode(full)| <= l.maxExpanded
      && |Built(m, open, t)| <= l.maxArchive && PartsFit(m.files, maxPart) && SourceStated(m, open, t)
    ensures maxPart >= m.maxPartSize ==> PartsFit(m.files, maxPart)
  {
    var full := FilledManifest(m, open, t);
    BuiltReadsBack(m, l, open, maxPart, t);
    LimitKeepsIndicesShort(full, l, m.maxPartSize, t);
    FilledShort(m.files, open, t);
    FitsReader(full, l, m.maxPartSize, t);
    FilledFits(m.files, open, m.maxPartSize, t);
  }
}
